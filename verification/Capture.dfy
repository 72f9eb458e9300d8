/** What a bounded capture does with each entry, and which trees it accepts
    (crates/kitrove-agent-skills/src/tree.rs:593-839 and 900-1005). */
module Capture {
  import opened Outcome
  import opened Bytes
  import opened Paths
  import opened Lexicographic
  import opened Trees
  import opened Collisions
  import opened FileTree
  import opened Portable
  import opened PortableNames

  const MAX_CAPTURE_DIRECTORIES: nat := 512
  const MAX_CAPTURE_DEPTH: nat := 64

  datatype ErrorKind =
    | NonUtf8
    | InvalidPortable
    | PathCollision
    | InputOutput
    | Symlink
    | ReparsePoint
    | SpecialFile
    | DepthLimit
    | TraversalLimit
    | FileCountLimit
    | FileSizeLimit
    | TotalSizeLimit
    | ChangedDuringRead
    | HandlePolicy
    | InventoryMismatch

  datatype CaptureError = CaptureError(kind: ErrorKind, path: Path)

  /** The tree, and how everything outside the code answers while it is captured: which names are
      UTF-8, how a path folds, and at which paths an inspection, an opening (with its identity and
      policy checks), a listing or the final re-check fails. */
  datatype World = World(
    fs: Tree,
    utf8: Name -> bool,
    fold: Fold,
    inspect: Path -> Option<ErrorKind>,
    open: Path -> Option<ErrorKind>,
    list: Path -> Option<ErrorKind>,
    settle: Path -> Option<ErrorKind>)

  datatype Limits = Limits(maxFiles: nat, maxFileBytes: nat, maxTotalBytes: nat)

  /** The admitted names of an exact-inventory verification. */
  datatype Inventory = Inventory(files: set<Key>, directories: set<Key>)

  datatype Config = Config(limits: Limits, maxEntries: nat, inventory: Option<Inventory>)

  datatype Tally = Tally(files: Files, registry: map<Key, Key>, totalBytes: nat, directories: nat, entries: nat)

  type Attempt<T> = Result<T, CaptureError>

  /** A directory's listing is taken whole, or refused when it exceeds what remains of the allowance. */
  function Enqueue(w: World, cfg: Config, t: Tally, d: Path): Attempt<Tally> {
    if w.list(d).Some? then Err(CaptureError(w.list(d).value, d))
    else if |Children(w.fs, d)| > Max(cfg.maxEntries - t.entries, 0) then Err(CaptureError(TraversalLimit, d))
    else Ok(t.(entries := t.entries + |Children(w.fs, d)|))
  }

  function CheckName(w: World, t: Tally, p: Path): Attempt<Tally>
    requires p != []
  {
    if !w.utf8(Last(p)) then Err(CaptureError(NonUtf8, p))
    else if !PortableName(Last(p)) then Err(CaptureError(InvalidPortable, p))
    else
      var registry := Register(w.fold, t.registry, Join(p));
      if registry.None? then Err(CaptureError(PathCollision, p)) else Ok(t.(registry := registry.value))
  }

  function VisitDirectory(w: World, cfg: Config, t: Tally, p: Path): Attempt<Tally> {
    if cfg.inventory.Some? && Join(p) !in cfg.inventory.value.directories then Err(CaptureError(InventoryMismatch, p))
    else if cfg.inventory.None? && |p| > MAX_CAPTURE_DEPTH then Err(CaptureError(DepthLimit, p))
    else if cfg.inventory.None? && t.directories + 1 > MAX_CAPTURE_DIRECTORIES then Err(CaptureError(TraversalLimit, p))
    else if w.open(p).Some? then Err(CaptureError(w.open(p).value, p))
    else Enqueue(w, cfg, t.(directories := t.directories + 1), p)
  }

  function CaptureFile(w: World, cfg: Config, t: Tally, p: Path, f: CapturedFile): Attempt<Tally> {
    if |t.files| >= cfg.limits.maxFiles then Err(CaptureError(FileCountLimit, p))
    else if w.open(p).Some? then Err(CaptureError(w.open(p).value, p))
    else if |f.bytes| > cfg.limits.maxFileBytes then Err(CaptureError(FileSizeLimit, p))
    else if |f.bytes| > Max(cfg.limits.maxTotalBytes - t.totalBytes, 0) then Err(CaptureError(TotalSizeLimit, p))
    else if w.settle(p).Some? then Err(CaptureError(w.settle(p).value, p))
    else Ok(t.(totalBytes := t.totalBytes + |f.bytes|, files := t.files[Join(p) := f]))
  }

  function VisitFile(w: World, cfg: Config, t: Tally, p: Path, f: CapturedFile): Attempt<Tally> {
    if cfg.inventory.Some? && Join(p) !in cfg.inventory.value.files then Err(CaptureError(InventoryMismatch, p))
    else CaptureFile(w, cfg, t, p, f)
  }

  /** One popped entry. */
  function Visit(w: World, cfg: Config, t: Tally, p: Path): Attempt<Tally>
    requires p in w.fs && p != []
  {
    var named :- CheckName(w, t, p);
    if w.inspect(p).Some? then Err(CaptureError(w.inspect(p).value, p))
    else
      match w.fs[p]
      case LinkNode => Err(CaptureError(Symlink, p))
      case ReparseNode => Err(CaptureError(ReparsePoint, p))
      case DirNode => VisitDirectory(w, cfg, named, p)
      case FileNode(f) => VisitFile(w, cfg, named, p, f)
      case SpecialNode => Err(CaptureError(SpecialFile, p))
  }

  function VisitAll(w: World, cfg: Config, order: seq<Key>, t: Tally): Attempt<Tally>
    requires forall i | 0 <= i < |order| :: KeyIn(w.fs, order[i])
  {
    if order == [] then Ok(t)
    else
      assert KeyIn(w.fs, order[0]);
      var next :- Visit(w, cfg, t, Split(order[0]));
      VisitAll(w, cfg, order[1..], next)
  }

  const NOTHING: Tally := Tally(map[], map[], 0, 0, 0)

  /** The whole capture: the root is listed, then every path is visited in the byte order of its key.
      The order in which directories list their entries does not occur. */
  function CaptureTree(w: World, cfg: Config): Attempt<Tally>
    requires TreeOk(w.fs)
  {
    OrderHolds(w.fs);
    var root :- Enqueue(w, cfg, NOTHING, []);
    VisitAll(w, cfg, Order(w.fs), root)
  }

  // ----- Which trees are accepted

  /** What acceptance asks of one path, whatever else is in the tree. */
  predicate Admitted(w: World, cfg: Config, p: Path) {
    && p in w.fs && p != []
    && w.utf8(Last(p)) && Acceptable(Last(p)) && w.inspect(p).None? && w.open(p).None?
    && match w.fs[p]
       case DirNode =>
         && w.list(p).None?
         && (if cfg.inventory.Some? then Join(p) in cfg.inventory.value.directories else |p| <= MAX_CAPTURE_DEPTH)
       case FileNode(f) =>
         && w.settle(p).None? && |f.bytes| <= cfg.limits.maxFileBytes
         && (cfg.inventory.Some? ==> Join(p) in cfg.inventory.value.files)
       case _ => false
  }

  function FileAt(fs: Tree, k: Key): Option<CapturedFile> {
    if Split(k) in fs && fs[Split(k)].FileNode? then Some(fs[Split(k)].file) else None
  }

  predicate DirAt(fs: Tree, k: Key) {
    Split(k) in fs && fs[Split(k)].DirNode?
  }

  /** What the limits bound: files, their bytes, directories, and listed entries. */
  datatype Load = Load(files: nat, bytes: nat, directories: nat, entries: nat) {
    function Plus(other: Load): Load {
      Load(files + other.files, bytes + other.bytes, directories + other.directories, entries + other.entries)
    }
  }

  /** One path's share. */
  function Share(fs: Tree, k: Key): Load {
    var file := FileAt(fs, k);
    Load(if file.Some? then 1 else 0,
         if file.Some? then |file.value.bytes| else 0,
         if DirAt(fs, k) then 1 else 0,
         |Children(fs, Split(k))|)
  }

  function Ahead(fs: Tree, order: seq<Key>): Load {
    if order == [] then Load(0, 0, 0, 0) else Share(fs, order[0]).Plus(Ahead(fs, order[1..]))
  }

  function LoadOf(t: Tally): Load {
    Load(|t.files|, t.totalBytes, t.directories, t.entries)
  }

  predicate Fits(cfg: Config, l: Load) {
    && l.files <= cfg.limits.maxFiles && l.bytes <= cfg.limits.maxTotalBytes
    && (cfg.inventory.None? ==> l.directories <= MAX_CAPTURE_DIRECTORIES) && l.entries <= cfg.maxEntries
  }

  function KeySet(order: seq<Key>): set<Key> {
    set k | k in order
  }

  predicate AllAdmitted(w: World, cfg: Config, order: seq<Key>) {
    forall i | 0 <= i < |order| :: Admitted(w, cfg, Split(order[i]))
  }

  /** Everything acceptance asks of the rest of a run that has reached the load `l` after visiting `seen`. */
  predicate RestFits(w: World, cfg: Config, order: seq<Key>, l: Load, seen: set<Key>) {
    && AllAdmitted(w, cfg, order)
    && CollisionFree(w.fold, seen + KeySet(order))
    && Fits(cfg, l.Plus(Ahead(w.fs, order)))
  }

  /** What one visit must satisfy, and what it adds. */
  predicate VisitedExactly(w: World, cfg: Config, k: Key, t: Tally, seen: set<Key>)
    requires KeyIn(w.fs, k) && Split(k) != []
  {
    var r, load := Visit(w, cfg, t, Split(k)), LoadOf(t).Plus(Share(w.fs, k));
    && (r.Ok? <==> Admitted(w, cfg, Split(k)) && CollisionFree(w.fold, seen + {k}) && Fits(cfg, load))
    && (r.Ok? ==>
          && LoadOf(r.value) == load && Registers(w.fold, r.value.registry, seen + {k})
          && r.value.files == if FileAt(w.fs, k).Some? then t.files[k := FileAt(w.fs, k).value] else t.files)
  }

  /** One visit succeeds exactly when its path is admitted, collides with nothing, and its share fits. */
  lemma VisitExactly(w: World, cfg: Config, k: Key, t: Tally, seen: set<Key>)
    requires TreeOk(w.fs) && KeyIn(w.fs, k) && Registers(w.fold, t.registry, seen)
    requires Fits(cfg, LoadOf(t)) && k !in t.files
    ensures Split(k) != [] && VisitedExactly(w, cfg, k, t, seen)
  {
    hide CollisionFree, Registers, Register, VisitedExactly, Fits;
    RegisterExactly(w.fold, t.registry, seen, k);
    EnqueueMore(w.fs, {}, k);
    match w.fs[Split(k)]
    case DirNode => VisitedDirectory(w, cfg, k, t, seen);
    case FileNode(f) => VisitedFile(w, cfg, k, t, seen);
    case _ => VisitedOther(w, cfg, k, t, seen);
  }

  lemma VisitedOther(w: World, cfg: Config, k: Key, t: Tally, seen: set<Key>)
    requires KeyIn(w.fs, k) && Split(k) != [] && !w.fs[Split(k)].DirNode? && !w.fs[Split(k)].FileNode?
    ensures VisitedExactly(w, cfg, k, t, seen)
  {
    hide CollisionFree, Registers, Register, Fits;
  }

  lemma VisitedDirectory(w: World, cfg: Config, k: Key, t: Tally, seen: set<Key>)
    requires KeyIn(w.fs, k) && Split(k) != [] && w.fs[Split(k)] == DirNode && Fits(cfg, LoadOf(t))
    requires Register(w.fold, t.registry, k).Some? <==> CollisionFree(w.fold, seen + {k})
    requires Register(w.fold, t.registry, k).Some? ==>
      Registers(w.fold, Register(w.fold, t.registry, k).value, seen + {k})
    ensures VisitedExactly(w, cfg, k, t, seen)
  {
    hide PortableName, Acceptable, CollisionFree, Registers, Register, VisitDirectory, Children;
    PortableExactly(Last(Split(k)));
    if CheckName(w, t, Split(k)).Ok? {
      DirectoryExactly(w, cfg, CheckName(w, t, Split(k)).value, Split(k));
    }
  }

  lemma VisitedFile(w: World, cfg: Config, k: Key, t: Tally, seen: set<Key>)
    requires KeyIn(w.fs, k) && Split(k) != [] && w.fs[Split(k)].FileNode? && Fits(cfg, LoadOf(t)) && k !in t.files
    requires Children(w.fs, Split(k)) == {}
    requires Register(w.fold, t.registry, k).Some? <==> CollisionFree(w.fold, seen + {k})
    requires Register(w.fold, t.registry, k).Some? ==>
      Registers(w.fold, Register(w.fold, t.registry, k).value, seen + {k})
    ensures VisitedExactly(w, cfg, k, t, seen)
  {
    hide PortableName, Acceptable, CollisionFree, Registers, Register, VisitFile, Children;
    PortableExactly(Last(Split(k)));
    if CheckName(w, t, Split(k)).Ok? {
      FileExactly(w, cfg, CheckName(w, t, Split(k)).value, Split(k), w.fs[Split(k)].file);
    }
  }

  lemma DirectoryExactly(w: World, cfg: Config, t: Tally, p: Path)
    requires t.entries <= cfg.maxEntries
    ensures VisitDirectory(w, cfg, t, p).Ok?
       <==> && w.open(p).None? && w.list(p).None?
            && (if cfg.inventory.Some? then Join(p) in cfg.inventory.value.directories
                else |p| <= MAX_CAPTURE_DEPTH && t.directories + 1 <= MAX_CAPTURE_DIRECTORIES)
            && t.entries + |Children(w.fs, p)| <= cfg.maxEntries
    ensures VisitDirectory(w, cfg, t, p).Ok? ==>
      VisitDirectory(w, cfg, t, p).value
      == t.(directories := t.directories + 1, entries := t.entries + |Children(w.fs, p)|)
  {
    hide Children;
  }

  lemma FileExactly(w: World, cfg: Config, t: Tally, p: Path, f: CapturedFile)
    requires t.totalBytes <= cfg.limits.maxTotalBytes && |t.files| <= cfg.limits.maxFiles && Join(p) !in t.files
    ensures VisitFile(w, cfg, t, p, f).Ok?
       <==> && w.open(p).None? && w.settle(p).None?
            && (cfg.inventory.Some? ==> Join(p) in cfg.inventory.value.files)
            && |f.bytes| <= cfg.limits.maxFileBytes
            && |t.files| + 1 <= cfg.limits.maxFiles && t.totalBytes + |f.bytes| <= cfg.limits.maxTotalBytes
    ensures VisitFile(w, cfg, t, p, f).Ok? ==>
      && VisitFile(w, cfg, t, p, f).value
         == t.(totalBytes := t.totalBytes + |f.bytes|, files := t.files[Join(p) := f])
      && |VisitFile(w, cfg, t, p, f).value.files| == |t.files| + 1
  {
  }

  function FilesOf(fs: Tree, order: seq<Key>): Files {
    map k | k in order && FileAt(fs, k).Some? :: FileAt(fs, k).value
  }

  predicate AllIn(fs: Tree, order: seq<Key>) {
    forall i | 0 <= i < |order| :: KeyIn(fs, order[i])
  }

  predicate NoneOf(order: seq<Key>, files: Files) {
    forall i | 0 <= i < |order| :: order[i] !in files
  }

  /** What the rest of a run asks, split into its first path and what follows. */
  lemma RestFitsCons(w: World, cfg: Config, k: Key, rest: seq<Key>, l: Load, seen: set<Key>)
    ensures RestFits(w, cfg, [k] + rest, l, seen)
       <==> && Admitted(w, cfg, Split(k)) && CollisionFree(w.fold, seen + {k}) && Fits(cfg, l.Plus(Share(w.fs, k)))
            && RestFits(w, cfg, rest, l.Plus(Share(w.fs, k)), seen + {k})
  {
    hide Admitted, CollisionFree, Share;
    var order := [k] + rest;
    assert order[0] == k && order[1..] == rest;
    assert seen + KeySet(order) == seen + {k} + KeySet(rest);
    if CollisionFree(w.fold, seen + KeySet(order)) {
      FreeWithin(w.fold, seen + {k}, seen + KeySet(order));
    }
    assert forall i | 0 <= i < |rest| :: order[i + 1] == rest[i];
    AheadCons(w.fs, k, rest, l);
  }

  lemma AheadCons(fs: Tree, k: Key, rest: seq<Key>, l: Load)
    ensures l.Plus(Share(fs, k)).Plus(Ahead(fs, rest)) == l.Plus(Ahead(fs, [k] + rest))
  {
    hide Share;
    assert ([k] + rest)[0] == k && ([k] + rest)[1..] == rest;
  }

  lemma DistinctTail(order: seq<Key>)
    requires Increasing(order) && order != []
    ensures Increasing(order[1..]) && order[0] !in order[1..]
  {
    forall i | 0 < i < |order|
      ensures order[i] != order[0]
    {
      Irreflexive(order[0]);
    }
  }

  lemma FilesOfCons(fs: Tree, k: Key, rest: seq<Key>, files: Files, files': Files)
    requires k !in rest && files' == if FileAt(fs, k).Some? then files[k := FileAt(fs, k).value] else files
    ensures files' + FilesOf(fs, rest) == files + FilesOf(fs, [k] + rest)
  {
    hide FileAt;
  }

  /** What a run that took everything ahead of it has become. */
  predicate TookAll(w: World, order: seq<Key>, t: Tally, seen: set<Key>, u: Tally) {
    && u.files == t.files + FilesOf(w.fs, order) && LoadOf(u) == LoadOf(t).Plus(Ahead(w.fs, order))
    && Registers(w.fold, u.registry, seen + KeySet(order))
  }

  /** One visit, and what it leaves for the rest. */
  lemma VisitFirst(w: World, cfg: Config, k: Key, rest: seq<Key>, t: Tally, seen: set<Key>)
    requires TreeOk(w.fs) && KeyIn(w.fs, k) && k !in rest && NoneOf([k] + rest, t.files)
    requires Registers(w.fold, t.registry, seen) && Fits(cfg, LoadOf(t)) && Split(k) in w.fs && Split(k) != []
    ensures Visit(w, cfg, t, Split(k)).Ok?
       <==> Admitted(w, cfg, Split(k)) && CollisionFree(w.fold, seen + {k}) && Fits(cfg, LoadOf(t).Plus(Share(w.fs, k)))
    ensures Visit(w, cfg, t, Split(k)).Ok? ==>
      var u := Visit(w, cfg, t, Split(k)).value;
      && LoadOf(u) == LoadOf(t).Plus(Share(w.fs, k)) && Registers(w.fold, u.registry, seen + {k})
      && u.files == (if FileAt(w.fs, k).Some? then t.files[k := FileAt(w.fs, k).value] else t.files)
      && NoneOf(rest, u.files)
  {
    hide Admitted, CollisionFree, Registers, Visit, Share, LoadOf, KeyIn, Fits, Split, TreeOk, FileAt, NoneOf;
    NoneOfRest(k, rest, t.files, FileAt(w.fs, k));
    VisitExactly(w, cfg, k, t, seen);
  }

  lemma NoneOfRest(k: Key, rest: seq<Key>, files: Files, f: Option<CapturedFile>)
    requires k !in rest && NoneOf([k] + rest, files)
    ensures k !in files && NoneOf(rest, files) && (f.Some? ==> NoneOf(rest, files[k := f.value]))
  {
    var order := [k] + rest;
    assert order[0] == k;
    forall i | 0 <= i < |rest|
      ensures rest[i] !in files && rest[i] != k
    {
      assert order[i + 1] == rest[i];
    }
  }

  lemma TookFirst(w: World, k: Key, rest: seq<Key>, t: Tally, u: Tally, v: Tally, seen: set<Key>)
    requires k !in rest && LoadOf(u) == LoadOf(t).Plus(Share(w.fs, k))
    requires u.files == if FileAt(w.fs, k).Some? then t.files[k := FileAt(w.fs, k).value] else t.files
    requires TookAll(w, rest, u, seen + {k}, v)
    ensures TookAll(w, [k] + rest, t, seen, v)
  {
    hide Registers, Share, LoadOf, Ahead, FilesOf, FileAt;
    FilesOfCons(w.fs, k, rest, t.files, u.files);
    AheadCons(w.fs, k, rest, LoadOf(t));
    assert seen + KeySet([k] + rest) == seen + {k} + KeySet(rest);
  }

  /** A run succeeds exactly when everything ahead of it fits, and then it has taken all of it. */
  lemma {:induction false} VisitAllExactly(w: World, cfg: Config, order: seq<Key>, t: Tally, seen: set<Key>)
    requires TreeOk(w.fs) && AllIn(w.fs, order) && Increasing(order) && NoneOf(order, t.files)
    requires Registers(w.fold, t.registry, seen) && Fits(cfg, LoadOf(t))
    ensures VisitAll(w, cfg, order, t).Ok? <==> RestFits(w, cfg, order, LoadOf(t), seen)
    ensures VisitAll(w, cfg, order, t).Ok? ==> TookAll(w, order, t, seen, VisitAll(w, cfg, order, t).value)
    decreases |order|
  {
    if order == [] {
      EmptyRun(w, cfg, t, seen);
      return;
    }
    hide *;
    var k, rest := order[0], order[1..];
    assert order == [k] + rest;
    VisitAllStep(w, cfg, order, t);
    DistinctTail(order);
    VisitFirst(w, cfg, k, rest, t, seen);
    RestFitsCons(w, cfg, k, rest, LoadOf(t), seen);
    if Visit(w, cfg, t, Split(k)).Ok? {
      var u := Visit(w, cfg, t, Split(k)).value;
      VisitAllExactly(w, cfg, rest, u, seen + {k});
      if VisitAll(w, cfg, rest, u).Ok? {
        TookFirst(w, k, rest, t, u, VisitAll(w, cfg, rest, u).value, seen);
      }
    }
  }

  lemma VisitAllStep(w: World, cfg: Config, order: seq<Key>, t: Tally)
    requires AllIn(w.fs, order) && order != []
    ensures KeyIn(w.fs, order[0]) && AllIn(w.fs, order[1..])
    ensures Split(order[0]) in w.fs && Split(order[0]) != []
    ensures var v := Visit(w, cfg, t, Split(order[0]));
      VisitAll(w, cfg, order, t) == if v.Err? then Err(v.error) else VisitAll(w, cfg, order[1..], v.value)
  {
    hide Visit;
    assert KeyIn(w.fs, order[0]);
  }

  lemma EmptyRun(w: World, cfg: Config, t: Tally, seen: set<Key>)
    requires Registers(w.fold, t.registry, seen) && Fits(cfg, LoadOf(t))
    ensures RestFits(w, cfg, [], LoadOf(t), seen) && VisitAll(w, cfg, [], t) == Ok(t)
    ensures t.files + FilesOf(w.fs, []) == t.files && seen + KeySet([]) == seen
    ensures LoadOf(t).Plus(Ahead(w.fs, [])) == LoadOf(t)
  {
    RegistersFree(w.fold, t.registry, seen);
    assert seen + KeySet([]) == seen;
  }

  // ----- The whole tree

  /** Every file of the tree under the key of its path. */
  function Flatten(fs: Tree): Files {
    map k | k in Keys(fs) && FileAt(fs, k).Some? :: FileAt(fs, k).value
  }

  function DirectoryKeys(fs: Tree): set<Key> {
    set k | k in Keys(fs) && DirAt(fs, k)
  }

  lemma {:induction false} EntriesAhead(fs: Tree, visited: set<Key>, rest: seq<Key>)
    requires TreeOk(fs) && AllIn(fs, rest) && Increasing(rest) && visited !! KeySet(rest)
    ensures |Enqueued(fs, visited)| + Ahead(fs, rest).entries == |Enqueued(fs, visited + KeySet(rest))|
    decreases |rest|
  {
    if rest == [] {
      assert visited + KeySet(rest) == visited;
    } else {
      var k, more := rest[0], rest[1..];
      assert KeyIn(fs, k);
      EnqueueMore(fs, visited, k);
      DistinctTail(rest);
      assert visited + KeySet(rest) == visited + {k} + KeySet(more);
      EntriesAhead(fs, visited + {k}, more);
    }
  }

  function FileKeysOf(fs: Tree, order: seq<Key>): set<Key> {
    set k | k in order && FileAt(fs, k).Some?
  }

  lemma FileKeysCons(fs: Tree, k: Key, more: seq<Key>)
    requires k !in more
    ensures |FileKeysOf(fs, [k] + more)| == (if FileAt(fs, k).Some? then 1 else 0) + |FileKeysOf(fs, more)|
  {
    hide FileAt;
    assert FileKeysOf(fs, [k] + more)
        == if FileAt(fs, k).Some? then FileKeysOf(fs, more) + {k} else FileKeysOf(fs, more);
  }

  lemma {:induction false} FileKeysAhead(fs: Tree, rest: seq<Key>)
    requires Increasing(rest)
    ensures Ahead(fs, rest).files == |FileKeysOf(fs, rest)|
    decreases |rest|
  {
    hide FileAt, DirAt, Children, Less;
    if rest == [] {
      assert FileKeysOf(fs, rest) == {};
    } else {
      var k, more := rest[0], rest[1..];
      assert rest == [k] + more;
      DistinctTail(rest);
      hide FileKeysOf, Increasing, Split;
      FileKeysAhead(fs, more);
      FileKeysCons(fs, k, more);
    }
  }

  lemma FilesAhead(fs: Tree, rest: seq<Key>)
    requires Increasing(rest)
    ensures Ahead(fs, rest).files == |FilesOf(fs, rest)|
  {
    hide FileAt;
    FileKeysAhead(fs, rest);
    assert FilesOf(fs, rest).Keys == FileKeysOf(fs, rest);
    assert |FilesOf(fs, rest)| == |FilesOf(fs, rest).Keys|;
  }

  function DirectoriesOf(fs: Tree, order: seq<Key>): set<Key> {
    set k | k in order && DirAt(fs, k)
  }

  lemma DirectoriesCons(fs: Tree, k: Key, more: seq<Key>)
    requires k !in more
    ensures |DirectoriesOf(fs, [k] + more)| == (if DirAt(fs, k) then 1 else 0) + |DirectoriesOf(fs, more)|
  {
    hide DirAt;
    assert DirectoriesOf(fs, [k] + more)
        == if DirAt(fs, k) then DirectoriesOf(fs, more) + {k} else DirectoriesOf(fs, more);
  }

  lemma {:induction false} DirectoriesAhead(fs: Tree, rest: seq<Key>)
    requires Increasing(rest)
    ensures Ahead(fs, rest).directories == |DirectoriesOf(fs, rest)|
    decreases |rest|
  {
    hide FileAt, DirAt, Children, Less;
    if rest == [] {
      assert DirectoriesOf(fs, rest) == {};
    } else {
      var k, more := rest[0], rest[1..];
      assert rest == [k] + more;
      DistinctTail(rest);
      hide DirectoriesOf, Increasing, Split;
      DirectoriesAhead(fs, more);
      DirectoriesCons(fs, k, more);
    }
  }

  /** The limits, stated over the tree: no order and no running total. */
  predicate TreeFits(w: World, cfg: Config) {
    && |Flatten(w.fs)| <= cfg.limits.maxFiles
    && Ahead(w.fs, Order(w.fs)).bytes <= cfg.limits.maxTotalBytes
    && (cfg.inventory.None? ==> |DirectoryKeys(w.fs)| <= MAX_CAPTURE_DIRECTORIES)
    && |w.fs| <= cfg.maxEntries
  }

  predicate Accepts(w: World, cfg: Config) {
    && w.list([]).None? && (forall p | p in w.fs :: Admitted(w, cfg, p))
    && CollisionFree(w.fold, Keys(w.fs)) && TreeFits(w, cfg)
  }

  lemma OrderKeys(fs: Tree)
    requires TreeOk(fs)
    ensures KeySet(Order(fs)) == Keys(fs) && AllIn(fs, Order(fs)) && Increasing(Order(fs))
    ensures FilesOf(fs, Order(fs)) == Flatten(fs) && DirectoriesOf(fs, Order(fs)) == DirectoryKeys(fs)
  {
    hide FileAt, DirAt, KeyIn, Less, Sorted;
    OrderHolds(fs);
    SortedSorts(Keys(fs));
  }

  /** Every path is counted once, under its directory. */
  lemma TotalAhead(fs: Tree)
    requires TreeOk(fs)
    ensures var total := Ahead(fs, Order(fs));
      && total.files == |Flatten(fs)| && total.directories == |DirectoryKeys(fs)|
      && |Children(fs, [])| + total.entries == |fs|
  {
    hide FileAt, DirAt, Ahead, KeyIn, Increasing;
    var order := Order(fs);
    OrderKeys(fs);
    FilesAhead(fs, order);
    DirectoriesAhead(fs, order);
    EntriesAhead(fs, {}, order);
    assert Enqueued(fs, {}) == Children(fs, []);
    assert {} + KeySet(order) == Keys(fs);
    assert Enqueued(fs, Keys(fs)) == fs.Keys;
  }

  /** A capture succeeds exactly on the accepted trees, and then it holds their files and nothing else. */
  lemma CaptureTreeExactly(w: World, cfg: Config)
    requires TreeOk(w.fs)
    ensures CaptureTree(w, cfg).Ok? <==> Accepts(w, cfg)
    ensures CaptureTree(w, cfg).Ok? ==>
      && CaptureTree(w, cfg).value.files == Flatten(w.fs)
      && CaptureTree(w, cfg).value.totalBytes == Ahead(w.fs, Order(w.fs)).bytes
  {
    hide Admitted, Visit, VisitAll, Ahead, Children, Order, Flatten, DirectoryKeys, Keys, AllIn, Increasing,
      AllAdmitted, CollisionFree, Registers, KeySet, FilesOf, DirectoriesOf, TreeOk;
    var order := Order(w.fs);
    OrderKeys(w.fs);
    TotalAhead(w.fs);
    AllAdmittedMeans(w, cfg);
    OrderHolds(w.fs);
    if Enqueue(w, cfg, NOTHING, []).Ok? {
      RunFromRoot(w, cfg, Enqueue(w, cfg, NOTHING, []).value);
    }
  }

  lemma NothingRegistered(fold: Fold)
    ensures Registers(fold, map[], {})
  {
  }

  lemma RunFromRoot(w: World, cfg: Config, root: Tally)
    requires TreeOk(w.fs) && AllIn(w.fs, Order(w.fs)) && Fits(cfg, LoadOf(root))
    requires root.files == map[] && root.registry == map[]
    ensures var r := VisitAll(w, cfg, Order(w.fs), root);
      && (r.Ok? <==> AllAdmitted(w, cfg, Order(w.fs)) && CollisionFree(w.fold, Keys(w.fs))
                     && Fits(cfg, LoadOf(root).Plus(Ahead(w.fs, Order(w.fs)))))
      && (r.Ok? ==> r.value.files == Flatten(w.fs)
                    && LoadOf(r.value) == LoadOf(root).Plus(Ahead(w.fs, Order(w.fs))))
  {
    hide Visit, VisitAll, Ahead, Order, AllAdmitted, Fits, KeyIn, Increasing, Registers, CollisionFree, TreeOk, Keys,
      KeySet, FilesOf, Flatten, AllIn, DirectoriesOf;
    OrderKeys(w.fs);
    var order := Order(w.fs);
    NothingRegistered(w.fold);
    VisitAllExactly(w, cfg, order, root, {});
    assert {} + KeySet(order) == Keys(w.fs);
    assert map[] + FilesOf(w.fs, order) == FilesOf(w.fs, order);
  }

  lemma AllAdmittedMeans(w: World, cfg: Config)
    requires TreeOk(w.fs)
    ensures AllAdmitted(w, cfg, Order(w.fs)) <==> forall p | p in w.fs :: Admitted(w, cfg, p)
  {
    hide Admitted, Order;
    OrderHolds(w.fs);
    var order := Order(w.fs);
    if AllAdmitted(w, cfg, order) {
      forall p | p in w.fs
        ensures Admitted(w, cfg, p)
      {
        var i :| 0 <= i < |order| && order[i] == Join(p);
        assert Admitted(w, cfg, Split(order[i]));
      }
    }
    if forall p | p in w.fs :: Admitted(w, cfg, p) {
      forall i | 0 <= i < |order|
        ensures Admitted(w, cfg, Split(order[i]))
      {
        assert KeyIn(w.fs, order[i]);
      }
    }
  }
}
