/** The worklist capture itself (crates/kitrove-agent-skills/src/tree.rs:593-839, 900-1005), over an
    arbitrary order of each directory's listing. */
module CaptureLoop {
  import opened Outcome
  import opened Bytes
  import opened Paths
  import opened Lexicographic
  import opened Trees
  import opened Collisions
  import opened FileTree
  import opened Portable
  import opened Capture
  import opened DirectoryEntries

  /** How directories list their entries: each name once, in any order. */
  type Listing = Path -> seq<Name>

  predicate Lists(fs: Tree, listing: Listing, d: Path) {
    Distinct(listing(d)) && Elements(listing(d)) == set p | p in Children(fs, d) && p != [] :: Last(p)
  }

  datatype PendingEntry = PendingEntry(parent: Path, parentKey: Key, fileName: Name, depth: nat)

  type Pending = map<Key, PendingEntry>

  function EntryOf(p: Path): PendingEntry
    requires p != []
  {
    PendingEntry(Parent(p), Join(Parent(p)), Last(p), |p| - 1)
  }

  function PendingKeys(fs: Tree, visited: set<Key>): set<Key> {
    set p | p in Enqueued(fs, visited) && Join(p) !in visited :: Join(p)
  }

  function ChildKeys(fs: Tree, d: Path): set<Key> {
    set p | p in Children(fs, d) :: Join(p)
  }

  /** The entries for these keys, as the traversal stores them. */
  function EntriesFor(keys: set<Key>): Pending {
    map k | k in keys :: EntryOf(Split(k))
  }

  /** The next key popped is the next key of the whole tree's order. */
  lemma NextKey(fs: Tree, i: nat)
    requires TreeOk(fs) && i <= |Order(fs)|
    ensures var pending := PendingKeys(fs, KeySet(Order(fs)[..i]));
      if i == |Order(fs)| then pending == {} else IsLeast(Order(fs)[i], pending)
  {
    OrderHolds(fs);
    var order, visited := Order(fs), KeySet(Order(fs)[..i]);
    assert forall j | 0 <= j < i :: order[j] == order[..i][j] && order[j] in visited;
    forall k | k in PendingKeys(fs, visited)
      ensures i < |order| && Leq(order[i], k)
    {
      var p :| p in Enqueued(fs, visited) && Join(p) !in visited && Join(p) == k;
      var j :| 0 <= j < |order| && order[j] == k;
    }
    if i < |order| {
      var p := Split(order[i]);
      assert KeyIn(fs, order[i]);
      forall j | 0 <= j < i
        ensures order[j] != order[i]
      {
        Irreflexive(order[i]);
      }
      if |p| > 1 {
        ParentFirst(p);
        var j :| 0 <= j < |order| && order[j] == Join(Parent(p));
        Irreflexive(order[i]);
        if j > i {
          Transitive(order[i], order[j], order[i]);
        }
      }
      assert p in Enqueued(fs, visited);
    }
  }

  lemma PendingAfter(fs: Tree, visited: set<Key>, k: Key)
    requires TreeOk(fs) && KeyIn(fs, k) && k !in visited
    requires forall v | v in visited :: Less(v, k)
    ensures PendingKeys(fs, visited + {k}) == PendingKeys(fs, visited) - {k} + ChildKeys(fs, Split(k))
    ensures PendingKeys(fs, visited) !! ChildKeys(fs, Split(k))
  {
    var d := Split(k);
    EnqueueMore(fs, visited, k);
    forall p | p in Children(fs, d)
      ensures Less(k, Join(p)) && Join(p) !in visited && Join(p) != k
    {
      ParentFirst(p);
      if Join(p) in visited {
        Transitive(k, Join(p), k);
      }
      Irreflexive(k);
    }
    forall key | key in ChildKeys(fs, d)
      ensures key !in PendingKeys(fs, visited)
    {
      var p :| p in Children(fs, d) && Join(p) == key;
      if key in PendingKeys(fs, visited) {
        var q :| q in Enqueued(fs, visited) && Join(q) == key;
        JoinInjective(p, q);
      }
    }
  }

  class CaptureState {
    const config: Config
    var files: Files
    var collisionPaths: map<Key, Key>
    var totalBytes: nat
    var visitedDirectories: nat
    var visitedEntries: nat

    constructor (cfg: Config)
      ensures config == cfg && Tally() == NOTHING
    {
      config := cfg;
      files, collisionPaths := map[], map[];
      totalBytes, visitedDirectories, visitedEntries := 0, 0, 0;
    }

    function Tally(): Capture.Tally
      reads this
    {
      Capture.Tally(files, collisionPaths, totalBytes, visitedDirectories, visitedEntries)
    }

    method RegisterPortablePath(w: World, portable: Key, p: Path) returns (r: Attempt<()>)
      modifies this`collisionPaths
      ensures var registry := Register(w.fold, old(collisionPaths), portable);
        if registry.None? then r == Err(CaptureError(PathCollision, p)) && collisionPaths == old(collisionPaths)
        else r == Ok(()) && collisionPaths == registry.value
    {
      var key := w.fold(portable);
      if key in collisionPaths {
        if collisionPaths[key] != portable {
          return Err(CaptureError(PathCollision, p));
        }
      } else {
        collisionPaths := collisionPaths[key := portable];
      }
      return Ok(());
    }

    method CaptureOneFile(w: World, portable: Key, p: Path, f: CapturedFile) returns (r: Attempt<()>)
      requires portable == Join(p)
      modifies this`files, this`totalBytes
      ensures r.Verdict() == CaptureFile(w, config, old(Tally()), p, f).Verdict()
      ensures if r.Ok? then Tally() == CaptureFile(w, config, old(Tally()), p, f).value else Tally() == old(Tally())
    {
      if |files| >= config.limits.maxFiles {
        return Err(CaptureError(FileCountLimit, p));
      }
      if w.open(p).Some? {
        return Err(CaptureError(w.open(p).value, p));
      }
      if |f.bytes| > config.limits.maxFileBytes {
        return Err(CaptureError(FileSizeLimit, p));
      }
      var remainingTotal := Max(config.limits.maxTotalBytes - totalBytes, 0);
      if |f.bytes| > remainingTotal {
        return Err(CaptureError(TotalSizeLimit, p));
      }
      if w.settle(p).Some? {
        return Err(CaptureError(w.settle(p).value, p));
      }
      totalBytes := totalBytes + |f.bytes|;
      files := files[portable := f];
      return Ok(());
    }
  }

  lemma ChildNames(fs: Tree, listing: Listing, d: Path)
    requires TreeOk(fs) && Lists(fs, listing, d)
    ensures |listing(d)| == |Children(fs, d)|
    ensures forall n | n in Elements(listing(d)) :: d + [n] in Children(fs, d)
    ensures ChildKeys(fs, d) == set n | n in Elements(listing(d)) :: Join(d + [n])
  {
    DistinctSize(listing(d));
    var names := Elements(listing(d));
    forall p | p in Children(fs, d)
      ensures p == d + [Last(p)] && Last(p) in names
    {
    }
    forall n | n in names
      ensures d + [n] in Children(fs, d)
    {
      var p :| p in Children(fs, d) && p != [] && Last(p) == n;
    }
    NamesCount(fs, d, Children(fs, d));
    assert names == LastNames(Children(fs, d));
  }

  function LastNames(paths: set<Path>): set<Name> {
    set p | p in paths && p != [] :: Last(p)
  }

  lemma {:induction false} NamesCount(fs: Tree, d: Path, paths: set<Path>)
    requires paths <= Children(fs, d)
    ensures |LastNames(paths)| == |paths|
    decreases |paths|
  {
    if paths != {} {
      var p :| p in paths;
      NamesCount(fs, d, paths - {p});
      assert LastNames(paths) == LastNames(paths - {p}) + {Last(p)};
      forall q | q in paths - {p}
        ensures Last(q) != Last(p)
      {
        assert q == d + [Last(q)] && p == d + [Last(p)];
      }
    }
  }

  lemma ChildEntry(fs: Tree, d: Path, n: Name)
    requires TreeOk(fs) && d + [n] in Children(fs, d)
    ensures Join(d + [n]) == if d == [] then n else Join(d) + [SLASH] + n
    ensures EntryOf(Split(Join(d + [n]))) == PendingEntry(d, Join(d), n, |d|)
    ensures Join(d) == [] <==> d == []
  {
    var p := d + [n];
    JoinSnoc(d, n);
    SplitJoin(p);
    if d != [] {
      assert forall i | 0 <= i < |d| :: d[i] == p[i];
      JoinNonempty(d);
    }
  }

  /** The keys of these names in a directory. */
  function KeysUnder(d: Path, entries: seq<Name>): set<Key> {
    set n | n in entries :: Join(d + [n])
  }

  lemma NoEntries()
    ensures EntriesFor({}) == map[]
  {
  }

  lemma EntriesForMore(pending: Pending, keys: set<Key>, k: Key)
    ensures pending + EntriesFor(keys + {k}) == (pending + EntriesFor(keys))[k := EntryOf(Split(k))]
  {
    hide EntryOf, Split;
  }

  /** Puts listed names among the pending entries. */
  method InsertEntries(fs: Tree, entries: seq<Name>, directory: Path, directoryKey: Key, depth: nat, pending: Pending)
    returns (pending': Pending)
    requires TreeOk(fs) && forall n | n in entries :: directory + [n] in Children(fs, directory)
    requires directoryKey == Join(directory) && depth == |directory|
    ensures pending' == pending + EntriesFor(KeysUnder(directory, entries))
  {
    hide Children, TreeOk, Join, Split, EntryOf, EntriesFor;
    pending' := pending;
    assert EntriesFor(KeysUnder(directory, entries[..0])) == map[] by {
      assert KeysUnder(directory, entries[..0]) == {};
      NoEntries();
    }
    for i := 0 to |entries|
      invariant pending' == pending + EntriesFor(KeysUnder(directory, entries[..i]))
    {
      assert entries[i] in entries;
      ChildEntry(fs, directory, entries[i]);
      var key := directoryKey;
      if key != [] {
        key := key + [SLASH];
      }
      key := key + entries[i];
      assert entries[..i + 1] == entries[..i] + [entries[i]];
      assert key == Join(directory + [entries[i]]);
      assert KeysUnder(directory, entries[..i + 1]) == KeysUnder(directory, entries[..i]) + {key};
      EntriesForMore(pending, KeysUnder(directory, entries[..i]), key);
      pending' := pending'[key := PendingEntry(directory, directoryKey, entries[i], depth)];
    }
    assert entries[..|entries|] == entries;
  }

  /** Lists one directory and puts its entries among the pending ones; no pending key is overwritten. */
  method EnqueueDirectoryEntries(w: World, listing: Listing, directory: Path, directoryKey: Key, depth: nat,
                                 state: CaptureState, pending: Pending) returns (r: Attempt<Pending>)
    requires TreeOk(w.fs) && Lists(w.fs, listing, directory)
    requires directoryKey == Join(directory) && depth == |directory|
    requires pending.Keys !! ChildKeys(w.fs, directory)
    modifies state`visitedEntries
    ensures r.Verdict() == Enqueue(w, state.config, old(state.Tally()), directory).Verdict()
    ensures r.Ok? ==>
      && state.Tally() == Enqueue(w, state.config, old(state.Tally()), directory).value
      && r.value == pending + EntriesFor(ChildKeys(w.fs, directory))
  {
    hide Children, Less, Split, TreeOk, Sorted, Join, ChildKeys, EntryOf, Lists, EntriesFor, KeysUnder;
    if w.list(directory).Some? {
      return Err(CaptureError(w.list(directory).value, directory));
    }
    ChildNames(w.fs, listing, directory);
    var remainingEntryAllowance := Max(state.config.maxEntries - state.visitedEntries, 0);
    assert Distinct(listing(directory)) by {
      ListingDistinct(w.fs, listing, directory);
    }
    var bounded := CollectNames(listing(directory), remainingEntryAllowance);
    if bounded.None? {
      return Err(CaptureError(TraversalLimit, directory));
    }
    var entries := bounded.value;
    SortedSorts(Elements(listing(directory)));
    DistinctSize(listing(directory));
    state.visitedEntries := state.visitedEntries + |entries|;
    var pending' := InsertEntries(w.fs, entries, directory, directoryKey, depth, pending);
    AllAdded(w.fs, listing, directory, entries);
    return Ok(pending');
  }

  lemma ListingDistinct(fs: Tree, listing: Listing, d: Path)
    requires Lists(fs, listing, d)
    ensures Distinct(listing(d))
  {
  }

  lemma AllAdded(fs: Tree, listing: Listing, d: Path, entries: seq<Name>)
    requires TreeOk(fs) && Lists(fs, listing, d)
    requires forall n :: n in entries <==> n in Elements(listing(d))
    ensures KeysUnder(d, entries) == ChildKeys(fs, d)
  {
    ChildNames(fs, listing, d);
  }

  /** The prefix of the order that has been visited. */
  function Done(fs: Tree, i: nat): set<Key>
    requires i <= |Order(fs)|
  {
    KeySet(Order(fs)[..i])
  }

  lemma DoneMore(fs: Tree, i: nat)
    requires TreeOk(fs) && i < |Order(fs)|
    ensures Done(fs, i + 1) == Done(fs, i) + {Order(fs)[i]}
    ensures Order(fs)[i] !in Done(fs, i) && forall v | v in Done(fs, i) :: Less(v, Order(fs)[i])
    ensures KeyIn(fs, Order(fs)[i]) && Split(Order(fs)[i]) in fs && Split(Order(fs)[i]) != []
  {
    hide Order, Less, Split;
    OrderHolds(fs);
    var order := Order(fs);
    assert order[..i + 1] == order[..i] + [order[i]];
    forall v | v in Done(fs, i)
      ensures Less(v, order[i])
    {
      var j :| 0 <= j < i && order[..i][j] == v;
    }
    Irreflexive(order[i]);
  }

  /** The pending entries after `i` visits. */
  function PendingAt(fs: Tree, i: nat): Pending
    requires i <= |Order(fs)|
  {
    EntriesFor(PendingKeys(fs, Done(fs, i)))
  }

  /** Taking a key out and putting others in, key sets and entries alike. */
  lemma EntriesMore(keys: set<Key>, k: Key, more: set<Key>)
    requires k in keys && keys !! more
    ensures EntriesFor(keys - {k} + more) == EntriesFor(keys) - {k} + EntriesFor(more)
    ensures EntriesFor(keys).Keys == keys && EntriesFor(keys)[k] == EntryOf(Split(k))
  {
    hide EntryOf, Split;
  }

  lemma PendingNext(fs: Tree, i: nat)
    requires TreeOk(fs) && i < |Order(fs)|
    ensures var k := Order(fs)[i];
      && k in PendingAt(fs, i) && Split(k) != [] && PendingAt(fs, i)[k] == EntryOf(Split(k))
      && Least(PendingAt(fs, i).Keys) == k
      && PendingAt(fs, i + 1) == PendingAt(fs, i) - {k} + EntriesFor(ChildKeys(fs, Split(k)))
      && (PendingAt(fs, i) - {k}).Keys !! ChildKeys(fs, Split(k))
  {
    var k := Order(fs)[i];
    hide Order, Less, Split, Enqueued, PendingKeys, ChildKeys, Done, EntryOf, KeyIn, TreeOk, EntriesFor, IsLeast;
    DoneIs(fs, i);
    NextKey(fs, i);
    DoneMore(fs, i);
    PendingAfter(fs, Done(fs, i), k);
    LeastIn(PendingKeys(fs, Done(fs, i)), k);
    EntriesMore(PendingKeys(fs, Done(fs, i)), k, ChildKeys(fs, Split(k)));
  }

  lemma DoneIs(fs: Tree, i: nat)
    requires i <= |Order(fs)|
    ensures Done(fs, i) == KeySet(Order(fs)[..i])
  {
  }

  lemma LeastIn(keys: set<Key>, k: Key)
    requires IsLeast(k, keys)
    ensures k in keys && Least(keys) == k
  {
    LeastUnique(keys);
  }

  lemma PendingEmpty(fs: Tree, i: nat)
    requires TreeOk(fs) && i <= |Order(fs)|
    ensures PendingAt(fs, i) == map[] <==> i == |Order(fs)|
  {
    NextKey(fs, i);
    if i < |Order(fs)| {
      PendingNext(fs, i);
    }
  }

  lemma PendingStart(fs: Tree)
    requires TreeOk(fs)
    ensures map[] + EntriesFor(ChildKeys(fs, [])) == PendingAt(fs, 0)
  {
    assert Done(fs, 0) == {};
    assert Enqueued(fs, {}) == Children(fs, []);
  }

  /** What remains of the run after `i` visits. */
  function RunFrom(w: World, cfg: Config, i: nat, t: Capture.Tally): Attempt<Capture.Tally>
    requires TreeOk(w.fs) && i <= |Order(w.fs)|
  {
    OrderHolds(w.fs);
    VisitAll(w, cfg, Order(w.fs)[i..], t)
  }

  lemma RunStep(w: World, cfg: Config, i: nat, t: Capture.Tally)
    requires TreeOk(w.fs) && i < |Order(w.fs)|
    ensures Split(Order(w.fs)[i]) in w.fs && Split(Order(w.fs)[i]) != []
    ensures var v := Visit(w, cfg, t, Split(Order(w.fs)[i]));
      RunFrom(w, cfg, i, t) == if v.Err? then Err(v.error) else RunFrom(w, cfg, i + 1, v.value)
  {
    hide Visit, VisitAll, Order;
    OrderHolds(w.fs);
    var order := Order(w.fs);
    assert order[i..][0] == order[i] && order[i..][1..] == order[i + 1..];
    VisitAllStep(w, cfg, order[i..], t);
  }

  /** The traversal computes `CaptureTree`, whatever order the directories list their entries in. */
  method CaptureDirectories(w: World, listing: Listing, state: CaptureState) returns (r: Attempt<()>)
    requires TreeOk(w.fs) && forall d :: Lists(w.fs, listing, d)
    requires state.Tally() == NOTHING
    modifies state
    ensures r.Verdict() == CaptureTree(w, state.config).Verdict()
    ensures r.Ok? ==> state.Tally() == CaptureTree(w, state.config).value
  {
    hide Order, Less, Split, Enqueued, PendingAt, ChildKeys, EntriesFor, TreeOk, Lists, RunFrom, VisitAll, Admitted;
    var root := EnqueueDirectoryEntries(w, listing, [], [], 0, state, map[]);
    if root.Err? {
      return Err(root.error);
    }
    var pending := root.value;
    PendingStart(w.fs);
    RunStart(w, state.config, state.Tally());
    ghost var i := 0;
    while pending != map[]
      invariant i <= |Order(w.fs)| && pending == PendingAt(w.fs, i)
      invariant CaptureTree(w, state.config) == RunFrom(w, state.config, i, state.Tally())
      decreases |Order(w.fs)| - i
    {
      PendingEmpty(w.fs, i);
      PendingNext(w.fs, i);
      RunStep(w, state.config, i, state.Tally());
      var key := Least(pending.Keys);
      var entry := pending[key];
      pending := pending - {key};
      ghost var before := state.Tally();
      var visit := VisitEntry(w, listing, state, entry, pending, Split(key));
      if visit.Err? {
        return Err(visit.error);
      }
      pending := visit.value;
      i := i + 1;
    }
    PendingEmpty(w.fs, i);
    RunEnd(w, state.config, state.Tally());
    return Ok(());
  }

  lemma RunStart(w: World, cfg: Config, t: Capture.Tally)
    requires TreeOk(w.fs) && Enqueue(w, cfg, NOTHING, []) == Ok(t)
    ensures CaptureTree(w, cfg) == RunFrom(w, cfg, 0, t)
  {
    OrderHolds(w.fs);
    assert Order(w.fs)[0..] == Order(w.fs);
  }

  lemma RunEnd(w: World, cfg: Config, t: Capture.Tally)
    requires TreeOk(w.fs)
    ensures RunFrom(w, cfg, |Order(w.fs)|, t) == Ok(t)
  {
  }

  /** The body of the loop: one popped entry. */
  method VisitEntry(w: World, listing: Listing, state: CaptureState, entry: PendingEntry, pending: Pending,
                    ghost p: Path)
    returns (r: Attempt<Pending>)
    requires TreeOk(w.fs) && Lists(w.fs, listing, p)
    requires p in w.fs && p != [] && entry == EntryOf(p) && pending.Keys !! ChildKeys(w.fs, p)
    modifies state
    ensures r.Verdict() == Visit(w, state.config, old(state.Tally()), p).Verdict()
    ensures r.Ok? ==>
      && state.Tally() == Visit(w, state.config, old(state.Tally()), p).value
      && r.value == pending + EntriesFor(ChildKeys(w.fs, p))
  {
    hide Less, Split, Enqueued, ChildKeys, PortableName, Lists, Register, Children, VisitDirectory, CaptureFile;
    var name := entry.fileName;
    var relative := entry.parent + [name];
    assert relative == p;
    if !w.utf8(name) {
      return Err(CaptureError(NonUtf8, relative));
    }
    if !PortableName(name) {
      return Err(CaptureError(InvalidPortable, relative));
    }
    var portable := if entry.parent == [] then name else Join(entry.parent) + [SLASH] + name;
    JoinSnoc(entry.parent, name);
    var registered := state.RegisterPortablePath(w, portable, relative);
    if registered.Err? {
      return Err(registered.error);
    }
    if w.inspect(relative).Some? {
      return Err(CaptureError(w.inspect(relative).value, relative));
    }
    var node := w.fs[relative];
    if node == LinkNode {
      return Err(CaptureError(Symlink, relative));
    }
    if node == ReparseNode {
      return Err(CaptureError(ReparsePoint, relative));
    }
    if node == DirNode {
      r := VisitDirectoryEntry(w, listing, state, entry, pending, relative, portable);
      return;
    }
    if node.FileNode? {
      if state.config.inventory.Some? && portable !in state.config.inventory.value.files {
        return Err(CaptureError(InventoryMismatch, relative));
      }
      var captured := state.CaptureOneFile(w, portable, relative, node.file);
      if captured.Err? {
        return Err(captured.error);
      }
      NoChildren(w.fs, p);
      assert pending + EntriesFor({}) == pending;
      return Ok(pending);
    }
    return Err(CaptureError(SpecialFile, relative));
  }

  method VisitDirectoryEntry(w: World, listing: Listing, state: CaptureState, entry: PendingEntry, pending: Pending,
                             relative: Path, portable: Key) returns (r: Attempt<Pending>)
    requires TreeOk(w.fs) && Lists(w.fs, listing, relative) && relative in w.fs && relative != []
    requires entry == EntryOf(relative) && portable == Join(relative) && pending.Keys !! ChildKeys(w.fs, relative)
    modifies state
    ensures r.Verdict() == VisitDirectory(w, state.config, old(state.Tally()), relative).Verdict()
    ensures r.Ok? ==>
      && state.Tally() == VisitDirectory(w, state.config, old(state.Tally()), relative).value
      && r.value == pending + EntriesFor(ChildKeys(w.fs, relative))
  {
    hide Less, Split, Enqueued, ChildKeys, Lists, Children, Enqueue, EntriesFor, TreeOk;
    var depth := entry.depth + 1;
    if state.config.inventory.Some? && portable !in state.config.inventory.value.directories {
      return Err(CaptureError(InventoryMismatch, relative));
    }
    if state.config.inventory.None? && depth > MAX_CAPTURE_DEPTH {
      return Err(CaptureError(DepthLimit, relative));
    }
    state.visitedDirectories := state.visitedDirectories + 1;
    if state.config.inventory.None? && state.visitedDirectories > MAX_CAPTURE_DIRECTORIES {
      return Err(CaptureError(TraversalLimit, relative));
    }
    if w.open(relative).Some? {
      return Err(CaptureError(w.open(relative).value, relative));
    }
    ParentKeyEmpty(w.fs, relative);
    KeyOfChild(relative);
    var directoryKey := entry.parentKey;
    if directoryKey != [] {
      directoryKey := directoryKey + [SLASH];
    }
    directoryKey := directoryKey + entry.fileName;
    r := EnqueueDirectoryEntries(w, listing, relative, directoryKey, depth, state, pending);
  }

  lemma ParentKeyEmpty(fs: Tree, p: Path)
    requires TreeOk(fs) && p in fs
    ensures p != [] && (Join(Parent(p)) == [] <==> Parent(p) == [])
  {
    if |p| > 1 {
      JoinNonempty(Parent(p));
    }
  }

  lemma NoChildren(fs: Tree, p: Path)
    requires TreeOk(fs) && p in fs && fs[p] != DirNode
    ensures ChildKeys(fs, p) == {}
  {
    SplitJoin(p);
    EnqueueMore(fs, {}, Join(p));
  }
}
