/** The metadata-only directory walk (crates/kitrove-agent-skills/src/tree.rs:391-529). */
module Walk {
  import opened Paths
  import opened Lexicographic
  import opened Collisions
  import opened FileTree
  import opened DirectoryEntries
  import CaptureLoop
  import opened WalkMeter

  datatype Control = Continue | Skip | Stop

  /** What happens between seeing a directory entry and holding it open. */
  datatype Opening = Opened | OpenFails | MetadataFails | Replaced

  /** The tree and every outside answer: names that are UTF-8, listings and inspections that fail, how
      opening ends, and what the visitor answers for a directory. */
  datatype World = World(
    fs: Tree,
    utf8: Name -> bool,
    listFails: Path -> bool,
    inspectFails: Path -> bool,
    opening: Path -> Opening,
    visitor: Path -> Control,
    maxDepth: nat)

  datatype Report = Report(budgetExhausted: bool, depthExhausted: bool, unsafePath: bool, unreadable: bool)

  datatype Class = Unsafe | Unreadable | Plain | TooDeep | Reportable

  /** What the walk makes of one entry, before asking the visitor. */
  function Classify(w: World, p: Path): Class
    requires p in w.fs && p != []
  {
    if !w.utf8(Last(p)) then Unsafe
    else if w.inspectFails(p) then Unreadable
    else
      match w.fs[p]
      case LinkNode => Unsafe
      case ReparseNode => Unsafe
      case FileNode(_) => Plain
      case SpecialNode => Unsafe
      case DirNode =>
        if |p| > w.maxDepth then TooDeep
        else
          match w.opening(p)
          case OpenFails => Unsafe
          case MetadataFails => Unreadable
          case Replaced => Unsafe
          case Opened => Reportable
  }

  /** Its name is UTF-8, and it can be inspected. */
  predicate Inspected(w: World, p: Path)
    requires p != []
  {
    w.utf8(Last(p)) && !w.inspectFails(p)
  }

  /** A directory within the depth. */
  predicate Within(w: World, p: Path)
    requires p in w.fs
  {
    w.fs[p] == DirNode && |p| <= w.maxDepth
  }

  /** What an entry shows a walk, whatever order it looks in. */
  predicate Shows(w: World, p: Path, c: Class)
    requires p in w.fs && p != []
  {
    match c
    case Unsafe =>
      || !w.utf8(Last(p))
      || (Inspected(w, p)
          && (w.fs[p] in {LinkNode, ReparseNode, SpecialNode}
              || (Within(w, p) && w.opening(p) in {OpenFails, Replaced})))
    case Unreadable => w.utf8(Last(p)) && (w.inspectFails(p) || (Within(w, p) && w.opening(p) == MetadataFails))
    case TooDeep => Inspected(w, p) && w.fs[p] == DirNode && |p| > w.maxDepth
    case Plain => Inspected(w, p) && w.fs[p].FileNode?
    case Reportable => Inspected(w, p) && Within(w, p) && w.opening(p) == Opened
  }

  lemma ClassifyExactly(w: World, p: Path)
    requires p in w.fs && p != []
    ensures forall c :: Shows(w, p, c) <==> Classify(w, p) == c
  {
  }

  /** A directory the visitor may be shown: it is opened within the depth, and every directory above it
      was listed and answered with `Continue`. */
  predicate Reported(w: World, p: Path)
    decreases |p|, 0
  {
    p in w.fs && p != [] && Shows(w, p, Reportable) && Queued(w, Parent(p)) && !w.listFails(Parent(p))
  }

  predicate Queued(w: World, p: Path)
    decreases |p|, 1
  {
    p == [] || (Reported(w, p) && w.visitor(p) == Continue)
  }

  /** The depth bound and the chain of answers above a reported directory. */
  lemma {:induction false} ReportedChain(w: World, p: Path, m: nat)
    requires Reported(w, p) && 0 < m < |p|
    ensures 1 <= |p| <= w.maxDepth && Reported(w, p[..m]) && w.visitor(p[..m]) == Continue
    decreases |p| - m
  {
    if m + 1 < |p| {
      ReportedChain(w, p, m + 1);
      assert Parent(p[..m + 1]) == p[..m];
    } else {
      assert Parent(p) == p[..m];
    }
  }

  // ----- One directory

  function Note(r: Report, c: Class): Report {
    match c
    case Unsafe => r.(unsafePath := true)
    case Unreadable => r.(unreadable := true)
    case TooDeep => r.(depthExhausted := true)
    case Plain => r
    case Reportable => r
  }

  /** What going through one directory's names leaves: how many were charged, which directories were
      shown, what was noted, and whether the visitor stopped the walk. */
  datatype Pass = Pass(charged: nat, shown: seq<Path>, report: Report, stopped: bool)

  function Go(w: World, d: Path, names: seq<Name>, r: Report): Pass
    requires forall n | n in names :: d + [n] in w.fs
  {
    if names == [] then Pass(0, [], r, false)
    else
      var p := d + [names[0]];
      if Classify(w, p) != Reportable then
        var rest := Go(w, d, names[1..], Note(r, Classify(w, p)));
        rest.(charged := rest.charged + 1)
      else if w.visitor(p) == Stop then Pass(1, [p], r, true)
      else
        var rest := Go(w, d, names[1..], r);
        rest.(charged := rest.charged + 1, shown := [p] + rest.shown)
  }

  predicate Stops(w: World, d: Path, n: Name) {
    d + [n] in w.fs && Shows(w, d + [n], Reportable) && w.visitor(d + [n]) == Stop
  }

  /** A directory is charged whole exactly when none of its names but the last stops the walk. */
  lemma {:induction false} ChargedWhole(w: World, d: Path, names: seq<Name>, r: Report)
    requires forall n | n in names :: d + [n] in w.fs
    ensures Go(w, d, names, r).charged <= |names|
    ensures Go(w, d, names, r).charged == |names| <==> forall i | 0 <= i < |names| - 1 :: !Stops(w, d, names[i])
    ensures Go(w, d, names, r).stopped <==> exists i | 0 <= i < |names| :: Stops(w, d, names[i])
  {
    hide Classify, Shows;
    if names != [] {
      var n, rest := names[0], names[1..];
      assert names == [n] + rest;
      assert d + [n] in w.fs;
      ClassifyExactly(w, d + [n]);
      ChargedWhole(w, d, rest, r);
      ChargedWhole(w, d, rest, Note(r, Classify(w, d + [n])));
      assert forall i | 0 <= i < |rest| :: names[i + 1] == rest[i];
    }
  }

  // ----- The walk

  type Pending = map<Key, Path>

  /** The names of a directory in byte order. */
  function Names(fs: Tree, d: Path): seq<Name> {
    Sorted(set p | p in Children(fs, d) && p != [] :: Last(p))
  }

  lemma NamesHold(fs: Tree, d: Path)
    ensures forall n :: n in Names(fs, d) <==> d + [n] in fs
    ensures |Names(fs, d)| == |Children(fs, d)| && Increasing(Names(fs, d))
  {
    hide Less, Sorted;
    var last := set p | p in Children(fs, d) && p != [] :: Last(p);
    SortedSorts(last);
    forall n
      ensures n in last <==> d + [n] in fs
    {
      if d + [n] in fs {
        assert Last(d + [n]) == n && Parent(d + [n]) == d;
      }
      if n in last {
        var p :| p in Children(fs, d) && p != [] && Last(p) == n;
        assert p == d + [n];
      }
    }
    CaptureLoop.NamesCount(fs, d, Children(fs, d));
    assert last == CaptureLoop.LastNames(Children(fs, d));
  }

  /** The directories shown in a pass that the visitor answered with `Continue`. */
  function Continued(w: World, shown: seq<Path>): Pending {
    map k | k in (set p | p in shown && w.visitor(p) == Continue :: Join(p)) :: Split(k)
  }

  /** Goes through the names of one listed directory. */
  method ProcessEntries(w: World, d: Path, names: seq<Name>, meter: LocalRootHookMeter, report: Report,
                        pending: Pending)
    returns (report': Report, pending': Pending, shown: seq<Path>, stopped: bool)
    requires TreeOk(w.fs) && (forall n | n in names :: d + [n] in w.fs) && |names| <= meter.Remaining()
    modifies meter
    ensures var pass := Go(w, d, names, report);
      && report' == pass.report && shown == pass.shown && stopped == pass.stopped
      && meter.discoveryEntries == old(meter.discoveryEntries) + pass.charged
      && (!stopped ==> pending' == pending + Continued(w, shown))
  {
    hide Classify, TreeOk, Join, Split, Continued, Go, Note;
    report', pending', shown, stopped := report, pending, [], false;
    NothingContinued(w, pending);
    assert names[0..] == names;
    for i := 0 to |names|
      invariant meter.discoveryEntries == old(meter.discoveryEntries) + i && meter.Remaining() >= |names| - i
      invariant pending' == pending + Continued(w, shown) && !stopped
      invariant forall n | n in names[i..] :: d + [n] in w.fs
      invariant var rest := Go(w, d, names[i..], report');
        Go(w, d, names, report) == rest.(charged := rest.charged + i, shown := shown + rest.shown)
    {
      GoStep(w, d, names, i, report');
      var granted := meter.TryDiscoveryEntry();
      if !granted {
        report' := report'.(budgetExhausted := true);
        return;
      }
      var relative := d + [names[i]];
      var kind := Classify(w, relative);
      if kind != Reportable {
        report' := Note(report', kind);
        continue;
      }
      var control := w.visitor(relative);
      ghost var before := shown;
      shown := shown + [relative];
      if control == Stop {
        stopped := true;
        return;
      }
      if control == Continue {
        PathKey(w.fs, relative);
        pending' := pending'[Join(relative) := relative];
      }
      ContinuedMore(w, pending, before, relative);
    }
    GoEnd(w, d, names, report');
  }

  lemma GoStep(w: World, d: Path, names: seq<Name>, i: nat, r: Report)
    requires i < |names| && forall n | n in names :: d + [n] in w.fs
    ensures d + [names[i]] in w.fs
    ensures forall n | n in names[i..] + names[i + 1..] :: d + [n] in w.fs
    ensures var p := d + [names[i]];
      Go(w, d, names[i..], r)
      == if Classify(w, p) != Reportable then
           var rest := Go(w, d, names[i + 1..], Note(r, Classify(w, p)));
           rest.(charged := rest.charged + 1)
         else if w.visitor(p) == Stop then Pass(1, [p], r, true)
         else
           var rest := Go(w, d, names[i + 1..], r);
           rest.(charged := rest.charged + 1, shown := [p] + rest.shown)
  {
    hide Classify, Note;
    assert names[i] in names;
    assert names[i..][0] == names[i] && names[i..][1..] == names[i + 1..];
  }

  lemma GoEnd(w: World, d: Path, names: seq<Name>, r: Report)
    ensures names[|names|..] == [] && Go(w, d, [], r) == Pass(0, [], r, false)
  {
  }

  lemma NothingContinued(w: World, pending: Pending)
    ensures pending + Continued(w, []) == pending
  {
  }

  lemma PathKey(fs: Tree, p: Path)
    requires TreeOk(fs) && p in fs
    ensures Split(Join(p)) == p
  {
    SplitJoin(p);
  }

  lemma ContinuedMore(w: World, pending: Pending, shown: seq<Path>, p: Path)
    ensures pending + Continued(w, shown + [p])
         == if w.visitor(p) == Continue then (pending + Continued(w, shown))[Join(p) := Split(Join(p))]
            else pending + Continued(w, shown)
  {
    hide Join, Split;
  }

  /** A pass shows exactly the reportable names, each once; up to where it stops. */
  lemma {:induction false} GoShows(w: World, d: Path, names: seq<Name>, r: Report)
    requires (forall n | n in names :: d + [n] in w.fs) && Distinct(names)
    ensures var pass := Go(w, d, names, r);
      && Distinct(pass.shown)
      && (forall p | p in pass.shown ::
          p in w.fs && p != [] && Parent(p) == d && Last(p) in names && Shows(w, p, Reportable))
      && (!pass.stopped ==> forall n | n in names && Shows(w, d + [n], Reportable) :: d + [n] in pass.shown)
    decreases |names|
  {
    hide Classify, Shows, Note;
    if names != [] {
      var n, rest := names[0], names[1..];
      var p := d + [n];
      assert names == [n] + rest;
      assert p in w.fs && Parent(p) == d && Last(p) == n;
      ClassifyExactly(w, p);
      var r' := if Classify(w, p) != Reportable then Note(r, Classify(w, p)) else r;
      GoShows(w, d, rest, r');
      var later := Go(w, d, rest, r').shown;
      assert n !in rest;
      assert p !in later;
    }
  }

  predicate SomeName(w: World, d: Path, names: seq<Name>, c: Class)
    requires forall n | n in names :: d + [n] in w.fs
  {
    exists n | n in names :: Shows(w, d + [n], c)
  }

  /** What a whole pass notes. */
  lemma {:induction false} GoNotes(w: World, d: Path, names: seq<Name>, r: Report)
    requires forall n | n in names :: d + [n] in w.fs
    requires !Go(w, d, names, r).stopped
    ensures Go(w, d, names, r).report
         == Report(r.budgetExhausted, r.depthExhausted || SomeName(w, d, names, TooDeep),
                   r.unsafePath || SomeName(w, d, names, Unsafe), r.unreadable || SomeName(w, d, names, Unreadable))
    decreases |names|
  {
    hide Classify, Shows, SomeName;
    FirstName(w, d, names);
    if names != [] {
      ClassifyExactly(w, d + [names[0]]);
      var c := Classify(w, d + [names[0]]);
      GoNotes(w, d, names[1..], if c != Reportable then Note(r, c) else r);
    }
  }

  lemma FirstName(w: World, d: Path, names: seq<Name>)
    requires forall n | n in names :: d + [n] in w.fs
    ensures names == [] ==> forall c :: !SomeName(w, d, names, c)
    ensures names != [] ==>
              && d + [names[0]] in w.fs && (forall n | n in names[1..] :: d + [n] in w.fs)
              && forall c :: SomeName(w, d, names, c)
                             <==> Shows(w, d + [names[0]], c) || SomeName(w, d, names[1..], c)
  {
    hide Classify, Shows;
    if names != [] {
      assert names == [names[0]] + names[1..] && names[0] in names;
    }
  }

  function PathOfKey(k: Key): Path {
    if k == [] then [] else Split(k)
  }

  /** The root and every path below it. */
  function AllPaths(fs: Tree): set<Path> {
    fs.Keys + {[]}
  }

  /** Queued directories not yet processed whose own directory was processed. */
  function Frontier(w: World, done: set<Path>): set<Path> {
    set p | p in AllPaths(w.fs) && Queued(w, p) && p !in done && (p == [] || Parent(p) in done)
  }

  function PendingFor(paths: set<Path>): Pending {
    map k | k in (set p | p in paths :: Join(p)) :: PathOfKey(k)
  }

  function ShownFrom(w: World, done: set<Path>): set<Path> {
    set p | p in w.fs && Reported(w, p) && Parent(p) in done
  }

  /** The entries of the directories listed so far: what has been charged. */
  function Listed(w: World, done: set<Path>): set<Path> {
    set p | p in w.fs && p != [] && Parent(p) in done && !w.listFails(Parent(p))
  }

  /** What has been noted about the entries of the directories processed so far. */
  function Noted(w: World, done: set<Path>): Report {
    Report(false, SomeListed(w, done, TooDeep), SomeListed(w, done, Unsafe),
           SomeListed(w, done, Unreadable) || exists d | d in done :: w.listFails(d))
  }

  /** An entry of this class was listed. */
  predicate SomeListed(w: World, done: set<Path>, c: Class) {
    exists p | p in Listed(w, done) :: p in w.fs && p != [] && Shows(w, p, c)
  }

  /** Processed directories were queued, and so were those above them. */
  predicate Closed(w: World, done: set<Path>) {
    forall p | p in done :: p in AllPaths(w.fs) && Queued(w, p) && (p != [] ==> Parent(p) in done)
  }

  lemma PendingRoot(w: World)
    ensures PendingFor(Frontier(w, {})) == map[[] := []]
            && Closed(w, {}) && ShownFrom(w, {}) == {} && Listed(w, {}) == {}
    ensures Noted(w, {}) == Report(false, false, false, false)
  {
    var root: Path := [];
    assert Frontier(w, {}) == {root};
    assert Join(root) == [] && (set p | p in {root} :: Join(p)) == {Join(root)};
  }

  lemma PopFrontier(w: World, done: set<Path>, k: Key)
    requires TreeOk(w.fs) && k in PendingFor(Frontier(w, done))
    ensures PathOfKey(k) in Frontier(w, done) && Join(PathOfKey(k)) == k
    ensures PendingFor(Frontier(w, done)) - {k} == PendingFor(Frontier(w, done) - {PathOfKey(k)})
  {
    hide Queued, PathOfKey, PendingFor;
    forall p | p in Frontier(w, done)
      ensures PathOfKey(Join(p)) == p
    {
      KeyOfPath(w.fs, p);
    }
    hide Frontier;
    PopPaths(Frontier(w, done), k);
  }

  lemma PopPaths(paths: set<Path>, k: Key)
    requires k in PendingFor(paths) && forall p | p in paths :: PathOfKey(Join(p)) == p
    ensures PathOfKey(k) in paths && Join(PathOfKey(k)) == k
    ensures PendingFor(paths) - {k} == PendingFor(paths - {PathOfKey(k)})
  {
    hide PathOfKey, Join;
  }

  lemma KeyOfPath(fs: Tree, p: Path)
    requires TreeOk(fs) && p in AllPaths(fs)
    ensures PathOfKey(Join(p)) == p
  {
    if p != [] {
      SplitJoin(p);
      JoinNonempty(p);
    }
  }

  function ReportedIn(w: World, d: Path): set<Path> {
    set p | p in Children(w.fs, d) && Reported(w, p)
  }

  function QueuedIn(w: World, d: Path): set<Path> {
    set p | p in Children(w.fs, d) && Queued(w, p)
  }

  /** Processing a directory that cannot be listed. */
  lemma Unlisted(w: World, done: set<Path>, d: Path)
    requires TreeOk(w.fs) && Closed(w, done) && d in Frontier(w, done) && w.listFails(d)
    ensures Closed(w, done + {d}) && Frontier(w, done + {d}) == Frontier(w, done) - {d}
    ensures ShownFrom(w, done + {d}) == ShownFrom(w, done) && Listed(w, done + {d}) == Listed(w, done)
    ensures Noted(w, done + {d}) == Noted(w, done).(unreadable := true)
  {
    NothingBelow(w, d);
    hide Reported, Queued, Classify, Shows, SomeListed;
    assert Listed(w, done + {d}) == Listed(w, done);
    NotedOnListed(w, done, done + {d});
  }

  lemma NothingBelow(w: World, d: Path)
    requires w.listFails(d)
    ensures forall p: Path | p != [] && Parent(p) == d :: !Reported(w, p) && !Queued(w, p)
  {
  }

  lemma NotedOnListed(w: World, a: set<Path>, b: set<Path>)
    requires Listed(w, a) == Listed(w, b)
    ensures forall c :: SomeListed(w, a, c) == SomeListed(w, b, c)
  {
    hide Listed, Classify, Shows;
  }

  /** Processing a listed directory adds its children to what is listed, shown and queued. */
  lemma ListedMore(w: World, done: set<Path>, d: Path)
    requires TreeOk(w.fs) && Closed(w, done) && d in Frontier(w, done) && !w.listFails(d)
    ensures Closed(w, done + {d})
    ensures Listed(w, done + {d}) == Listed(w, done) + Children(w.fs, d) && Listed(w, done) !! Children(w.fs, d)
    ensures ShownFrom(w, done + {d}) == ShownFrom(w, done) + ReportedIn(w, d)
    ensures Frontier(w, done + {d}) == Frontier(w, done) - {d} + QueuedIn(w, d)
  {
  }

  lemma NotedMore(w: World, done: set<Path>, d: Path, r: Report)
    requires TreeOk(w.fs) && Closed(w, done) && d in Frontier(w, done) && !w.listFails(d)
    requires r == Noted(w, done)
    ensures forall n | n in Names(w.fs, d) :: d + [n] in w.fs
    ensures !Go(w, d, Names(w.fs, d), r).stopped ==> Go(w, d, Names(w.fs, d), r).report == Noted(w, done + {d})
  {
    hide Classify, Shows, Names, Less, SomeListed, SomeName, Closed, Frontier;
    NamesHold(w.fs, d);
    if !Go(w, d, Names(w.fs, d), r).stopped {
      GoNotes(w, d, Names(w.fs, d), r);
      hide Go;
      SomeListedMore(w, done, d, TooDeep);
      SomeListedMore(w, done, d, Unsafe);
      SomeListedMore(w, done, d, Unreadable);
    }
  }

  lemma SomeListedMore(w: World, done: set<Path>, d: Path, c: Class)
    requires TreeOk(w.fs) && Closed(w, done) && d in Frontier(w, done) && !w.listFails(d)
    requires forall n | n in Names(w.fs, d) :: d + [n] in w.fs
    ensures SomeListed(w, done + {d}, c) <==> SomeListed(w, done, c) || SomeName(w, d, Names(w.fs, d), c)
  {
    ListedMore(w, done, d);
    hide TreeOk, Listed, Closed, Frontier, Children, Classify, Shows, Names, SomeName;
    SomeChild(w, d, c);
  }

  lemma SomeChild(w: World, d: Path, c: Class)
    requires forall n | n in Names(w.fs, d) :: d + [n] in w.fs
    ensures SomeName(w, d, Names(w.fs, d), c)
       <==> exists p | p in Children(w.fs, d) :: p in w.fs && p != [] && Shows(w, p, c)
  {
    hide Classify, Shows, Names;
    NamesHold(w.fs, d);
    if SomeName(w, d, Names(w.fs, d), c) {
      var n :| n in Names(w.fs, d) && Shows(w, d + [n], c);
      assert d + [n] in Children(w.fs, d);
    }
    if exists p | p in Children(w.fs, d) :: p in w.fs && p != [] && Shows(w, p, c) {
      var p :| p in Children(w.fs, d) && p in w.fs && p != [] && Shows(w, p, c);
      assert p == d + [Last(p)];
    }
  }

  /** After a whole pass, what was shown and queued is what the tree says. */
  lemma PassShows(w: World, done: set<Path>, d: Path, r: Report)
    requires TreeOk(w.fs) && Closed(w, done) && d in Frontier(w, done) && !w.listFails(d)
    requires forall n | n in Names(w.fs, d) :: d + [n] in w.fs
    ensures var pass := Go(w, d, Names(w.fs, d), r);
      && Distinct(pass.shown) && (forall p | p in pass.shown :: Reported(w, p) && Parent(p) == d)
      && (!pass.stopped ==>
            && Elements(pass.shown) == ReportedIn(w, d)
            && PendingFor(Frontier(w, done) - {d}) + Continued(w, pass.shown) == PendingFor(Frontier(w, done + {d})))
  {
    hide Classify, Shows, Names, Less, Children, Go, PendingFor, Continued, Closed;
    var names := Names(w.fs, d);
    NamesHold(w.fs, d);
    IncreasingDistinct(names);
    GoShows(w, d, names, r);
    var shown := Go(w, d, names, r).shown;
    forall p | p in shown
      ensures Reported(w, p)
    {
    }
    if !Go(w, d, names, r).stopped {
      ShownChildren(w, d, shown);
      PassQueues(w, done, d, shown);
    }
  }

  lemma PassQueues(w: World, done: set<Path>, d: Path, shown: seq<Path>)
    requires TreeOk(w.fs) && Closed(w, done) && d in Frontier(w, done) && !w.listFails(d)
    requires Elements(shown) == ReportedIn(w, d)
    ensures PendingFor(Frontier(w, done) - {d}) + Continued(w, shown) == PendingFor(Frontier(w, done + {d}))
  {
    hide PendingFor, Continued, Reported, Queued, Frontier, Closed;
    ListedMore(w, done, d);
    ContinuedPending(w, d, shown);
    PendingUnion(Frontier(w, done) - {d}, QueuedIn(w, d));
  }

  lemma IncreasingDistinct(names: seq<Name>)
    requires Increasing(names)
    ensures Distinct(names)
  {
    forall i, j | 0 <= i < j < |names|
      ensures names[i] != names[j]
    {
      Irreflexive(names[i]);
    }
  }

  lemma ShownChildren(w: World, d: Path, shown: seq<Path>)
    requires forall p | p in shown :: Reported(w, p) && Parent(p) == d
    requires forall n | n in Names(w.fs, d) && d + [n] in w.fs && Shows(w, d + [n], Reportable) :: d + [n] in shown
    ensures Elements(shown) == ReportedIn(w, d)
  {
    hide Classify, Shows, Names;
    NamesHold(w.fs, d);
    forall p | p in Children(w.fs, d) && Reported(w, p)
      ensures p in shown
    {
      assert p == d + [Last(p)];
    }
  }

  lemma QueuedShown(w: World, d: Path, shown: seq<Path>)
    requires Elements(shown) == ReportedIn(w, d)
    ensures forall p :: p in QueuedIn(w, d) <==> p in shown && w.visitor(p) == Continue
  {
    hide Reported;
    assert forall p :: p in shown <==> p in Elements(shown);
    assert forall p | p in Children(w.fs, d) :: p != [];
  }

  lemma QueuedNonempty(w: World, d: Path)
    requires TreeOk(w.fs)
    ensures forall p | p in QueuedIn(w, d) :: Join(p) != []
  {
    hide Join, Reported, Queued;
    forall p | p in QueuedIn(w, d)
      ensures Join(p) != []
    {
      JoinNonempty(p);
    }
  }

  lemma ContinuedPending(w: World, d: Path, shown: seq<Path>)
    requires TreeOk(w.fs) && Elements(shown) == ReportedIn(w, d)
    ensures Continued(w, shown) == PendingFor(QueuedIn(w, d))
  {
    hide Split, Join, Reported, ReportedIn, Queued, QueuedIn, Elements, TreeOk;
    QueuedShown(w, d, shown);
    QueuedNonempty(w, d);
    var keys := set p | p in QueuedIn(w, d) :: Join(p);
    assert (set p | p in shown && w.visitor(p) == Continue :: Join(p)) == keys;
    assert forall k | k in keys :: k != [];
  }

  lemma PendingUnion(a: set<Path>, b: set<Path>)
    ensures PendingFor(a) + PendingFor(b) == PendingFor(a + b)
  {
    hide Join, PathOfKey;
  }

  /** With nothing pending, every queued directory was processed. */
  lemma {:induction false} NothingLeft(w: World, done: set<Path>, p: Path)
    requires TreeOk(w.fs) && Frontier(w, done) == {} && p in AllPaths(w.fs) && Queued(w, p)
    ensures p in done
    decreases |p|
  {
    if p != [] {
      assert Reported(w, p) && Queued(w, Parent(p));
      assert |p| == 1 ==> Parent(p) == [];
      NothingLeft(w, done, Parent(p));
    }
    assert p !in Frontier(w, done);
  }

  lemma Complete(w: World, done: set<Path>)
    requires TreeOk(w.fs) && Frontier(w, done) == {}
    ensures ShownFrom(w, done) == set p | p in w.fs && Reported(w, p)
  {
    forall p | p in w.fs && Reported(w, p)
      ensures Parent(p) in done
    {
      assert |p| == 1 ==> Parent(p) == [];
      NothingLeft(w, done, Parent(p));
    }
  }

  /** The state of the walk between directories, as a function of the directories processed. */
  predicate Consistent(w: World, done: set<Path>, pending: Pending, shown: seq<Path>, report: Report) {
    && Closed(w, done) && pending == PendingFor(Frontier(w, done))
    && Distinct(shown) && Elements(shown) == ShownFrom(w, done) && report == Noted(w, done)
  }

  lemma ShownMore(w: World, done: set<Path>, d: Path, shown: seq<Path>, more: seq<Path>)
    requires d !in done && Distinct(shown) && Elements(shown) == ShownFrom(w, done)
    requires Distinct(more) && forall p | p in more :: Reported(w, p) && Parent(p) == d
    ensures Distinct(shown + more) && forall p | p in shown + more :: Reported(w, p)
    ensures Elements(shown + more) == ShownFrom(w, done) + Elements(more)
  {
    hide Classify, Shows, Queued;
    forall i | 0 <= i < |shown|
      ensures Reported(w, shown[i]) && Parent(shown[i]) in done
    {
      assert shown[i] in Elements(shown);
    }
    forall p | p in shown
      ensures Reported(w, p)
    {
      assert p in Elements(shown);
    }
    forall j | 0 <= j < |more|
      ensures Reported(w, more[j]) && Parent(more[j]) == d
    {
      assert more[j] in more;
    }
  }

  /** One listed directory, gone through. */
  lemma AfterPass(w: World, done: set<Path>, pending: Pending, shown: seq<Path>, report: Report, d: Path)
    requires TreeOk(w.fs) && Consistent(w, done, pending, shown, report) && d in Frontier(w, done) && !w.listFails(d)
    ensures (forall n | n in Names(w.fs, d) :: d + [n] in w.fs)
    ensures var pass := Go(w, d, Names(w.fs, d), report);
      && pass.charged <= |Children(w.fs, d)|
      && Distinct(shown + pass.shown) && (forall p | p in shown + pass.shown :: Reported(w, p))
      && pass.report.budgetExhausted == report.budgetExhausted
      && (!pass.stopped ==>
            && pass.charged == |Children(w.fs, d)| && |Listed(w, done + {d})| == |Listed(w, done)| + pass.charged
            && Consistent(w, done + {d}, PendingFor(Frontier(w, done) - {d}) + Continued(w, pass.shown),
                          shown + pass.shown, pass.report))
  {
    hide Go, Noted, Reported, Queued, Names, Children, Listed, Closed, Continued, PendingFor;
    NamesHold(w.fs, d);
    NotedMore(w, done, d, report);
    PassShows(w, done, d, report);
    ListedMore(w, done, d);
    ChargedWhole(w, d, Names(w.fs, d), report);
    GoBudget(w, d, Names(w.fs, d), report);
    ShownMore(w, done, d, shown, Go(w, d, Names(w.fs, d), report).shown);
  }

  lemma AfterFailure(w: World, done: set<Path>, pending: Pending, shown: seq<Path>, report: Report, d: Path)
    requires TreeOk(w.fs) && Consistent(w, done, pending, shown, report) && d in Frontier(w, done) && w.listFails(d)
    ensures Listed(w, done + {d}) == Listed(w, done)
    ensures Consistent(w, done + {d}, PendingFor(Frontier(w, done) - {d}), shown, report.(unreadable := true))
  {
    hide Noted, Reported, Queued, Listed, Closed, PendingFor;
    Unlisted(w, done, d);
  }

  lemma NextDirectory(w: World, done: set<Path>, pending: Pending, shown: seq<Path>, report: Report)
    requires TreeOk(w.fs) && Consistent(w, done, pending, shown, report) && pending != map[]
    ensures var k := Least(pending.Keys);
      && k in pending && pending[k] in Frontier(w, done)
      && pending - {k} == PendingFor(Frontier(w, done) - {pending[k]})
      && pending[k] !in done && pending[k] in AllPaths(w.fs)
    ensures pending == PendingFor(Frontier(w, done))
  {
    hide Reported, Queued, Listed, Closed;
    PopFrontier(w, done, Least(pending.Keys));
  }

  lemma WalkStart(w: World)
    ensures Consistent(w, {}, map[[] := []], [], Report(false, false, false, false)) && Listed(w, {}) == {}
  {
    hide Noted, Reported, Queued, PendingFor;
    PendingRoot(w);
    assert Elements<Path>([]) == {};
  }

  /** Every directory the walk may enter. */
  function AllQueued(w: World): set<Path> {
    set p | p in AllPaths(w.fs) && Queued(w, p)
  }

  /** The walk got through everything it may see: it has processed every directory it may enter. */
  ghost predicate WholeWalk(w: World, done: set<Path>, shown: seq<Path>, report: Report, charged: int) {
    && done == AllQueued(w) && Elements(shown) == (set p | p in w.fs && Reported(w, p))
    && report == Noted(w, done) && charged == |Listed(w, done)|
  }

  /** The walk met a directory with more entries than were left of its allowance. */
  ghost predicate OutOfBudget(w: World, done: set<Path>, last: Path, shown: seq<Path>, report: Report,
                              charged: int, allowance: int) {
    && last in Frontier(w, done) && Elements(shown) == ShownFrom(w, done)
    && report == Noted(w, done).(budgetExhausted := true)
    && charged == |Listed(w, done)| && charged + |Children(w.fs, last)| > allowance
  }

  /** The visitor stopped the walk inside a directory. */
  ghost predicate StoppedIn(w: World, done: set<Path>, last: Path, shown: seq<Path>, report: Report, charged: int) {
    && last in Frontier(w, done) && (forall n | n in Names(w.fs, last) :: last + [n] in w.fs)
    && var pass := Go(w, last, Names(w.fs, last), Noted(w, done));
       && pass.stopped && report == pass.report && charged == |Listed(w, done)| + pass.charged
       && |pass.shown| <= |shown| && shown[|shown| - |pass.shown|..] == pass.shown
       && Elements(shown[..|shown| - |pass.shown|]) == ShownFrom(w, done)
  }

  lemma FrontierPending(w: World, done: set<Path>, pending: Pending)
    requires pending == PendingFor(Frontier(w, done))
    ensures pending == map[] ==> Frontier(w, done) == {}
  {
    hide Queued, Join;
    assert forall p | p in Frontier(w, done) :: Join(p) in pending.Keys;
  }

  lemma WalkEnd(w: World, done: set<Path>, shown: seq<Path>, report: Report)
    requires TreeOk(w.fs) && Consistent(w, done, map[], shown, report)
    ensures WholeWalk(w, done, shown, report, |Listed(w, done)|) && Closed(w, done) && Distinct(shown)
    ensures (forall p | p in shown :: Reported(w, p)) && Frontier(w, done) == {} && report == Noted(w, done)
  {
    hide Reported, Queued, Frontier, Listed;
    FrontierPending(w, done, map[]);
    Complete(w, done);
    forall p | p in AllPaths(w.fs) && Queued(w, p)
      ensures p in done
    {
      NothingLeft(w, done, p);
    }
    assert forall p | p in shown :: p in Elements(shown);
  }

  lemma KnownShown(w: World, done: set<Path>, pending: Pending, shown: seq<Path>, report: Report)
    requires Consistent(w, done, pending, shown, report)
    ensures Distinct(shown) && (forall p | p in shown :: Reported(w, p)) && Closed(w, done)
    ensures pending == PendingFor(Frontier(w, done)) && report == Noted(w, done)
  {
    hide Reported, Queued;
    assert forall p | p in shown :: p in Elements(shown);
  }

  lemma WalkOverflow(w: World, done: set<Path>, last: Path, pending: Pending, shown: seq<Path>, report: Report,
                     charged: int, allowance: int)
    requires Consistent(w, done, pending, shown, report) && last in Frontier(w, done)
    requires charged == |Listed(w, done)| && charged + |Children(w.fs, last)| > allowance
    ensures OutOfBudget(w, done, last, shown, report.(budgetExhausted := true), charged, allowance)
    ensures Closed(w, done) && Distinct(shown)
  {
  }

  lemma WalkStopped(w: World, done: set<Path>, last: Path, names: seq<Name>, pending: Pending,
                    before: seq<Path>, report: Report, shown: seq<Path>, report': Report, charged: int)
    requires Consistent(w, done, pending, before, report) && last in Frontier(w, done)
    requires names == Names(w.fs, last) && forall n | n in names :: last + [n] in w.fs
    requires var pass := Go(w, last, names, report);
      && pass.stopped && report' == pass.report && shown == before + pass.shown
      && charged == |Listed(w, done)| + pass.charged
    ensures StoppedIn(w, done, last, shown, report', charged) && Closed(w, done)
  {
    hide Reported, Queued, Frontier, Listed, Names, Go, Noted;
    assert shown[..|before|] == before;
  }

  // ----- What the walk does, for no particular listing order

  /** How a walk ends: what the visitor saw, what is reported and charged, and whether it was stopped. */
  datatype Ending = Ending(shown: seq<Path>, report: Report, charged: nat, stopped: bool)

  function FrontierKeys(w: World, done: set<Path>): set<Key> {
    set p | p in Frontier(w, done) :: Join(p)
  }

  /** The directory processed after these: the one with the least key. */
  function NextOf(w: World, done: set<Path>): (d: Path)
    requires TreeOk(w.fs) && Frontier(w, done) != {}
    ensures d in Frontier(w, done)
  {
    var p :| p in Frontier(w, done);
    assert Join(p) in FrontierKeys(w, done);
    PopFrontier(w, done, Least(FrontierKeys(w, done)));
    PathOfKey(Least(FrontierKeys(w, done)))
  }

  lemma NextLess(w: World, done: set<Path>, d: Path)
    requires d in Frontier(w, done)
    ensures |AllPaths(w.fs) - (done + {d})| < |AllPaths(w.fs) - done|
  {
    hide Queued;
    assert AllPaths(w.fs) - (done + {d}) == AllPaths(w.fs) - done - {d};
  }

  function PassOf(w: World, d: Path, r: Report): Pass {
    NamesHold(w.fs, d);
    Go(w, d, Names(w.fs, d), r)
  }

  /** The rest of a walk that has processed these directories and may still charge so much. */
  ghost function Proceed(w: World, done: set<Path>, left: nat): Ending
    requires TreeOk(w.fs)
    decreases |AllPaths(w.fs) - done|
  {
    if Frontier(w, done) == {} then Ending([], Noted(w, done), 0, false)
    else
      var d := NextOf(w, done);
      NextLess(w, done, d);
      hide Noted, Less, Join, Queued, Classify, Shows, Frontier, NextOf, PassOf, Children;
      if w.listFails(d) then Proceed(w, done + {d}, left)
      else if |Children(w.fs, d)| > left then Ending([], Noted(w, done).(budgetExhausted := true), 0, false)
      else
        var pass := PassOf(w, d, Noted(w, done));
        if pass.stopped then Ending(pass.shown, pass.report, pass.charged, true)
        else
          var rest := Proceed(w, done + {d}, left - |Children(w.fs, d)|);
          rest.(shown := pass.shown + rest.shown, charged := |Children(w.fs, d)| + rest.charged)
  }

  /** An ending with what came before it. */
  function After(shown: seq<Path>, charged: nat, e: Ending): Ending {
    e.(shown := shown + e.shown, charged := charged + e.charged)
  }

  /** A walk that has come this far and may charge so much in all goes on as the whole walk does. */
  ghost predicate SoFar(w: World, done: set<Path>, shown: seq<Path>, allowance: nat)
    requires TreeOk(w.fs)
  {
    && |Listed(w, done)| <= allowance
    && After(shown, |Listed(w, done)|, Proceed(w, done, allowance - |Listed(w, done)|)) == Proceed(w, {}, allowance)
  }

  lemma SoFarStart(w: World, allowance: nat)
    requires TreeOk(w.fs)
    ensures SoFar(w, {}, [], allowance)
  {
    hide Proceed;
    var e := Proceed(w, {}, allowance);
    assert Listed(w, {}) == {} && [] + e.shown == e.shown;
  }

  lemma ProceedFails(w: World, done: set<Path>, d: Path, shown: seq<Path>, allowance: nat)
    requires TreeOk(w.fs) && Frontier(w, done) != {} && d == NextOf(w, done) && w.listFails(d)
    requires SoFar(w, done, shown, allowance) && Listed(w, done + {d}) == Listed(w, done)
    ensures SoFar(w, done + {d}, shown, allowance)
  {
    hide Noted, Frontier, NextOf, PassOf, Children, Queued, Listed, After;
    assert forall left :: Proceed(w, done, left) == Proceed(w, done + {d}, left);
  }

  lemma ProceedOverflows(w: World, done: set<Path>, d: Path, shown: seq<Path>, allowance: nat)
    requires TreeOk(w.fs) && Frontier(w, done) != {} && d == NextOf(w, done) && !w.listFails(d)
    requires SoFar(w, done, shown, allowance) && |Listed(w, done)| + |Children(w.fs, d)| > allowance
    ensures Proceed(w, {}, allowance)
         == Ending(shown, Noted(w, done).(budgetExhausted := true), |Listed(w, done)|, false)
  {
    hide Noted, Frontier, NextOf, PassOf, Children, Queued, Listed;
    assert shown + [] == shown;
  }

  lemma ProceedPasses(w: World, done: set<Path>, d: Path, shown: seq<Path>, allowance: nat)
    requires TreeOk(w.fs) && Frontier(w, done) != {} && d == NextOf(w, done) && !w.listFails(d)
    requires SoFar(w, done, shown, allowance) && |Listed(w, done)| + |Children(w.fs, d)| <= allowance
    requires |Listed(w, done + {d})| == |Listed(w, done)| + |Children(w.fs, d)|
    ensures var pass := PassOf(w, d, Noted(w, done));
      if pass.stopped then
        Proceed(w, {}, allowance) == Ending(shown + pass.shown, pass.report, |Listed(w, done)| + pass.charged, true)
      else SoFar(w, done + {d}, shown + pass.shown, allowance)
  {
    hide Noted, Frontier, NextOf, PassOf, Children, Queued, Listed;
    var (pass, n) := (PassOf(w, d, Noted(w, done)), |Children(w.fs, d)|);
    var left := allowance - |Listed(w, done)|;
    if !pass.stopped {
      var rest := Proceed(w, done + {d}, left - n);
      assert Proceed(w, done, left) == rest.(shown := pass.shown + rest.shown, charged := n + rest.charged);
      assert shown + (pass.shown + rest.shown) == shown + pass.shown + rest.shown;
      assert allowance - |Listed(w, done + {d})| == left - n;
    }
  }

  lemma ProceedEnds(w: World, done: set<Path>, shown: seq<Path>, allowance: nat)
    requires TreeOk(w.fs) && Frontier(w, done) == {} && SoFar(w, done, shown, allowance)
    ensures Proceed(w, {}, allowance) == Ending(shown, Noted(w, done), |Listed(w, done)|, false)
  {
    hide Noted, Frontier, Listed;
    assert shown + [] == shown;
  }

  lemma ListedMoreSize(w: World, done: set<Path>, d: Path)
    requires TreeOk(w.fs) && Closed(w, done) && d in Frontier(w, done) && !w.listFails(d)
    ensures |Listed(w, done + {d})| == |Listed(w, done)| + |Children(w.fs, d)|
  {
    hide Listed, Children, Closed, Frontier;
    ListedMore(w, done, d);
  }

  lemma LeastIsNext(w: World, done: set<Path>, pending: Pending)
    requires TreeOk(w.fs) && pending == PendingFor(Frontier(w, done)) && pending != map[]
    ensures Frontier(w, done) != {} && pending[Least(pending.Keys)] == NextOf(w, done)
  {
    hide Frontier, Join;
    assert pending.Keys == FrontierKeys(w, done);
    var k := Least(pending.Keys);
    assert k in pending;
  }

  /** Between two directories: what has been done so far, and that the walk goes on from here. */
  ghost predicate Underway(w: World, done: set<Path>, pending: Pending, shown: seq<Path>, report: Report, charged: int,
                           allowance: nat)
    requires TreeOk(w.fs)
  {
    && Consistent(w, done, pending, shown, report) && SoFar(w, done, shown, allowance)
    && charged == |Listed(w, done)| <= allowance
  }

  /** A walk that is over: it has charged at most its allowance and shown each directory at most once, only
      beneath directories answered with `Continue`. It has seen everything, met a directory with more
      entries than were left, or was stopped inside one; and it ended as any walk of this tree does. */
  ghost predicate Walked(w: World, done: set<Path>, last: Path, shown: seq<Path>, report: Report, charged: int,
                         stopped: bool, allowance: nat)
    requires TreeOk(w.fs)
  {
    && 0 <= charged <= allowance && Ending(shown, report, charged, stopped) == Proceed(w, {}, allowance)
    && Closed(w, done) && Distinct(shown) && (forall p | p in shown :: Reported(w, p))
    && (if stopped then StoppedIn(w, done, last, shown, report, charged)
        else if report.budgetExhausted then OutOfBudget(w, done, last, shown, report, charged, allowance)
        else WholeWalk(w, done, shown, report, charged))
  }

  lemma FailedTurn(w: World, done: set<Path>, d: Path, pending: Pending, shown: seq<Path>, report: Report, charged: int,
                   allowance: nat)
    requires TreeOk(w.fs) && Underway(w, done, pending, shown, report, charged, allowance)
    requires Frontier(w, done) != {} && d == NextOf(w, done) && w.listFails(d)
    ensures Underway(w, done + {d}, PendingFor(Frontier(w, done) - {d}), shown, report.(unreadable := true), charged,
                     allowance)
  {
    hide Consistent, SoFar, Listed, Frontier, Queued, Reported, Noted;
    AfterFailure(w, done, pending, shown, report, d);
    ProceedFails(w, done, d, shown, allowance);
  }

  lemma OverflowTurn(w: World, done: set<Path>, d: Path, pending: Pending, shown: seq<Path>, report: Report,
                     charged: int,
                     allowance: nat)
    requires TreeOk(w.fs) && Underway(w, done, pending, shown, report, charged, allowance)
    requires Frontier(w, done) != {} && d == NextOf(w, done) && !w.listFails(d)
    requires |Children(w.fs, d)| > allowance - charged
    ensures Walked(w, done, d, shown, report.(budgetExhausted := true), charged, false, allowance)
  {
    hide Consistent, SoFar, Listed, Frontier, Queued, Reported, Noted, OutOfBudget, Closed, Children, Proceed;
    KnownShown(w, done, pending, shown, report);
    WalkOverflow(w, done, d, pending, shown, report, charged, allowance);
    ProceedOverflows(w, done, d, shown, allowance);
  }

  lemma PassTurn(w: World, done: set<Path>, d: Path, pending: Pending, shown: seq<Path>, report: Report, charged: int,
                 allowance: nat)
    requires TreeOk(w.fs) && Underway(w, done, pending, shown, report, charged, allowance) && !report.budgetExhausted
    requires Frontier(w, done) != {} && d == NextOf(w, done) && !w.listFails(d)
    requires |Children(w.fs, d)| <= allowance - charged
    ensures forall n | n in Names(w.fs, d) :: d + [n] in w.fs
    ensures var pass := Go(w, d, Names(w.fs, d), report);
      && !pass.report.budgetExhausted
      && (if pass.stopped then
            Walked(w, done, d, shown + pass.shown, pass.report, charged + pass.charged, true, allowance)
          else
            Underway(w, done + {d}, PendingFor(Frontier(w, done) - {d}) + Continued(w, pass.shown), shown + pass.shown,
                     pass.report, charged + pass.charged, allowance))
  {
    hide Consistent, SoFar, Listed, Frontier, Queued, Reported, Noted, StoppedIn, Closed, Children, Proceed, Names, Go,
      Continued, PendingFor;
    KnownShown(w, done, pending, shown, report);
    AfterPass(w, done, pending, shown, report, d);
    ListedMoreSize(w, done, d);
    ProceedPasses(w, done, d, shown, allowance);
    var pass := Go(w, d, Names(w.fs, d), report);
    assert PassOf(w, d, report) == pass;
    if pass.stopped {
      WalkStopped(w, done, d, Names(w.fs, d), pending, shown, report, shown + pass.shown, pass.report,
                  charged + pass.charged);
    }
  }

  /** One turn of the walk's loop, for the directory just taken off the queue. */
  method WalkDirectory(w: World, listing: CaptureLoop.Listing, meter: LocalRootHookMeter, d: Path, report: Report,
                       pending: Pending, shown: seq<Path>, ghost done: set<Path>, ghost start: nat,
                       ghost allowance: nat)
    returns (report': Report, pending': Pending, shown': seq<Path>, stopped: bool, ghost charged: int)
    requires TreeOk(w.fs) && CaptureLoop.Lists(w.fs, listing, d) && Frontier(w, done) != {} && d == NextOf(w, done)
    requires Underway(w, done, PendingFor(Frontier(w, done)), shown, report, meter.discoveryEntries - start, allowance)
    requires pending == PendingFor(Frontier(w, done) - {d}) && !report.budgetExhausted
    requires meter.Remaining() == allowance - (meter.discoveryEntries - start)
    modifies meter
    ensures charged == meter.discoveryEntries - start
    ensures if stopped || report'.budgetExhausted then Walked(w, done, d, shown', report', charged, stopped, allowance)
            else Underway(w, done + {d}, pending', shown', report', charged, allowance)
  {
    hide Underway, Walked, Go, Names, Children, Continued, PendingFor, Frontier, TreeOk, CaptureLoop.Lists, Distinct,
      Elements, Sorted, IsLeast, NextOf, Reported, Queued, Join, Split, Less, Leq;
    report', pending', shown', stopped := report, pending, shown, false;
    ghost var queue := PendingFor(Frontier(w, done));
    charged := meter.discoveryEntries - start;
    if w.listFails(d) {
      FailedTurn(w, done, d, queue, shown, report, charged, allowance);
      report' := report.(unreadable := true);
      return;
    }
    ListedNames(w.fs, listing, d);
    var left := meter.Remaining();
    var bounded := CollectNames(listing(d), left);
    if bounded.None? {
      OverflowTurn(w, done, d, queue, shown, report, charged, allowance);
      report' := report.(budgetExhausted := true);
      return;
    }
    PassTurn(w, done, d, queue, shown, report, charged, allowance);
    report', pending', shown', stopped := ProcessEntries(w, d, bounded.value, meter, report, pending);
    shown' := shown + shown';
    charged := charged + Go(w, d, Names(w.fs, d), report).charged;
  }

  /** The walk. `shown` logs the visitor's calls in order; `done` are the directories processed whole, and
      `last` the one in which the walk ended early. A directory is charged and processed whole or not at
      all, unless the visitor stops the walk inside it. What the visitor sees, and the report, do not depend
      on the order in which directories list their entries. */
  method WalkDirectories(w: World, listing: CaptureLoop.Listing, meter: LocalRootHookMeter)
    returns (report: Report, shown: seq<Path>, stopped: bool, ghost done: set<Path>,
             ghost last: Path, ghost charged: int)
    requires TreeOk(w.fs) && forall d :: CaptureLoop.Lists(w.fs, listing, d)
    modifies meter
    ensures charged == meter.discoveryEntries - old(meter.discoveryEntries)
    ensures Walked(w, done, last, shown, report, charged, stopped, old(meter.Remaining()))
  {
    hide Reported, Queued, Listed, Closed, PendingFor, Frontier, TreeOk, CaptureLoop.Lists, Distinct, AllPaths, IsLeast,
      Walked, NextOf, Underway, Less, Leq, Join, Split;
    report, shown, stopped, done, last, charged := Report(false, false, false, false), [], false, {}, [], 0;
    var pending: Pending := map[[] := []];
    ghost var allowance := meter.Remaining();
    TurnStart(w, allowance);
    while pending != map[]
      invariant Underway(w, done, pending, shown, report, charged, allowance) && !stopped && !report.budgetExhausted
      invariant charged == meter.discoveryEntries - old(meter.discoveryEntries) == allowance - meter.Remaining()
      decreases |AllPaths(w.fs) - done|
    {
      NextTurn(w, done, pending, shown, report, charged, allowance);
      var key := Least(pending.Keys);
      var d := pending[key];
      last := d;
      assert AllPaths(w.fs) - (done + {d}) == AllPaths(w.fs) - done - {d};
      report, pending, shown, stopped, charged :=
        WalkDirectory(w, listing, meter, d, report, pending - {key}, shown, done,
                      old(meter.discoveryEntries), allowance);
      if stopped || report.budgetExhausted {
        return;
      }
      ChargedWithin(w, done + {d}, pending, shown, report, charged, allowance);
      done := done + {d};
    }
    TurnEnd(w, done, last, shown, report, charged, allowance);
  }

  // ----- A directory charged in part

  const FIRST: Path := [[0x61]]
  const SECOND: Path := [[0x62]]

  /** A root with two directories, and a visitor that stops at the first. */
  const STOPPING: World := World(
    map[FIRST := DirNode, SECOND := DirNode],
    _ => true, _ => false, _ => false, _ => Opened, p => if p == FIRST then Stop else Continue, 1)

  lemma StoppingTree()
    ensures TreeOk(STOPPING.fs) && Children(STOPPING.fs, []) == {FIRST, SECOND} && FIRST != SECOND
    ensures |Children(STOPPING.fs, [])| == 2 && FIRST in STOPPING.fs && SECOND in STOPPING.fs
  {
    assert FIRST[0] != SECOND[0];
  }

  lemma StoppingNames()
    ensures Names(STOPPING.fs, []) == [FIRST[0], SECOND[0]]
  {
    StoppingTree();
    hide TreeOk, Children;
    var fs := STOPPING.fs;
    var last := set p | p in Children(fs, []) && p != [] :: Last(p);
    assert Last(FIRST) == FIRST[0] && Last(SECOND) == SECOND[0] && last == {FIRST[0], SECOND[0]};
    assert Less(FIRST[0], SECOND[0]);
    hide Less;
    SortedUnique([FIRST[0], SECOND[0]], last);
  }

  lemma StoppingPass(r: Report)
    ensures PassOf(STOPPING, [], r) == Pass(1, [FIRST], r, true)
  {
    StoppingTree();
    StoppingNames();
    hide TreeOk, Children, Names;
    var w, root: Path, names := STOPPING, [], [FIRST[0], SECOND[0]];
    NamesHold(w.fs, root);
    assert root + [names[0]] == FIRST && Shows(w, FIRST, Reportable);
    hide Classify, Shows;
    GoStep(w, root, names, 0, r);
    assert names[0..] == names;
  }

  lemma StoppingStart()
    ensures TreeOk(STOPPING.fs) && Frontier(STOPPING, {}) == {[]} && NextOf(STOPPING, {}) == []
    ensures Noted(STOPPING, {}) == Report(false, false, false, false)
  {
    StoppingTree();
    PendingRoot(STOPPING);
    var root: Path := [];
    assert Frontier(STOPPING, {}) == {root};
    hide Frontier;
    assert NextOf(STOPPING, {}) in {root};
  }

  /** A visitor that stops in the middle of a directory leaves it charged in part: of the root's two entries
      this walk has charged one. */
  lemma StoppingChargesPart()
    ensures TreeOk(STOPPING.fs) && |Children(STOPPING.fs, [])| == 2
    ensures Proceed(STOPPING, {}, 2) == Ending([FIRST], Report(false, false, false, false), 1, true)
  {
    StoppingTree();
    StoppingStart();
    StoppingPass(Noted(STOPPING, {}));
    hide Frontier, NextOf, Children, TreeOk, PassOf, Noted;
  }

  lemma ChargedWithin(w: World, done: set<Path>, pending: Pending, shown: seq<Path>, report: Report, charged: int,
                      allowance: nat)
    requires TreeOk(w.fs) && Underway(w, done, pending, shown, report, charged, allowance)
    ensures 0 <= charged <= allowance
  {
    hide Consistent, SoFar, Listed;
  }

  lemma TurnStart(w: World, allowance: nat)
    requires TreeOk(w.fs)
    ensures Underway(w, {}, map[[] := []], [], Report(false, false, false, false), 0, allowance)
  {
    hide Consistent, SoFar, Listed;
    WalkStart(w);
    SoFarStart(w, allowance);
    WithinStart(w, allowance);
  }

  lemma WithinStart(w: World, allowance: nat)
    ensures |Listed(w, {})| == 0 <= allowance
  {
    assert Listed(w, {}) == {};
  }

  lemma NextTurn(w: World, done: set<Path>, pending: Pending, shown: seq<Path>, report: Report, charged: int,
                 allowance: nat)
    requires TreeOk(w.fs) && Underway(w, done, pending, shown, report, charged, allowance) && pending != map[]
    ensures pending == PendingFor(Frontier(w, done)) && Frontier(w, done) != {}
    ensures var k := Least(pending.Keys);
      && k in pending && pending[k] == NextOf(w, done) && pending[k] !in done && pending[k] in AllPaths(w.fs)
      && pending - {k} == PendingFor(Frontier(w, done) - {pending[k]})
  {
    hide Consistent, SoFar, Listed, Frontier, NextOf, PendingFor, IsLeast;
    NextDirectory(w, done, pending, shown, report);
    LeastIsNext(w, done, pending);
  }

  lemma TurnEnd(w: World, done: set<Path>, last: Path, shown: seq<Path>, report: Report, charged: int, allowance: nat)
    requires TreeOk(w.fs) && Underway(w, done, map[], shown, report, charged, allowance) && !report.budgetExhausted
    ensures Walked(w, done, last, shown, report, charged, false, allowance)
  {
    hide Consistent, SoFar, Listed, Reported, Queued, Closed, WholeWalk, Frontier, Proceed, Noted;
    WalkEnd(w, done, shown, report);
    ProceedEnds(w, done, shown, allowance);
  }

  /** A pass never touches the budget flag. */
  lemma {:induction false} GoBudget(w: World, d: Path, names: seq<Name>, r: Report)
    requires forall n | n in names :: d + [n] in w.fs
    ensures Go(w, d, names, r).report.budgetExhausted == r.budgetExhausted
    decreases |names|
  {
    hide Classify, Shows;
    if names != [] {
      assert names == [names[0]] + names[1..];
      assert d + [names[0]] in w.fs;
      var c := Classify(w, d + [names[0]]);
      GoBudget(w, d, names[1..], if c != Reportable then Note(r, c) else r);
    }
  }

  lemma ListedNames(fs: Tree, listing: CaptureLoop.Listing, d: Path)
    requires CaptureLoop.Lists(fs, listing, d)
    ensures Distinct(listing(d))
    ensures Sorted(Elements(listing(d))) == Names(fs, d) && |listing(d)| == |Children(fs, d)| == |Names(fs, d)|
  {
    NamesHold(fs, d);
    DistinctSize(listing(d));
  }
}
