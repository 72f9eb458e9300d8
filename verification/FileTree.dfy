/** A finite directory tree: every path below the root with what stands there. */
module FileTree {
  import opened Paths
  import opened Lexicographic
  import opened Trees
  import opened Collisions

  datatype Node =
    | DirNode
    | FileNode(file: CapturedFile)
    | LinkNode
    | ReparseNode
    | SpecialNode

  type Tree = map<Path, Node>

  function Parent(p: Path): Path
    requires p != []
  {
    p[..|p| - 1]
  }

  function Last(p: Path): Name
    requires p != []
  {
    p[|p| - 1]
  }

  /** Names are those a file system can hold, and everything stands inside directories. */
  predicate TreeOk(fs: Tree) {
    forall p | p in fs :: p != [] && PathOk(p) && (|p| > 1 ==> Parent(p) in fs && fs[Parent(p)] == DirNode)
  }

  function Children(fs: Tree, d: Path): set<Path> {
    set p | p in fs && p != [] && Parent(p) == d
  }

  function Keys(fs: Tree): set<Key> {
    set p | p in fs :: Join(p)
  }

  /** All paths in the byte order of their joined key. */
  function Order(fs: Tree): seq<Key> {
    Sorted(Keys(fs))
  }

  predicate KeyIn(fs: Tree, k: Key) {
    Split(k) in fs && Join(Split(k)) == k
  }

  lemma OrderHolds(fs: Tree)
    requires TreeOk(fs)
    ensures Increasing(Order(fs)) && forall i | 0 <= i < |Order(fs)| :: KeyIn(fs, Order(fs)[i])
    ensures forall p | p in fs :: Join(p) in Order(fs) && Split(Join(p)) == p
  {
    SortedSorts(Keys(fs));
    forall p | p in fs
      ensures Split(Join(p)) == p && Join(p) in Order(fs)
    {
      SplitJoin(p);
      assert Join(p) in Keys(fs);
    }
    forall i | 0 <= i < |Order(fs)|
      ensures KeyIn(fs, Order(fs)[i])
    {
      assert Order(fs)[i] in Order(fs);
      var p :| p in fs && Join(p) == Order(fs)[i];
    }
  }

  lemma KeyOfChild(p: Path)
    requires p != []
    ensures Join(p) == if |p| == 1 then Last(p) else Join(Parent(p)) + [SLASH] + Last(p)
  {
    hide Join;
    assert p == Parent(p) + [Last(p)];
    JoinSnoc(Parent(p), Last(p));
  }

  /** A directory comes before everything in it. */
  lemma ParentFirst(p: Path)
    requires |p| > 1
    ensures Less(Join(Parent(p)), Join(p))
  {
    KeyOfChild(p);
    var tail := [SLASH] + Last(p);
    assert Join(p) == Join(Parent(p)) + tail;
    PrefixLess(Join(Parent(p)), tail);
  }

  /** The paths whose directory is the root or in `visited`: those ever enqueued once `visited` are done. */
  function Enqueued(fs: Tree, visited: set<Key>): set<Path> {
    set p | p in fs && p != [] && (|p| == 1 || Join(Parent(p)) in visited)
  }

  lemma EnqueueMore(fs: Tree, visited: set<Key>, k: Key)
    requires TreeOk(fs) && k !in visited && KeyIn(fs, k)
    ensures Enqueued(fs, visited + {k}) == Enqueued(fs, visited) + Children(fs, Split(k))
    ensures Enqueued(fs, visited) !! Children(fs, Split(k))
    ensures |Enqueued(fs, visited + {k})| == |Enqueued(fs, visited)| + |Children(fs, Split(k))|
    ensures fs[Split(k)] != DirNode ==> Children(fs, Split(k)) == {}
  {
    var d := Split(k);
    forall p | p in fs && |p| > 1 && Join(Parent(p)) == k
      ensures Parent(p) == d
    {
      SplitJoin(Parent(p));
    }
    forall p | p in Children(fs, d)
      ensures |p| > 1 && Join(Parent(p)) == k && fs[d] == DirNode
    {
    }
  }
}
