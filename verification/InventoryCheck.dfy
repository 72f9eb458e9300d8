/** Exact-inventory verification (crates/kitrove-agent-skills/src/tree.rs:114-195). */
module InventoryCheck {
  import opened Outcome
  import opened Bytes
  import opened Paths
  import opened Lexicographic
  import opened Trees
  import opened Frames
  import opened Collisions
  import opened FileTree
  import opened Capture
  import PortableNames

  // ----- The directories an inventory admits

  /** The prefixes that end before a slash: `match_indices('/')`. */
  function SlashPrefixes(k: Key): set<Key> {
    set i | 0 <= i < |k| && k[i] == SLASH :: k[..i]
  }

  function AllSlashPrefixes(keys: set<Key>): set<Key> {
    set k, prefix | k in keys && prefix in SlashPrefixes(k) :: prefix
  }

  function AdmittedDirectories(files: set<Key>, empty: set<Key>): set<Key> {
    AllSlashPrefixes(files) + empty + AllSlashPrefixes(empty)
  }

  lemma OnePathMore(keys: set<Key>, k: Key)
    ensures AllSlashPrefixes(keys + {k}) == AllSlashPrefixes(keys) + SlashPrefixes(k)
  {
    hide SlashPrefixes;
  }

  /** The slash prefixes of each of these paths. */
  method CollectPrefixes(paths: set<Key>) returns (directories: set<Key>)
    ensures directories == AllSlashPrefixes(paths)
  {
    hide AllSlashPrefixes, SlashPrefixes;
    directories := {};
    NoPaths();
    var rest := paths;
    assert paths - rest == {};
    while rest != {}
      invariant rest <= paths && directories == AllSlashPrefixes(paths - rest)
      decreases |rest|
    {
      var path :| path in rest;
      var prefixes := PrefixesBeforeSlashes(path);
      OnePathMore(paths - rest, path);
      assert paths - (rest - {path}) == paths - rest + {path};
      directories := directories + prefixes;
      rest := rest - {path};
    }
    assert paths - {} == paths;
  }

  method CollectDirectories(files: set<Key>, empty: set<Key>) returns (directories: set<Key>)
    ensures directories == AdmittedDirectories(files, empty)
  {
    hide AllSlashPrefixes;
    var above := CollectPrefixes(files);
    var within := CollectPrefixes(empty);
    directories := above + empty + within;
  }

  lemma NoPaths()
    ensures AllSlashPrefixes({}) == {}
  {
  }

  method PrefixesBeforeSlashes(k: Key) returns (prefixes: set<Key>)
    ensures prefixes == SlashPrefixes(k)
  {
    prefixes := {};
    for i := 0 to |k|
      invariant prefixes == set j | 0 <= j < i && k[j] == SLASH :: k[..j]
    {
      if k[i] == SLASH {
        prefixes := prefixes + {k[..i]};
      }
    }
  }

  /** Cutting a joined path before its slashes gives exactly its proper ancestors. */
  lemma {:induction false} SlashPrefixesAreAncestors(p: Path, a: Path)
    requires PathOk(p) && PathOk(a) && a != []
    ensures Join(a) in SlashPrefixes(Join(p)) <==> ProperAncestor(a, p)
  {
    var (k, prefix) := (Join(p), Join(a) + [SLASH]);
    JoinAncestor(a, p);
    if Join(a) in SlashPrefixes(k) {
      var i :| 0 <= i < |k| && k[i] == SLASH && k[..i] == Join(a);
      assert k[..i + 1] == prefix;
    }
    if prefix <= k {
      var i := |Join(a)|;
      assert k[i] == prefix[i] == SLASH && k[..i] == Join(a);
    }
  }

  predicate KeysPortable(keys: set<Key>) {
    forall k | k in keys :: PathOk(Split(k)) && Join(Split(k)) == k
  }

  /** A directory is admitted exactly when it is above an expected file, or is or is above an allowed
      empty directory. */
  lemma AdmittedDirectoriesMean(files: set<Key>, empty: set<Key>, d: Path)
    requires PathOk(d) && d != [] && KeysPortable(files) && KeysPortable(empty)
    ensures Join(d) in AdmittedDirectories(files, empty)
       <==> || (exists f | f in files :: ProperAncestor(d, Split(f)))
            || (exists e | e in empty :: d == Split(e) || ProperAncestor(d, Split(e)))
  {
    forall k | k in files + empty
      ensures Join(d) in SlashPrefixes(k) <==> ProperAncestor(d, Split(k))
      ensures k == Join(d) <==> d == Split(k)
    {
      SlashPrefixesAreAncestors(Split(k), d);
      SplitJoin(d);
    }
    var k := Join(d);
    assert k in AdmittedDirectories(files, empty)
      <==> (exists f | f in files :: k in SlashPrefixes(f)) || k in empty
            || (exists e | e in empty :: k in SlashPrefixes(e));
  }

  // ----- Verification

  function TreeOf<Hash>(digest: seq<byte> -> Hash, files: Files): CapturedTree<Hash> {
    CapturedTree(files, digest(TreeFrame(files)))
  }

  /** Capturing an opened directory: the root itself is inspected and checked first. */
  function CaptureFromDir<Hash>(w: World, cfg: Config, digest: seq<byte> -> Hash): Attempt<CapturedTree<Hash>>
    requires TreeOk(w.fs)
  {
    if w.inspect([]).Some? then Err(CaptureError(w.inspect([]).value, []))
    else if w.open([]).Some? then Err(CaptureError(w.open([]).value, []))
    else
      var t :- CaptureTree(w, cfg);
      Ok(TreeOf(digest, t.files))
  }

  function InventoryConfig<Hash>(limits: Limits, expected: CapturedTree<Hash>, empty: set<Key>): Config {
    var directories := AdmittedDirectories(expected.files.Keys, empty);
    Config(limits, |expected.files| + |directories|, Some(Inventory(expected.files.Keys, directories)))
  }

  function VerifyTree<Hash(==)>(w: World, limits: Limits, digest: seq<byte> -> Hash, expected: CapturedTree<Hash>,
                                empty: set<Key>): Attempt<()>
    requires TreeOk(w.fs)
  {
    var actual :- CaptureFromDir(w, InventoryConfig(limits, expected, empty), digest);
    if actual != expected then Err(CaptureError(InventoryMismatch, [])) else Ok(())
  }

  /** A path that can be captured at all: a portable directory or file that is read without trouble. */
  predicate Capturable(w: World, limits: Limits, p: Path) {
    && p in w.fs && p != []
    && w.utf8(Last(p)) && PortableNames.Acceptable(Last(p)) && w.inspect(p).None? && w.open(p).None?
    && match w.fs[p]
       case DirNode => w.list(p).None?
       case FileNode(f) => w.settle(p).None? && |f.bytes| <= limits.maxFileBytes
       case _ => false
  }

  /** Nothing stands in the way of capturing the tree: no links, collisions, failures or oversize bytes. */
  predicate TreeCapturable(w: World, limits: Limits) {
    && w.inspect([]).None? && w.open([]).None? && w.list([]).None?
    && (forall p | p in w.fs :: Capturable(w, limits, p))
    && CollisionFree(w.fold, Keys(w.fs))
    && |Flatten(w.fs)| <= limits.maxFiles && Ahead(w.fs, Order(w.fs)).bytes <= limits.maxTotalBytes
  }

  /** The tree's files are the expected ones, and every directory is admitted. */
  predicate Conforms<Hash(==)>(w: World, digest: seq<byte> -> Hash, expected: CapturedTree<Hash>, empty: set<Key>) {
    && TreeOf(digest, Flatten(w.fs)) == expected
    && DirectoryKeys(w.fs) <= AdmittedDirectories(expected.files.Keys, empty)
  }

  lemma FilesAndDirectories(w: World, limits: Limits)
    requires TreeOk(w.fs) && TreeCapturable(w, limits)
    ensures |w.fs| == |Flatten(w.fs)| + |DirectoryKeys(w.fs)|
  {
    hide FileAt, DirAt, TreeCapturable, Keys;
    forall k | k in Keys(w.fs)
      ensures FileAt(w.fs, k).Some? != DirAt(w.fs, k)
    {
      CapturableKind(w, limits, k);
    }
    var d := DirectoryKeys(w.fs);
    assert Flatten(w.fs).Keys == set k | k in Keys(w.fs) && FileAt(w.fs, k).Some?;
    assert Flatten(w.fs).Keys + d == Keys(w.fs) && Flatten(w.fs).Keys !! d;
    assert |Flatten(w.fs).Keys| == |Flatten(w.fs)|;
    AllKeys(w.fs);
  }

  lemma AllKeys(fs: Tree)
    requires TreeOk(fs)
    ensures |Keys(fs)| == |fs|
  {
    KeyCount(fs, fs.Keys);
    assert JoinAll(fs.Keys) == Keys(fs);
  }

  lemma CapturableKind(w: World, limits: Limits, k: Key)
    requires TreeOk(w.fs) && TreeCapturable(w, limits) && k in Keys(w.fs)
    ensures FileAt(w.fs, k).Some? != DirAt(w.fs, k)
  {
    hide Order, Ahead, Flatten;
    var p :| p in w.fs && Join(p) == k;
    SplitJoin(p);
    assert Capturable(w, limits, p);
  }

  function JoinAll(paths: set<Path>): set<Key> {
    set p | p in paths :: Join(p)
  }

  lemma {:induction false} KeyCount(fs: Tree, paths: set<Path>)
    requires TreeOk(fs) && paths <= fs.Keys
    ensures |JoinAll(paths)| == |paths|
    decreases |paths|
  {
    if paths != {} {
      var p :| p in paths;
      KeyCount(fs, paths - {p});
      assert JoinAll(paths) == JoinAll(paths - {p}) + {Join(p)};
      forall q | q in paths - {p}
        ensures Join(q) != Join(p)
      {
        if Join(q) == Join(p) {
          JoinInjective(p, q);
        }
      }
    }
  }

  lemma SubsetSize<T>(small: set<T>, large: set<T>)
    requires small <= large
    ensures |small| <= |large|
  {
    assert large == small + (large - small);
  }

  lemma AdmittedIsCapturable<Hash>(w: World, limits: Limits, expected: CapturedTree<Hash>, empty: set<Key>, p: Path)
    requires TreeOk(w.fs) && p in w.fs && Flatten(w.fs) == expected.files
    ensures Admitted(w, InventoryConfig(limits, expected, empty), p)
       <==> && Capturable(w, limits, p)
            && (w.fs[p].DirNode? ==> Join(p) in AdmittedDirectories(expected.files.Keys, empty))
  {
    hide AdmittedDirectories;
    SplitJoin(p);
    assert w.fs[p].FileNode? ==> Join(p) in Flatten(w.fs);
  }

  /** The budget of an exact inventory never refuses a tree that conforms to it. */
  lemma BudgetSuffices<Hash>(w: World, limits: Limits, digest: seq<byte> -> Hash, expected: CapturedTree<Hash>,
        empty: set<Key>)
    requires TreeOk(w.fs) && TreeCapturable(w, limits) && Conforms(w, digest, expected, empty)
    ensures |w.fs| <= InventoryConfig(limits, expected, empty).maxEntries
  {
    FilesAndDirectories(w, limits);
    SubsetSize(DirectoryKeys(w.fs), AdmittedDirectories(expected.files.Keys, empty));
  }

  /** Verification succeeds exactly on capturable trees whose files are the expected ones, with the
      expected identity, and whose directories are all admitted. */
  lemma VerifyTreeExactly<Hash>(w: World, limits: Limits, digest: seq<byte> -> Hash, expected: CapturedTree<Hash>,
        empty: set<Key>)
    requires TreeOk(w.fs)
    ensures VerifyTree(w, limits, digest, expected, empty).Ok?
       <==> TreeCapturable(w, limits) && Conforms(w, digest, expected, empty)
  {
    hide Capturable, Admitted, Order, Ahead, CaptureTree, CollisionFree, AdmittedDirectories, FileAt, DirAt, TreeFrame;
    var cfg := InventoryConfig(limits, expected, empty);
    CaptureTreeExactly(w, cfg);
    if Flatten(w.fs) == expected.files {
      forall p | p in w.fs
        ensures Admitted(w, cfg, p)
           <==> && Capturable(w, limits, p)
                && (w.fs[p].DirNode? ==> Join(p) in AdmittedDirectories(expected.files.Keys, empty))
      {
        AdmittedIsCapturable(w, limits, expected, empty, p);
      }
      DirectoriesAre(w.fs);
      if TreeCapturable(w, limits) && Conforms(w, digest, expected, empty) {
        BudgetSuffices(w, limits, digest, expected, empty);
      }
    }
  }

  /** Equal files are not enough: a capturable tree that holds exactly the expected files, in admitted
      directories, is verified exactly when the recorded identity is the one of those files. */
  lemma IdentityDecides<Hash>(w: World, limits: Limits, digest: seq<byte> -> Hash, expected: CapturedTree<Hash>,
        empty: set<Key>)
    requires TreeOk(w.fs) && TreeCapturable(w, limits) && Flatten(w.fs) == expected.files
    requires DirectoryKeys(w.fs) <= AdmittedDirectories(expected.files.Keys, empty)
    ensures VerifyTree(w, limits, digest, expected, empty).Ok? <==> expected.hash == digest(TreeFrame(expected.files))
  {
    hide TreeFrame, TreeCapturable, VerifyTree, AdmittedDirectories;
    VerifyTreeExactly(w, limits, digest, expected, empty);
  }

  lemma DirectoriesAre(fs: Tree)
    requires TreeOk(fs)
    ensures forall p | p in fs :: fs[p].DirNode? <==> Join(p) in DirectoryKeys(fs)
    ensures forall k | k in DirectoryKeys(fs) :: exists p :: p in fs && fs[p].DirNode? && Join(p) == k
  {
    forall p | p in fs
      ensures Split(Join(p)) == p && Join(p) in Keys(fs)
    {
      SplitJoin(p);
    }
  }
}
