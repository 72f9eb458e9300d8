/** Captured trees as stored trees: the capture's registry already implies the stored tree's check. */
module StorableCaptures {
  import opened Outcome
  import opened Paths
  import opened Lexicographic
  import opened Trees
  import opened Frames
  import opened Collisions
  import opened FileTree
  import opened Capture
  import opened StoredTrees

  lemma {:induction false} AncestorsStand(fs: Tree, p: Path, m: nat)
    requires TreeOk(fs) && p in fs && 0 < m <= |p|
    ensures p[..m] in fs
    decreases |p| - m
  {
    if m < |p| {
      AncestorsStand(fs, p, m + 1);
      assert Parent(p[..m + 1]) == p[..m];
    } else {
      assert p[..m] == p;
    }
  }

  /** Every prefix of a captured file's path was registered during the capture. */
  lemma PrefixesStand(fs: Tree)
    requires TreeOk(fs)
    ensures StoredPrefixes(Flatten(fs)) <= Keys(fs)
  {
    hide Sorted;
    var files := Flatten(fs);
    SortedSorts(files.Keys);
    var keys := Sorted(files.Keys);
    var paths := SplitAll(keys);
    forall key | key in PrefixKeys(paths)
      ensures key in Keys(fs)
    {
      var i, m :| 0 <= i < |paths| && 0 < m <= |paths[i]| && Join(paths[i][..m]) == key;
      assert keys[i] in keys;
      AncestorsStand(fs, Split(keys[i]), m);
    }
  }

  /** A successful capture can be stored, unless its rendered metadata is too long. */
  lemma CaptureIsStorable<Hash>(w: World, cfg: Config, c: Codec<Hash>)
    requires TreeOk(w.fs) && c.fold == w.fold && CaptureTree(w, cfg).Ok?
    ensures var files := CaptureTree(w, cfg).value.files;
      var t := CapturedTree(files, HashTreeOf(c, files));
      NewStored(c, t)
      == if c.renderedLength(MetadataOf(t)) > MAX_STORED_METADATA_BYTES then Err(MetadataLimit) else Ok(t)
  {
    hide CaptureTree, StoredPrefixes, Flatten, Keys, Order, Ahead, TreeFrame;
    CaptureTreeExactly(w, cfg);
    PrefixesStand(w.fs);
    FreeWithin(w.fold, StoredPrefixes(Flatten(w.fs)), Keys(w.fs));
  }
}
