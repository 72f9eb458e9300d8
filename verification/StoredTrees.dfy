/** Stored skill trees and native objects (crates/kitrove-agent-skills/src/stored_tree.rs:33-148,
    native_object.rs:38-223). Digests, folding and the length of the rendered metadata are parameters. */
module StoredTrees {
  import opened Outcome
  import opened Bytes
  import opened Paths
  import opened Lexicographic
  import opened Trees
  import opened Frames
  import opened Collisions
  import Portable
  import PortableNames

  const MAX_STORED_METADATA_BYTES: nat := 4 * 1024 * 1024

  datatype StoredError =
    | StoredCollision
    | HashMismatch
    | MetadataLimit
    | UnsupportedVersion
    | PayloadMismatch
    | InvalidDocumentName
    | DocumentMissing
    | InvalidNativeId
    | StandaloneShape

  type Modes = map<Key, FileMode>

  datatype Metadata = Metadata(schemaVersion: nat, modes: Modes)

  datatype Codec<!Hash> = Codec(
    fold: Fold,
    digest: seq<byte> -> Hash,
    renderedLength: Metadata -> nat)

  function HashTreeOf<Hash>(c: Codec<Hash>, files: Files): Hash {
    c.digest(TreeFrame(files))
  }

  /** The key set a stored tree's collision check looks at. */
  function StoredPrefixes(files: Files): set<Key> {
    PrefixKeys(SplitAll(Sorted(files.Keys)))
  }

  function ModesOf(files: Files): Modes {
    map k | k in files :: files[k].mode
  }

  function MetadataOf<Hash>(t: CapturedTree<Hash>): Metadata {
    Metadata(1, ModesOf(t.files))
  }

  function NewStored<Hash(==)>(c: Codec<Hash>, t: CapturedTree<Hash>): Result<CapturedTree<Hash>, StoredError> {
    if !CollisionFree(c.fold, StoredPrefixes(t.files)) then Err(StoredCollision)
    else if HashTreeOf(c, t.files) != t.hash then Err(HashMismatch)
    else if c.renderedLength(MetadataOf(t)) > MAX_STORED_METADATA_BYTES then Err(MetadataLimit)
    else Ok(t)
  }

  /** Two different paths of the tree, files or what stands above them, that fold alike. */
  ghost predicate Clash(fold: Fold, files: Files) {
    exists a, b, p, q :: a in files && b in files && IsPrefix(p, a) && IsPrefix(q, b) && p != q && fold(p) == fold(q)
  }

  lemma ClashExactly(fold: Fold, files: Files)
    ensures CollisionFree(fold, StoredPrefixes(files)) <==> !Clash(fold, files)
  {
    hide Sorted, IsPrefix, PrefixKeys, SplitAll;
    SortedSorts(files.Keys);
    var keys := Sorted(files.Keys);
    forall prefix
      ensures prefix in StoredPrefixes(files) <==> exists k <- keys :: IsPrefix(prefix, k)
    {
      PrefixKeysAre(keys, prefix);
    }
    assert forall k :: k in keys <==> k in files;
  }

  /** A tree is stored exactly when no two of its paths, nor what stands above them, clash, its hash is its own, and
      its metadata is not too long; otherwise the first of these that fails is told. */
  lemma NewStoredExactly<Hash>(c: Codec<Hash>, t: CapturedTree<Hash>)
    ensures NewStored(c, t)
         == if Clash(c.fold, t.files) then Err(StoredCollision)
            else if t.hash != c.digest(TreeFrame(t.files)) then Err(HashMismatch)
            else if c.renderedLength(Metadata(1, map k | k in t.files :: t.files[k].mode)) > 0x40_0000 then
              Err(MetadataLimit)
            else Ok(t)
  {
    hide StoredPrefixes, CollisionFree, Clash, TreeFrame;
    ClashExactly(c.fold, t.files);
  }

  /** Pairs metadata entries with payload entries, position by position. */
  function Zip(modes: seq<Item<FileMode>>, payload: seq<Item<CapturedFile>>): (r: seq<Item<CapturedFile>>)
    requires |modes| == |payload|
    ensures |r| == |modes|
  {
    seq(|modes|, i requires 0 <= i < |modes| =>
      Item(modes[i].key, CapturedFile(modes[i].value, payload[i].value.bytes)))
  }

  function FromMetadata<Hash(==)>(c: Codec<Hash>, m: Metadata, payload: CapturedTree<Hash>)
    : Result<CapturedTree<Hash>, StoredError>
  {
    if m.schemaVersion != 1 then Err(UnsupportedVersion)
    else if |m.modes| != |payload.files| || Sorted(m.modes.Keys) != Sorted(payload.files.Keys) then Err(PayloadMismatch)
    else
      var files := Collect(Zip(Items(m.modes), Items(payload.files)));
      NewStored(c, CapturedTree(files, HashTreeOf(c, files)))
  }

  predicate DistinctKeys<V>(items: seq<Item<V>>) {
    forall i, j | 0 <= i < j < |items| :: items[i].key != items[j].key
  }

  /** Collecting entries with distinct keys keeps every one of them. */
  lemma {:induction false} CollectHolds<V>(items: seq<Item<V>>)
    requires DistinctKeys(items)
    ensures forall i | 0 <= i < |items| ::
              items[i].key in Collect(items) && Collect(items)[items[i].key] == items[i].value
    ensures forall k | k in Collect(items) :: exists i | 0 <= i < |items| :: items[i].key == k
    decreases |items|
  {
    if items != [] {
      var n := |items| - 1;
      var before := items[..n];
      CollectHolds(before);
      forall i | 0 <= i < n
        ensures items[i] == before[i] && items[i].key != items[n].key
      {
      }
      forall k | k in Collect(items)
        ensures exists i | 0 <= i < |items| :: items[i].key == k
      {
        if k in Collect(before) {
          var i :| 0 <= i < |before| && before[i].key == k;
          assert items[i].key == k;
        } else {
          assert items[n].key == k;
        }
      }
    }
  }

  lemma CollectIs<V>(items: seq<Item<V>>, m: map<Key, V>)
    requires DistinctKeys(items)
    requires forall i | 0 <= i < |items| :: items[i].key in m && m[items[i].key] == items[i].value
    requires forall k | k in m :: exists i | 0 <= i < |items| :: items[i].key == k
    ensures Collect(items) == m
  {
    hide Collect;
    CollectHolds(items);
    forall k | k in m
      ensures k in Collect(items) && Collect(items)[k] == m[k]
    {
      var i :| 0 <= i < |items| && items[i].key == k;
    }
  }

  function Rebuilt(modes: Modes, payload: Files): Files
    requires modes.Keys == payload.Keys
  {
    map k | k in modes :: CapturedFile(modes[k], payload[k].bytes)
  }

  lemma ZipItems(modes: Modes, payload: Files)
    requires modes.Keys == payload.Keys
    ensures |Items(modes)| == |Items(payload)| == |Sorted(modes.Keys)|
    ensures var items := Zip(Items(modes), Items(payload));
      && (forall i | 0 <= i < |items| :: items[i].key == Sorted(modes.Keys)[i])
      && forall i | 0 <= i < |items| :: items[i].key in modes && items[i].value == Rebuilt(modes, payload)[items[i].key]
  {
    hide Sorted, Items;
    assert |modes| == |modes.Keys| == |payload.Keys| == |payload|;
    ItemsHold(modes);
    ItemsHold(payload);
  }

  /** The reconstructed files: modes from the metadata, bytes from the payload. */
  lemma ZipHolds(modes: Modes, payload: Files)
    requires modes.Keys == payload.Keys
    ensures |Items(modes)| == |Items(payload)|
    ensures Collect(Zip(Items(modes), Items(payload))) == Rebuilt(modes, payload)
  {
    hide Sorted, Items, Zip, Collect, Less;
    ZipItems(modes, payload);
    SortedSorts(modes.Keys);
    var keys, items := Sorted(modes.Keys), Zip(Items(modes), Items(payload));
    forall i, j | 0 <= i < j < |items|
      ensures items[i].key != items[j].key
    {
      Irreflexive(keys[i]);
    }
    forall k | k in modes
      ensures exists i | 0 <= i < |items| :: items[i].key == k
    {
      assert k in keys;
      var i :| 0 <= i < |keys| && keys[i] == k;
      assert items[i].key == k;
    }
    CollectIs(items, Rebuilt(modes, payload));
  }

  lemma SameKeys(a: set<Key>, b: set<Key>)
    ensures Sorted(a) == Sorted(b) <==> a == b
  {
    SortedSorts(a);
    SortedSorts(b);
    if Sorted(a) == Sorted(b) {
      assert forall x :: x in a <==> x in b;
    }
  }

  /** Reconstruction takes the metadata's paths and modes and the payload's bytes, and nothing else. */
  lemma FromMetadataExactly<Hash>(c: Codec<Hash>, m: Metadata, payload: CapturedTree<Hash>)
    ensures FromMetadata(c, m, payload)
         == if m.schemaVersion != 1 then Err(UnsupportedVersion)
            else if m.modes.Keys != payload.files.Keys then Err(PayloadMismatch)
            else
              var files := Rebuilt(m.modes, payload.files);
              NewStored(c, CapturedTree(files, HashTreeOf(c, files)))
  {
    hide Sorted, Items, Collect, Zip, TreeFrame;
    SameKeys(m.modes.Keys, payload.files.Keys);
    assert |m.modes| == |m.modes.Keys| && |payload.files| == |payload.files.Keys|;
    if m.modes.Keys == payload.files.Keys {
      ZipHolds(m.modes, payload.files);
    }
  }

  /** A stored tree comes back from its metadata and its bytes, whatever modes and hash the payload carries. */
  lemma StoredRoundTrip<Hash>(c: Codec<Hash>, t: CapturedTree<Hash>, payload: CapturedTree<Hash>)
    requires NewStored(c, t).Ok? && payload.files.Keys == t.files.Keys
    requires forall k | k in t.files :: payload.files[k].bytes == t.files[k].bytes
    ensures FromMetadata(c, MetadataOf(t), payload) == Ok(t)
  {
    hide StoredPrefixes, TreeFrame;
    FromMetadataExactly(c, MetadataOf(t), payload);
    assert ModesOf(t.files).Keys == t.files.Keys;
    assert Rebuilt(ModesOf(t.files), payload.files) == t.files;
  }

  // ----- Native objects

  datatype Object<Hash> = Object(layout: Layout, documentName: Key, nativeId: seq<byte>,
                                 tree: CapturedTree<Hash>, hash: Hash)

  datatype ObjectMetadata = ObjectMetadata(schemaVersion: nat, layout: Layout, documentName: Key, nativeId: seq<byte>,
                                           tree: Metadata)

  datatype ObjectCodec<!Hash> = ObjectCodec(
    tree: Codec<Hash>,
    render: Hash -> seq<byte>,
    renderedLength: ObjectMetadata -> nat)

  predicate PortablePathOk(k: Key) {
    forall n <- Split(k) :: Portable.ParsesAsComponent(n)
  }

  function ValidateObject<Hash>(layout: Layout, documentName: Key, nativeId: seq<byte>, t: CapturedTree<Hash>)
    : Result<(), StoredError>
  {
    if !PortablePathOk(documentName) || SLASH in documentName then Err(InvalidDocumentName)
    else if documentName !in t.files then Err(DocumentMissing)
    else if nativeId == [] || |nativeId| > 256 || Portable.HasControl(nativeId) then Err(InvalidNativeId)
    else if layout == Standalone && |t.files| != 1 then Err(StandaloneShape)
    else Ok(())
  }

  function ObjectHash<Hash>(c: ObjectCodec<Hash>, layout: Layout, documentName: Key, nativeId: seq<byte>,
                            treeHash: Hash): Hash {
    c.tree.digest(ObjectFrame(NativeObject(layout, documentName, nativeId, c.render(treeHash))))
  }

  function ObjectMetadataOf<Hash>(o: Object<Hash>): ObjectMetadata {
    ObjectMetadata(1, o.layout, o.documentName, o.nativeId, MetadataOf(o.tree))
  }

  function NewObject<Hash(==)>(c: ObjectCodec<Hash>, layout: Layout, documentName: Key, nativeId: seq<byte>,
                               t: CapturedTree<Hash>)
    : Result<Object<Hash>, StoredError>
  {
    var stored :- NewStored(c.tree, t);
    var _ :- ValidateObject(layout, documentName, nativeId, stored);
    var o := Object(layout, documentName, nativeId, stored, ObjectHash(c, layout, documentName, nativeId, stored.hash));
    if c.renderedLength(ObjectMetadataOf(o)) > MAX_STORED_METADATA_BYTES then Err(MetadataLimit) else Ok(o)
  }

  function ObjectFromStored<Hash(==)>(c: ObjectCodec<Hash>, m: ObjectMetadata, payload: CapturedTree<Hash>)
    : Result<Object<Hash>, StoredError>
  {
    if m.schemaVersion != 1 then Err(UnsupportedVersion)
    else
      var stored :- FromMetadata(c.tree, m.tree, payload);
      NewObject(c, m.layout, m.documentName, m.nativeId, stored)
  }

  /** What every platform takes for one component of a path. */
  predicate OneComponent(name: Key) {
    && name != [] && name != ['.' as int] && name != ['.' as int, '.' as int]
    && forall b <- name :: b !in {'/' as int, '\\' as int, ':' as int}
  }

  lemma OneComponentExactly(name: Key)
    ensures PortablePathOk(name) && SLASH !in name <==> OneComponent(name)
  {
    assert OneComponent(name) <==> Portable.ParsesAsComponent(name) by {
      assert [Portable.DOT] == ['.' as int] && [Portable.DOT, Portable.DOT] == ['.' as int, '.' as int];
    }
    if SLASH !in name {
      SplitName(name, []);
      assert Split(name) == [name];
    }
    hide OneComponent, Portable.ParsesAsComponent;
  }

  /** An object is made exactly of a tree that can be stored, one of whose files the document's name is, an identifier
      of 1 to 256 bytes without control characters and, for a standalone skill, a single file; its hash is that of its
      frame. */
  lemma NewObjectExactly<Hash>(c: ObjectCodec<Hash>, layout: Layout, documentName: Key, nativeId: seq<byte>,
                               t: CapturedTree<Hash>, o: Object<Hash>)
    ensures NewObject(c, layout, documentName, nativeId, t) == Ok(o)
       <==> && NewStored(c.tree, t).Ok? && OneComponent(documentName) && documentName in t.files
            && 1 <= |nativeId| <= 256 && (forall i | 0 <= i < |nativeId| :: !PortableNames.IsControlAt(nativeId, i))
            && (layout == Standalone ==> |t.files| == 1)
            && o == Object(layout, documentName, nativeId, t,
                           c.tree.digest(ObjectFrame(NativeObject(layout, documentName, nativeId, c.render(t.hash)))))
            && c.renderedLength(ObjectMetadata(1, layout, documentName, nativeId, MetadataOf(t))) <= 0x40_0000
  {
    hide StoredPrefixes, TreeFrame, ObjectFrame, PortablePathOk, MetadataOf;
    OneComponentExactly(documentName);
    assert forall i | 0 <= i < |nativeId| :: Portable.ControlAt(nativeId, i) == PortableNames.IsControlAt(nativeId, i);
  }

  /** A native object comes back from its metadata and its bytes, its hash included. */
  lemma ObjectRoundTrip<Hash>(c: ObjectCodec<Hash>, layout: Layout, documentName: Key, nativeId: seq<byte>,
                              t: CapturedTree<Hash>, payload: CapturedTree<Hash>)
    requires var r := NewObject(c, layout, documentName, nativeId, t); r.Ok?
    requires payload.files.Keys == t.files.Keys
    requires forall k | k in t.files :: payload.files[k].bytes == t.files[k].bytes
    ensures var o := NewObject(c, layout, documentName, nativeId, t).value;
      ObjectFromStored(c, ObjectMetadataOf(o), payload) == Ok(o)
  {
    hide ObjectHash, ValidateObject, FromMetadata;
    StoredRoundTrip(c.tree, t, payload);
  }
}
