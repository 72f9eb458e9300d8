/** Captured files and trees, keyed by the bytes of their portable path. */
module Trees {
  import opened Bytes
  import opened Lexicographic

  datatype FileMode = Regular | Executable

  datatype CapturedFile = CapturedFile(mode: FileMode, bytes: seq<byte>)

  type Files = map<Key, CapturedFile>

  /** A captured tree; `hash` is the content identity of its files. */
  datatype CapturedTree<Hash> = CapturedTree(files: Files, hash: Hash)

  datatype Item<V> = Item(key: Key, value: V)

  /** The entries in key order, as a `BTreeMap` yields them. */
  function Items<V>(m: map<Key, V>): (items: seq<Item<V>>)
    ensures |items| == |m|
  {
    SortedSorts(m.Keys);
    var keys := Sorted(m.Keys);
    seq(|keys|, i requires 0 <= i < |keys| => assert keys[i] in keys; Item(keys[i], m[keys[i]]))
  }

  /** Collecting entries into a map: the last entry for a key wins. */
  function Collect<V>(items: seq<Item<V>>): map<Key, V> {
    if items == [] then map[]
    else
      var last := items[|items| - 1];
      Collect(items[..|items| - 1])[last.key := last.value]
  }

  lemma ItemsHold<V>(m: map<Key, V>)
    ensures forall i | 0 <= i < |Items(m)| ::
      Items(m)[i].key == Sorted(m.Keys)[i] && Items(m)[i].key in m && Items(m)[i].value == m[Items(m)[i].key]
    ensures forall k | k in m :: Item(k, m[k]) in Items(m)
  {
    SortedSorts(m.Keys);
    var keys, items := Sorted(m.Keys), Items(m);
    forall i | 0 <= i < |items|
      ensures items[i].key == keys[i] && items[i].key in m
    {
      assert keys[i] in keys;
    }
    forall k | k in m
      ensures Item(k, m[k]) in items
    {
      var i :| 0 <= i < |keys| && keys[i] == k;
      assert items[i] == Item(k, m[k]);
    }
  }

  /** A map is determined by its ordered entries. */
  lemma ItemsInjective<V>(m: map<Key, V>, n: map<Key, V>)
    requires Items(m) == Items(n)
    ensures m == n
  {
    ItemsHold(m);
    ItemsHold(n);
    forall k | k in m
      ensures k in n && n[k] == m[k]
    {
      var i :| 0 <= i < |Items(n)| && Items(n)[i] == Item(k, m[k]);
    }
    forall k | k in n
      ensures k in m
    {
      var i :| 0 <= i < |Items(m)| && Items(m)[i] == Item(k, n[k]);
    }
  }
}
