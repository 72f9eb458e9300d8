/** The bounded frontmatter decoder (crates/kitrove-agent-skills/src/frontmatter.rs:237-457, 639-694). It
    reads the events of a YAML document, here the tree they describe with every alias expanded. */
module Yaml {
  import opened Outcome
  import opened Bytes

  datatype Yaml =
    | Null
    | Boolean(flag: bool)
    | Number(text: string)
    | Str(text: string)
    | Sequence(items: seq<Yaml>)
    | Mapping(entries: seq<Entry>)

  datatype Entry = Entry(key: Yaml, value: Yaml)

  datatype Value =
    | NullValue
    | BooleanValue(flag: bool)
    | NumberValue(text: string)
    | StringValue(text: string)
    | SequenceValue(items: seq<Value>)
    | MappingValue(values: map<string, Value>)

  datatype Failure =
    | DuplicateTopLevelKey
    | DuplicateMetadataKey
    | DuplicateMappingKey
    | NonStringTopLevelKey
    | InvalidMetadata
    | DepthLimit
    | NodeLimit
    | AliasLimit

  const MAX_YAML_DEPTH: nat := 64
  const MAX_YAML_NODES: nat := 4096
  const MAX_YAML_ALIAS_EXPANDED_NODES: nat := 4096

  // ----- What a document is

  /** Nodes, keys included. */
  function Size(y: Yaml): nat {
    match y
    case Sequence(items) => 1 + SizeItems(items)
    case Mapping(entries) => 1 + SizeEntries(entries)
    case _ => 1
  }

  function SizeItems(items: seq<Yaml>): nat {
    if items == [] then 0 else Size(items[0]) + SizeItems(items[1..])
  }

  function SizeEntries(entries: seq<Entry>): nat {
    if entries == [] then 0
    else
      assert entries decreases to entries[0];
      1 + Size(entries[0].value) + SizeEntries(entries[1..])
  }

  /** Levels of nesting below a node. */
  function Height(y: Yaml): nat {
    match y
    case Sequence(items) => HeightItems(items)
    case Mapping(entries) => HeightEntries(entries)
    case _ => 0
  }

  function HeightItems(items: seq<Yaml>): nat {
    if items == [] then 0 else Max(1 + Height(items[0]), HeightItems(items[1..]))
  }

  function HeightEntries(entries: seq<Entry>): nat {
    if entries == [] then 0
    else
      assert entries decreases to entries[0];
      Max(1 + Height(entries[0].value), HeightEntries(entries[1..]))
  }

  predicate StringKeys(entries: seq<Entry>) {
    forall i | 0 <= i < |entries| :: entries[i].key.Str?
  }

  predicate DistinctKeys(entries: seq<Entry>) {
    forall i, j | 0 <= i < j < |entries| :: entries[i].key != entries[j].key
  }

  /** Every mapping has string keys only, and none twice. */
  predicate Strict(y: Yaml) {
    match y
    case Sequence(items) => forall i | 0 <= i < |items| :: Strict(items[i])
    case Mapping(entries) => StrictEntries(entries)
    case _ => true
  }

  predicate StrictEntries(entries: seq<Entry>) {
    && StringKeys(entries) && DistinctKeys(entries)
    && forall i | 0 <= i < |entries| :: assert entries decreases to entries[i]; Strict(entries[i].value)
  }

  /** The decoded value. */
  function ValueOf(y: Yaml): Value
    requires Strict(y)
  {
    match y
    case Null => NullValue
    case Boolean(flag) => BooleanValue(flag)
    case Number(text) => NumberValue(text)
    case Str(text) => StringValue(text)
    case Sequence(items) => SequenceValue(ValuesOf(items))
    case Mapping(entries) => MappingValue(MapOf(entries))
  }

  function ValuesOf(items: seq<Yaml>): (values: seq<Value>)
    requires forall i | 0 <= i < |items| :: Strict(items[i])
    ensures |values| == |items| && forall i | 0 <= i < |items| :: values[i] == ValueOf(items[i])
  {
    if items == [] then [] else ValuesOf(items[..|items| - 1]) + [ValueOf(items[|items| - 1])]
  }

  function MapOf(entries: seq<Entry>): map<string, Value>
    requires StrictEntries(entries)
  {
    if entries == [] then map[]
    else
      var e := entries[|entries| - 1];
      assert entries decreases to e;
      MapOf(entries[..|entries| - 1])[e.key.text := ValueOf(e.value)]
  }

  predicate HasKey(entries: seq<Entry>, k: string) {
    exists i | 0 <= i < |entries| :: entries[i].key == Str(k)
  }

  lemma MapOfSnoc(entries: seq<Entry>)
    requires StrictEntries(entries) && entries != []
    ensures var front, e := entries[..|entries| - 1], entries[|entries| - 1];
      && StrictEntries(front) && Strict(e.value) && e.key.Str? && !HasKey(front, e.key.text)
      && (forall k :: HasKey(entries, k) <==> k == e.key.text || HasKey(front, k))
      && MapOf(entries) == MapOf(front)[e.key.text := ValueOf(e.value)]
  {
    hide Strict, ValueOf;
    var n := |entries| - 1;
    var front, e := entries[..n], entries[n];
    assert forall i | 0 <= i < n :: front[i] == entries[i] && entries[i].key != entries[n].key;
    forall k
      ensures HasKey(entries, k) <==> k == e.key.text || HasKey(front, k)
    {
      if HasKey(front, k) {
        var i :| 0 <= i < n && front[i].key == Str(k);
        assert entries[i].key == Str(k);
      }
      if HasKey(entries, k) && k != e.key.text {
        var i :| 0 <= i <= n && entries[i].key == Str(k);
        assert front[i].key == Str(k);
      }
      if k == e.key.text {
        assert entries[n].key == Str(k);
      }
    }
  }

  lemma {:induction false} MapOfKeys(entries: seq<Entry>)
    requires StrictEntries(entries)
    ensures |MapOf(entries)| == |entries| && forall k :: k in MapOf(entries) <==> HasKey(entries, k)
    decreases |entries|
  {
    if entries == [] {
      assert forall k :: !HasKey(entries, k);
    } else {
      MapOfSnoc(entries);
      hide Strict, ValueOf, MapOf, StrictEntries, HasKey;
      MapOfKeys(entries[..|entries| - 1]);
    }
  }

  lemma {:induction false} MapOfValue(entries: seq<Entry>, i: nat)
    requires StrictEntries(entries) && i < |entries|
    ensures var k := entries[i].key.text;
      k in MapOf(entries) && MapOf(entries)[k] == ValueOf(entries[i].value)
    decreases |entries|
  {
    MapOfSnoc(entries);
    hide Strict, ValueOf, MapOf;
    var n := |entries| - 1;
    if i < n {
      assert entries[..n][i] == entries[i] && entries[i].key != entries[n].key;
      MapOfValue(entries[..n], i);
    }
  }

  /** All values are strings. */
  predicate Flat(entries: seq<Entry>) {
    forall i | 0 <= i < |entries| :: entries[i].value.Str?
  }

  lemma {:induction false} FlatSize(entries: seq<Entry>)
    requires Flat(entries)
    ensures SizeEntries(entries) == 2 * |entries| && HeightEntries(entries) <= 1
    decreases |entries|
  {
    if entries != [] {
      assert entries[0].value.Str?;
      assert forall i | 0 <= i < |entries[1..]| :: entries[1..][i] == entries[i + 1];
      FlatSize(entries[1..]);
    }
  }

  // ----- Reading a document: what every call leaves in the shared budget

  /** Which mapping is being read; it decides how its bad keys are reported. */
  datatype Site = TopLevel | Metadata | Inner

  function KeyFailure(site: Site): Option<Failure> {
    match site
    case TopLevel => Some(NonStringTopLevelKey)
    case Metadata => Some(InvalidMetadata)
    case Inner => None
  }

  function DuplicateFailure(site: Site): Failure {
    match site
    case TopLevel => DuplicateTopLevelKey
    case Metadata => DuplicateMetadataKey
    case Inner => DuplicateMappingKey
  }

  function ValueSite(site: Site, key: string): Site {
    if site == TopLevel && key == "metadata" then Metadata else Inner
  }

  /** The node count after reading, or what the failure cell then holds. */
  type Tally = Result<nat, Option<Failure>>

  function ClaimCount(depth: nat, nodes: nat, aliases: bool): Tally {
    var limit := if aliases then MAX_YAML_ALIAS_EXPANDED_NODES else MAX_YAML_NODES;
    if depth > MAX_YAML_DEPTH then Err(Some(DepthLimit))
    else if nodes + 1 > limit then Err(Some(if aliases then AliasLimit else NodeLimit))
    else Ok(nodes + 1)
  }

  function Count(y: Yaml, depth: nat, nodes: nat, aliases: bool, site: Site): Tally
    decreases y
  {
    var claimed :- ClaimCount(depth, nodes, aliases);
    match y
    case Sequence(items) => CountItems(items, depth + 1, claimed, aliases)
    case Mapping(entries) => CountEntries(entries, {}, depth + 1, claimed, aliases, site)
    case _ => Ok(claimed)
  }

  function CountItems(items: seq<Yaml>, depth: nat, nodes: nat, aliases: bool): Tally
    decreases items
  {
    if items == [] then Ok(nodes)
    else
      var after :- Count(items[0], depth, nodes, aliases, Inner);
      CountItems(items[1..], depth, after, aliases)
  }

  function CountKey(key: Yaml, depth: nat, nodes: nat, aliases: bool, site: Site): Tally {
    var claimed :- ClaimCount(depth, nodes, aliases);
    if key.Str? then Ok(claimed) else Err(KeyFailure(site))
  }

  function CountEntries(entries: seq<Entry>, seen: set<string>, depth: nat, nodes: nat, aliases: bool, site: Site)
    : Tally
    decreases entries
  {
    if entries == [] then Ok(nodes)
    else
      var keyed :- CountKey(entries[0].key, depth, nodes, aliases, site);
      var key := entries[0].key.text;
      if key in seen then Err(Some(DuplicateFailure(site)))
      else
        assert entries decreases to entries[0];
        var after :- Count(entries[0].value, depth, keyed, aliases, ValueSite(site, key));
        CountEntries(entries[1..], seen + {key}, depth, after, aliases, site)
  }

  /** The whole document: the root is claimed at depth 0 and must be a mapping. */
  function CountDocument(root: Yaml, aliases: bool): Tally {
    if root.Mapping? then Count(root, 0, 0, aliases, TopLevel) else Err(None)
  }

  // ----- The decoder accepts exactly the strict documents within the limits

  predicate FreshKeys(entries: seq<Entry>, seen: set<string>) {
    forall i | 0 <= i < |entries| :: entries[i].key.Str? ==> entries[i].key.text !in seen
  }

  predicate AllStrict(items: seq<Yaml>) {
    forall i | 0 <= i < |items| :: Strict(items[i])
  }

  lemma StrictCons(e: Entry, rest: seq<Entry>, seen: set<string>)
    requires e.key.Str? && e.key.text !in seen
    ensures StrictEntries([e] + rest) && FreshKeys([e] + rest, seen)
       <==> Strict(e.value) && StrictEntries(rest) && FreshKeys(rest, seen + {e.key.text})
  {
    hide Strict;
    var all := [e] + rest;
    assert forall i | 0 <= i < |rest| :: rest[i] == all[i + 1];
    if StrictEntries(all) && FreshKeys(all, seen) {
      assert Strict(all[0].value);
    }
    if Strict(e.value) && StrictEntries(rest) && FreshKeys(rest, seen + {e.key.text}) {
      forall i, j | 0 <= i < j < |all|
        ensures all[i].key != all[j].key
      {
        assert all[j] == rest[j - 1];
        if i > 0 {
          assert all[i] == rest[i - 1];
        }
      }
      forall i | 0 <= i < |all|
        ensures all[i].key.Str? && all[i].key.text !in seen && Strict(all[i].value)
      {
        if i > 0 {
          assert all[i] == rest[i - 1];
        }
      }
    }
  }

  /** Reading succeeds exactly on strict trees within the limits, and then the count has grown by their
      size; a limit is only reported when it is exceeded, any other failure only of a tree that is not
      strict. */
  predicate CountMeans(r: Tally, strict: bool, reach: nat, total: nat, aliases: bool) {
    match r
    case Ok(n) => strict && reach <= MAX_YAML_DEPTH && total <= MAX_YAML_NODES && n == total
    case Err(f) =>
      if f == Some(DepthLimit) then reach > MAX_YAML_DEPTH
      else if f == Some(NodeLimit) then !aliases && total > MAX_YAML_NODES
      else if f == Some(AliasLimit) then aliases && total > MAX_YAML_NODES
      else !strict
  }

  lemma {:induction false} CountExactly(y: Yaml, depth: nat, nodes: nat, aliases: bool, site: Site)
    ensures CountMeans(Count(y, depth, nodes, aliases, site), Strict(y), depth + Height(y), nodes + Size(y), aliases)
    decreases y
  {
    if depth <= MAX_YAML_DEPTH && nodes + 1 <= MAX_YAML_NODES {
      match y
      case Sequence(items) => CountItemsExactly(items, depth + 1, nodes + 1, aliases);
      case Mapping(entries) =>
        CountEntriesExactly(entries, {}, depth + 1, nodes + 1, aliases, site);
        assert FreshKeys(entries, {});
      case _ =>
    }
  }

  lemma {:induction false} CountItemsExactly(items: seq<Yaml>, depth: nat, nodes: nat, aliases: bool)
    requires 0 < depth <= MAX_YAML_DEPTH + 1 && nodes <= MAX_YAML_NODES
    ensures CountMeans(CountItems(items, depth, nodes, aliases), AllStrict(items),
                       depth - 1 + HeightItems(items), nodes + SizeItems(items), aliases)
    decreases items
  {
    if items != [] {
      hide Strict, Height, Size, Count;
      var y, rest := items[0], items[1..];
      assert items == [y] + rest;
      assert AllStrict(items) <==> Strict(y) && AllStrict(rest);
      CountExactly(y, depth, nodes, aliases, Inner);
      var r := Count(y, depth, nodes, aliases, Inner);
      if r.Ok? {
        CountItemsExactly(rest, depth, r.value, aliases);
      }
    }
  }

  lemma {:induction false} CountEntriesExactly(entries: seq<Entry>, seen: set<string>, depth: nat, nodes: nat,
                                               aliases: bool, site: Site)
    requires 0 < depth <= MAX_YAML_DEPTH + 1 && nodes <= MAX_YAML_NODES
    ensures CountMeans(CountEntries(entries, seen, depth, nodes, aliases, site),
                       StrictEntries(entries) && FreshKeys(entries, seen),
                       depth - 1 + HeightEntries(entries), nodes + SizeEntries(entries), aliases)
    decreases entries
  {
    if entries != [] {
      hide Strict, Height, Size, Count;
      var e, rest := entries[0], entries[1..];
      assert entries decreases to e;
      assert entries == [e] + rest;
      if e.key.Str? && e.key.text !in seen {
        StrictCons(e, rest, seen);
        if CountKey(e.key, depth, nodes, aliases, site).Ok? {
          var value := ValueSite(site, e.key.text);
          CountExactly(e.value, depth, nodes + 1, aliases, value);
          var r := Count(e.value, depth, nodes + 1, aliases, value);
          if r.Ok? {
            CountEntriesExactly(rest, seen + {e.key.text}, depth, r.value, aliases, site);
          }
        }
      }
    }
  }

  /** The decoder accepts a document exactly when it is a mapping of at most 4096 nodes and 64 levels whose
      mappings have only string keys, none of them twice. The count is then its size. */
  lemma DocumentExactly(root: Yaml, aliases: bool)
    ensures CountDocument(root, aliases).Ok?
       <==> root.Mapping? && Strict(root) && Height(root) <= MAX_YAML_DEPTH && Size(root) <= MAX_YAML_NODES
    ensures CountDocument(root, aliases).Ok? ==> CountDocument(root, aliases).value == Size(root)
  {
    CountExactly(root, 0, 0, aliases, TopLevel);
  }

  // ----- The alias scanner's answer

  function WithAliases(r: Tally): Tally {
    if r == Err(Some(NodeLimit)) then Err(Some(AliasLimit)) else r
  }

  lemma {:induction false} AliasesOnlyRename(y: Yaml, depth: nat, nodes: nat, site: Site)
    ensures Count(y, depth, nodes, true, site) == WithAliases(Count(y, depth, nodes, false, site))
    decreases y
  {
    match y
    case Sequence(items) => AliasesOnlyRenameItems(items, depth + 1, nodes + 1);
    case Mapping(entries) => AliasesOnlyRenameEntries(entries, {}, depth + 1, nodes + 1, site);
    case _ =>
  }

  lemma {:induction false} AliasesOnlyRenameItems(items: seq<Yaml>, depth: nat, nodes: nat)
    ensures CountItems(items, depth, nodes, true) == WithAliases(CountItems(items, depth, nodes, false))
    decreases items
  {
    if items != [] {
      hide Count;
      AliasesOnlyRename(items[0], depth, nodes, Inner);
      var r := Count(items[0], depth, nodes, false, Inner);
      if r.Ok? {
        AliasesOnlyRenameItems(items[1..], depth, r.value);
      }
    }
  }

  lemma {:induction false} AliasesOnlyRenameEntries(entries: seq<Entry>, seen: set<string>, depth: nat, nodes: nat,
                                                    site: Site)
    ensures CountEntries(entries, seen, depth, nodes, true, site)
         == WithAliases(CountEntries(entries, seen, depth, nodes, false, site))
    decreases entries
  {
    if entries != [] {
      hide Count;
      var e := entries[0];
      assert entries decreases to e;
      if CountKey(e.key, depth, nodes, false, site).Ok? {
        AliasesOnlyRename(e.value, depth, nodes + 1, ValueSite(site, e.key.text));
        var r := Count(e.value, depth, nodes + 1, false, ValueSite(site, e.key.text));
        if r.Ok? {
          AliasesOnlyRenameEntries(entries[1..], seen + {e.key.text}, depth, r.value, site);
        }
      }
    }
  }

  /** The scanner's answer changes an exhausted node budget's name and nothing else. */
  lemma DocumentAliases(root: Yaml)
    ensures CountDocument(root, true) == WithAliases(CountDocument(root, false))
  {
    AliasesOnlyRename(root, 0, 0, TopLevel);
  }

  // ----- Decoding loses nothing but the order of a mapping's entries

  predicate Same(a: Yaml, b: Yaml) {
    match a
    case Sequence(items) =>
      b.Sequence? && |items| == |b.items| && forall i | 0 <= i < |items| :: Same(items[i], b.items[i])
    case Mapping(entries) => b.Mapping? && SameEntries(entries, b.entries)
    case _ => a == b
  }

  predicate SameEntries(a: seq<Entry>, b: seq<Entry>) {
    |a| == |b| && forall i | 0 <= i < |a| :: assert a decreases to a[i]; SameAs(a[i], b)
  }

  predicate SameAs(e: Entry, among: seq<Entry>) {
    exists j | 0 <= j < |among| :: e.key == among[j].key && Same(e.value, among[j].value)
  }

  lemma {:induction false} LosesNothing(a: Yaml, b: Yaml)
    requires Strict(a) && Strict(b)
    ensures ValueOf(a) == ValueOf(b) <==> Same(a, b)
    decreases a
  {
    match a
    case Sequence(items) =>
      if b.Sequence? && |items| == |b.items| {
        forall i | 0 <= i < |items|
          ensures ValueOf(items[i]) == ValueOf(b.items[i]) <==> Same(items[i], b.items[i])
        {
          LosesNothing(items[i], b.items[i]);
        }
      }
    case Mapping(entries) =>
      if b.Mapping? {
        forall i, j | 0 <= i < |entries| && 0 <= j < |b.entries|
          ensures ValueOf(entries[i].value) == ValueOf(b.entries[j].value)
               <==> Same(entries[i].value, b.entries[j].value)
        {
          assert entries decreases to entries[i];
          LosesNothing(entries[i].value, b.entries[j].value);
        }
        SameMappings(entries, b.entries);
      }
    case _ =>
  }

  /** The mapping case, given that the values' case is settled. */
  lemma SameMappings(a: seq<Entry>, b: seq<Entry>)
    requires StrictEntries(a) && StrictEntries(b)
    requires forall i, j | 0 <= i < |a| && 0 <= j < |b| ::
      ValueOf(a[i].value) == ValueOf(b[j].value) <==> Same(a[i].value, b[j].value)
    ensures MapOf(a) == MapOf(b) <==> SameEntries(a, b)
  {
    hide Strict, ValueOf, Same, MapOf, HasKey;
    MapOfKeys(a);
    MapOfKeys(b);
    if MapOf(a) == MapOf(b) {
      forall i | 0 <= i < |a|
        ensures SameAs(a[i], b)
      {
        MapOfValue(a, i);
        var j := KeyIndex(b, a[i].key.text);
      }
    }
    if SameEntries(a, b) {
      SameMappingsBack(a, b);
    }
  }

  lemma KeyIndex(entries: seq<Entry>, k: string) returns (i: nat)
    requires StrictEntries(entries) && k in MapOf(entries)
    ensures i < |entries| && entries[i].key == Str(k) && MapOf(entries)[k] == ValueOf(entries[i].value)
  {
    hide Strict, ValueOf, MapOf;
    MapOfKeys(entries);
    i :| 0 <= i < |entries| && entries[i].key == Str(k);
    MapOfValue(entries, i);
  }

  lemma SameMappingsBack(a: seq<Entry>, b: seq<Entry>)
    requires StrictEntries(a) && StrictEntries(b) && SameEntries(a, b)
    requires forall i, j | 0 <= i < |a| && 0 <= j < |b| ::
      ValueOf(a[i].value) == ValueOf(b[j].value) <==> Same(a[i].value, b[j].value)
    ensures MapOf(a) == MapOf(b)
  {
    hide Strict, ValueOf, Same, MapOf;
    MapOfKeys(a);
    MapOfKeys(b);
    var m, n := MapOf(a), MapOf(b);
    forall k | k in m
      ensures k in n && m[k] == n[k]
    {
      var i := KeyIndex(a, k);
      assert SameAs(a[i], b);
      var j :| 0 <= j < |b| && a[i].key == b[j].key && Same(a[i].value, b[j].value);
      MapOfValue(b, j);
    }
    SubsetSize(m.Keys, n.Keys);
  }

  lemma {:induction false} SubsetSize<T>(a: set<T>, b: set<T>)
    requires a <= b && |a| == |b|
    ensures a == b
  {
    assert b == a + (b - a) && |b| == |a| + |b - a|;
  }
}
