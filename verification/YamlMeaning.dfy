/** What a decoded value says of its document, and what a refusal does
    (crates/kitrove-agent-skills/src/frontmatter.rs:286-359, 639-694). */
module YamlMeaning {
  import opened Outcome
  import opened Yaml

  // ----- Values

  /** The value says what the tree does; a mapping has each of its keys, and no other. */
  predicate Denotes(y: Yaml, v: Value) {
    match y
    case Null => v == NullValue
    case Boolean(flag) => v == BooleanValue(flag)
    case Number(text) => v == NumberValue(text)
    case Str(text) => v == StringValue(text)
    case Sequence(items) =>
      v.SequenceValue? && |v.items| == |items| && forall i | 0 <= i < |items| :: Denotes(items[i], v.items[i])
    case Mapping(entries) => v.MappingValue? && DenotesEntries(entries, v.values)
  }

  predicate DenotesEntries(entries: seq<Entry>, values: map<string, Value>) {
    && (forall k | k in values :: HasKey(entries, k))
    && forall i | 0 <= i < |entries| :: assert entries decreases to entries[i]; DenotesEntry(entries[i], values)
  }

  predicate DenotesEntry(e: Entry, values: map<string, Value>) {
    e.key.Str? && e.key.text in values && Denotes(e.value, values[e.key.text])
  }

  lemma {:induction false} DenotesExactly(y: Yaml, v: Value)
    requires Strict(y)
    ensures ValueOf(y) == v <==> Denotes(y, v)
    decreases y
  {
    match y
    case Sequence(items) =>
      if v.SequenceValue? && |v.items| == |items| {
        forall i | 0 <= i < |items|
          ensures ValueOf(items[i]) == v.items[i] <==> Denotes(items[i], v.items[i])
        {
          DenotesExactly(items[i], v.items[i]);
        }
      }
    case Mapping(entries) =>
      if v.MappingValue? {
        forall i | 0 <= i < |entries| && entries[i].key.text in v.values
          ensures var w := v.values[entries[i].key.text];
            Denotes(entries[i].value, w) <==> ValueOf(entries[i].value) == w
        {
          assert entries decreases to entries[i];
          DenotesExactly(entries[i].value, v.values[entries[i].key.text]);
        }
        MappingDenotes(entries, v.values);
      }
    case _ =>
  }

  lemma MappingDenotes(entries: seq<Entry>, values: map<string, Value>)
    requires StrictEntries(entries)
    requires forall i | 0 <= i < |entries| && entries[i].key.text in values ::
      (Denotes(entries[i].value, values[entries[i].key.text])
       <==> ValueOf(entries[i].value) == values[entries[i].key.text])
    ensures MapOf(entries) == values <==> DenotesEntries(entries, values)
  {
    hide Strict, ValueOf, MapOf, Denotes;
    MapOfKeys(entries);
    forall i | 0 <= i < |entries|
      ensures entries[i].key.text in MapOf(entries)
              && MapOf(entries)[entries[i].key.text] == ValueOf(entries[i].value)
    {
      MapOfValue(entries, i);
    }
    if DenotesEntries(entries, values) {
      forall k | k in values
        ensures k in MapOf(entries) && MapOf(entries)[k] == values[k]
      {
        var i := KeyIndex(entries, k);
        assert DenotesEntry(entries[i], values);
      }
      forall k | k in MapOf(entries)
        ensures k in values
      {
        var i := KeyIndex(entries, k);
        assert DenotesEntry(entries[i], values);
      }
    }
  }

  // ----- Faults

  datatype Fault = OddKey | RepeatedKey

  predicate FaultAt(entries: seq<Entry>, fault: Fault) {
    match fault
    case OddKey => exists i | 0 <= i < |entries| :: !entries[i].key.Str?
    case RepeatedKey => exists i, j | 0 <= i < j < |entries| :: entries[i].key.Str? && entries[i].key == entries[j].key
  }

  /** Some mapping in the tree has the fault. */
  predicate Somewhere(y: Yaml, fault: Fault) {
    match y
    case Sequence(items) => exists i | 0 <= i < |items| :: Somewhere(items[i], fault)
    case Mapping(entries) =>
      || FaultAt(entries, fault)
      || exists i | 0 <= i < |entries| :: assert entries decreases to entries[i]; Below(entries[i], fault)
    case _ => false
  }

  predicate Below(e: Entry, fault: Fault) {
    Somewhere(e.value, fault)
  }

  /** The metadata is a mapping with the fault. */
  predicate InMetadata(root: Yaml, fault: Fault) {
    && root.Mapping?
    && exists i | 0 <= i < |root.entries| ::
         && root.entries[i].key == Str("metadata") && root.entries[i].value.Mapping?
         && FaultAt(root.entries[i].value.entries, fault)
  }

  /** What the document has when reading it fails this way. */
  predicate Has(y: Yaml, site: Site, failure: Option<Failure>) {
    match failure
    case Some(DuplicateTopLevelKey) => site == TopLevel && y.Mapping? && FaultAt(y.entries, RepeatedKey)
    case Some(NonStringTopLevelKey) => site == TopLevel && y.Mapping? && FaultAt(y.entries, OddKey)
    case Some(DuplicateMetadataKey) =>
      || (site == Metadata && y.Mapping? && FaultAt(y.entries, RepeatedKey))
      || (site == TopLevel && InMetadata(y, RepeatedKey))
    case Some(InvalidMetadata) =>
      || (site == Metadata && y.Mapping? && FaultAt(y.entries, OddKey))
      || (site == TopLevel && InMetadata(y, OddKey))
    case Some(DuplicateMappingKey) => Somewhere(y, RepeatedKey)
    case None => Somewhere(y, OddKey)
    case _ => true
  }

  lemma {:induction false} FailureHas(y: Yaml, depth: nat, nodes: nat, aliases: bool, site: Site)
    requires Count(y, depth, nodes, aliases, site).Err?
    ensures Has(y, site, Count(y, depth, nodes, aliases, site).error)
    decreases y
  {
    var claimed := ClaimCount(depth, nodes, aliases);
    if claimed.Ok? {
      match y
      case Sequence(items) => ItemsHave(y, items, 0, depth + 1, claimed.value, aliases, site);
      case Mapping(entries) =>
        assert entries[0..] == entries;
        EntriesHave(y, entries, 0, {}, depth + 1, claimed.value, aliases, site);
      case _ =>
    }
  }

  lemma {:induction false} ItemsHave(y: Yaml, items: seq<Yaml>, i: nat, depth: nat, nodes: nat, aliases: bool,
                                     site: Site)
    requires y == Sequence(items) && i <= |items| && CountItems(items[i..], depth, nodes, aliases).Err?
    ensures Has(y, site, CountItems(items[i..], depth, nodes, aliases).error)
    decreases y, |items| - i
  {
    if i < |items| {
      hide Count;
      assert items[i..][1..] == items[i + 1..];
      var r := Count(items[i], depth, nodes, aliases, Inner);
      if r.Ok? {
        ItemsHave(y, items, i + 1, depth, r.value, aliases, site);
      } else {
        FailureHas(items[i], depth, nodes, aliases, Inner);
      }
    }
  }

  lemma {:induction false} EntriesHave(y: Yaml, entries: seq<Entry>, i: nat, seen: set<string>, depth: nat, nodes: nat,
                                       aliases: bool, site: Site)
    requires y == Mapping(entries) && i <= |entries| && forall k <- seen :: HasKey(entries[..i], k)
    requires CountEntries(entries[i..], seen, depth, nodes, aliases, site).Err?
    ensures Has(y, site, CountEntries(entries[i..], seen, depth, nodes, aliases, site).error)
    decreases y, |entries| - i
  {
    if i < |entries| {
      hide Count;
      var e := entries[i];
      assert entries[i..][1..] == entries[i + 1..];
      assert entries decreases to e;
      var keyed := CountKey(e.key, depth, nodes, aliases, site);
      if keyed.Ok? {
        var k := e.key.text;
        if k in seen {
          var j :| 0 <= j < i && entries[..i][j].key == Str(k);
          assert entries[j].key == entries[i].key;
        } else {
          var r := Count(e.value, depth, keyed.value, aliases, ValueSite(site, k));
          if r.Ok? {
            SeenMore(entries, i, seen);
            EntriesHave(y, entries, i + 1, seen + {k}, depth, r.value, aliases, site);
          } else {
            FailureHas(e.value, depth, keyed.value, aliases, ValueSite(site, k));
            ValueHas(y, entries, i, site, r.error);
          }
        }
      }
    }
  }

  lemma ValueHas(y: Yaml, entries: seq<Entry>, i: nat, site: Site, failure: Option<Failure>)
    requires y == Mapping(entries) && i < |entries| && entries[i].key.Str?
    requires Has(entries[i].value, ValueSite(site, entries[i].key.text), failure)
    ensures Has(y, site, failure)
  {
    assert Below(entries[i], RepeatedKey) <==> Somewhere(entries[i].value, RepeatedKey);
    assert Below(entries[i], OddKey) <==> Somewhere(entries[i].value, OddKey);
  }

  lemma SeenMore(entries: seq<Entry>, i: nat, seen: set<string>)
    requires i < |entries| && entries[i].key.Str? && forall k <- seen :: HasKey(entries[..i], k)
    ensures forall k <- seen + {entries[i].key.text} :: HasKey(entries[..i + 1], k)
  {
    assert entries[..i + 1][i] == entries[i];
    forall k | k in seen
      ensures HasKey(entries[..i + 1], k)
    {
      var j :| 0 <= j < i && entries[..i][j].key == Str(k);
      assert entries[..i + 1][j] == entries[..i][j];
    }
  }
}
