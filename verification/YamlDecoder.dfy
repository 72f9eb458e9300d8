/** The decoder's seeds and visitors over their shared budget
    (crates/kitrove-agent-skills/src/frontmatter.rs:237-485, 504-705). */
module YamlDecoder {
  import opened Outcome
  import opened Yaml
  import opened YamlMeaning

  /** The deserializer's own error carries nothing; the failure cell does. */
  datatype Refused = Refused

  type Attempt<T> = Result<T, Refused>

  /** How a call that reads this much ends. */
  ghost predicate Reads<T>(tally: Tally, r: Attempt<T>, nodes: nat, failure: Option<Failure>) {
    match tally
    case Ok(n) => r.Ok? && nodes == n && failure == None
    case Err(f) => r.Err? && failure == f
  }

  class YamlBudget {
    var nodes: nat
    var failure: Option<Failure>
    const aliasesPresent: bool

    constructor (aliasesPresent: bool)
      ensures this.aliasesPresent == aliasesPresent && nodes == 0 && failure == None
    {
      this.aliasesPresent := aliasesPresent;
      nodes, failure := 0, None;
    }

    method Claim(depth: nat) returns (r: Attempt<()>)
      requires failure == None
      modifies this
      ensures Reads(ClaimCount(depth, old(nodes), aliasesPresent), r, nodes, failure)
    {
      if depth > MAX_YAML_DEPTH {
        failure := Some(DepthLimit);
        return Err(Refused);
      }
      nodes := nodes + 1;
      var nodeLimit := if aliasesPresent then MAX_YAML_ALIAS_EXPANDED_NODES else MAX_YAML_NODES;
      if nodes > nodeLimit {
        failure := Some(if aliasesPresent then AliasLimit else NodeLimit);
        return Err(Refused);
      }
      return Ok(());
    }

    /** A mapping's key: claimed first, then required to be a string. */
    method ReadString(key: Yaml, depth: nat) returns (r: Attempt<string>)
      requires failure == None
      modifies this
      ensures Reads(CountKey(key, depth, old(nodes), aliasesPresent, Inner), r, nodes, failure)
      ensures r.Ok? ==> key == Str(r.value)
    {
      var claimed := Claim(depth);
      if claimed.Err? {
        return Err(Refused);
      }
      if key.Str? {
        return Ok(key.text);
      }
      return Err(Refused);
    }

    /** `duplicateFailure` is what a repeated key of this very value is reported as. */
    method ReadBounded(y: Yaml, depth: nat, site: Site) returns (r: Attempt<Value>)
      requires failure == None && site != TopLevel
      modifies this
      ensures Reads(Count(y, depth, old(nodes), aliasesPresent, site), r, nodes, failure)
      ensures r.Ok? ==> Strict(y) && r.value == ValueOf(y)
      decreases y, 1
    {
      var claimed := Claim(depth);
      if claimed.Err? {
        return Err(Refused);
      }
      match y
      case Null => return Ok(NullValue);
      case Boolean(flag) => return Ok(BooleanValue(flag));
      case Number(text) => return Ok(NumberValue(text));
      case Str(text) => return Ok(StringValue(text));
      case Sequence(items) =>
        r := VisitSequence(items, depth);
      case Mapping(entries) =>
        r := VisitMapping(entries, depth, site);
    }

    method VisitSequence(items: seq<Yaml>, depth: nat) returns (r: Attempt<Value>)
      requires failure == None
      modifies this
      ensures Reads(CountItems(items, depth + 1, old(nodes), aliasesPresent), r, nodes, failure)
      ensures r.Ok? ==> AllStrict(items) && r.value == SequenceValue(ValuesOf(items))
      decreases items, 0
    {
      hide Strict, ValueOf, ValuesOf, Count, CountItems;
      var values: seq<Value> := [];
      assert items[..0] == [] && items[0..] == items;
      for i := 0 to |items|
        invariant failure == None && AllStrict(items[..i]) && values == ValuesOf(items[..i])
        invariant CountItems(items, depth + 1, old(nodes), aliasesPresent)
               == CountItems(items[i..], depth + 1, nodes, aliasesPresent)
      {
        ItemsStep(items, i, depth + 1, nodes, aliasesPresent);
        assert items decreases to items[i];
        var value := ReadBounded(items[i], depth + 1, Inner);
        if value.Err? {
          return Err(Refused);
        }
        values := values + [value.value];
      }
      assert items[..|items|] == items;
      ItemsEnd(items, depth + 1, nodes, aliasesPresent);
      return Ok(SequenceValue(values));
    }

    method VisitMapping(entries: seq<Entry>, depth: nat, site: Site) returns (r: Attempt<Value>)
      requires failure == None && site != TopLevel
      modifies this
      ensures Reads(CountEntries(entries, {}, depth + 1, old(nodes), aliasesPresent, site), r, nodes, failure)
      ensures r.Ok? ==> StrictEntries(entries) && r.value == MappingValue(MapOf(entries))
      decreases entries, 0
    {
      hide Strict, ValueOf, MapOf, Count, CountEntries, StrictEntries, KeysOf;
      var values: map<string, Value> := map[];
      EntriesStart(entries);
      for i := 0 to |entries|
        invariant failure == None && StrictEntries(entries[..i])
        invariant values == MapOf(entries[..i]) && values.Keys == KeysOf(entries[..i])
        invariant CountEntries(entries, {}, depth + 1, old(nodes), aliasesPresent, site)
               == CountEntries(entries[i..], values.Keys, depth + 1, nodes, aliasesPresent, site)
      {
        EntriesStep(entries, i, values.Keys, depth + 1, nodes, aliasesPresent, site);
        assert entries decreases to entries[i];
        var key := ReadString(entries[i].key, depth + 1);
        if key.Err? {
          if failure.None? && site == Metadata {
            failure := Some(InvalidMetadata);
          }
          return Err(Refused);
        }
        if key.value in values {
          failure := Some(if site == Metadata then DuplicateMetadataKey else DuplicateMappingKey);
          return Err(Refused);
        }
        var value := ReadBounded(entries[i].value, depth + 1, Inner);
        if value.Err? {
          return Err(Refused);
        }
        values := values[key.value := value.value];
        MapOfMore(entries, i);
      }
      EntriesEnd(entries, values.Keys, depth + 1, nodes, aliasesPresent, site);
      return Ok(MappingValue(values));
    }
  }

  function KeysOf(entries: seq<Entry>): set<string> {
    set i | 0 <= i < |entries| && entries[i].key.Str? :: entries[i].key.text
  }

  lemma ItemsStep(items: seq<Yaml>, i: nat, depth: nat, nodes: nat, aliases: bool)
    requires i < |items| && AllStrict(items[..i])
    ensures CountItems(items[i..], depth, nodes, aliases)
         == var after := Count(items[i], depth, nodes, aliases, Inner);
            if after.Err? then after else CountItems(items[i + 1..], depth, after.value, aliases)
    ensures Strict(items[i]) ==>
      AllStrict(items[..i + 1]) && ValuesOf(items[..i + 1]) == ValuesOf(items[..i]) + [ValueOf(items[i])]
  {
    hide Strict, ValueOf, Count;
    assert items[i..][1..] == items[i + 1..];
    assert items[..i + 1][..i] == items[..i];
  }

  lemma ItemsEnd(items: seq<Yaml>, depth: nat, nodes: nat, aliases: bool)
    ensures CountItems(items[|items|..], depth, nodes, aliases) == Ok(nodes)
  {
  }

  lemma EntriesStart(entries: seq<Entry>)
    ensures entries[0..] == entries && StrictEntries(entries[..0]) && MapOf(entries[..0]) == map[]
    ensures KeysOf(entries[..0]) == {}
  {
  }

  lemma EntriesStep(entries: seq<Entry>, i: nat, seen: set<string>, depth: nat, nodes: nat, aliases: bool, site: Site)
    requires i < |entries|
    ensures CountEntries(entries[i..], seen, depth, nodes, aliases, site)
         == var keyed := CountKey(entries[i].key, depth, nodes, aliases, site);
            if keyed.Err? then keyed
            else if entries[i].key.text in seen then Err(Some(DuplicateFailure(site)))
            else
              var key := entries[i].key.text;
              var after := Count(entries[i].value, depth, keyed.value, aliases, ValueSite(site, key));
              if after.Err? then after
              else CountEntries(entries[i + 1..], seen + {key}, depth, after.value, aliases, site)
  {
    hide Count;
    assert entries[i..][1..] == entries[i + 1..];
  }

  lemma EntriesEnd(entries: seq<Entry>, seen: set<string>, depth: nat, nodes: nat, aliases: bool, site: Site)
    ensures entries[..|entries|] == entries
    ensures CountEntries(entries[|entries|..], seen, depth, nodes, aliases, site) == Ok(nodes)
  {
  }

  /** A fresh string key with a strict value extends what has been read. */
  lemma MapOfMore(entries: seq<Entry>, i: nat)
    requires i < |entries| && StrictEntries(entries[..i]) && entries[i].key.Str? && Strict(entries[i].value)
    requires entries[i].key.text !in KeysOf(entries[..i])
    ensures StrictEntries(entries[..i + 1])
    ensures MapOf(entries[..i + 1]) == MapOf(entries[..i])[entries[i].key.text := ValueOf(entries[i].value)]
    ensures KeysOf(entries[..i + 1]) == KeysOf(entries[..i]) + {entries[i].key.text}
  {
    hide Strict, ValueOf;
    var front, all := entries[..i], entries[..i + 1];
    assert all[..i] == front;
    assert forall j | 0 <= j < i :: all[j] == front[j];
    forall j | 0 <= j < i
      ensures all[j].key != entries[i].key
    {
      assert front[j].key.text in KeysOf(front);
    }
  }

  // ----- The document

  /** The stable code of each failure. */
  datatype Code =
    | FrontmatterDuplicateKey
    | MetadataDuplicateKey
    | MetadataInvalid
    | FrontmatterDepthLimit
    | FrontmatterNodeLimit
    | FrontmatterAliasLimit
    | FrontmatterInvalid

  function FrontmatterError(failure: Option<Failure>): Code {
    match failure
    case Some(DuplicateTopLevelKey) => FrontmatterDuplicateKey
    case Some(DuplicateMetadataKey) => MetadataDuplicateKey
    case Some(DuplicateMappingKey) => FrontmatterDuplicateKey
    case Some(InvalidMetadata) => MetadataInvalid
    case Some(DepthLimit) => FrontmatterDepthLimit
    case Some(NodeLimit) => FrontmatterNodeLimit
    case Some(AliasLimit) => FrontmatterAliasLimit
    case Some(NonStringTopLevelKey) => FrontmatterInvalid
    case None => FrontmatterInvalid
  }

  /** What a code says of the document it refuses. */
  predicate Tells(root: Yaml, aliases: bool, code: Code) {
    match code
    case FrontmatterDuplicateKey => Somewhere(root, RepeatedKey)
    case MetadataDuplicateKey => InMetadata(root, RepeatedKey)
    case MetadataInvalid => InMetadata(root, OddKey)
    case FrontmatterDepthLimit => Height(root) > MAX_YAML_DEPTH
    case FrontmatterNodeLimit => !aliases && Size(root) > MAX_YAML_NODES
    case FrontmatterAliasLimit => aliases && Size(root) > MAX_YAML_ALIAS_EXPANDED_NODES
    case FrontmatterInvalid => !root.Mapping? || Somewhere(root, OddKey)
  }

  lemma RefusalTells(root: Yaml, aliases: bool)
    requires CountDocument(root, aliases).Err?
    ensures Tells(root, aliases, FrontmatterError(CountDocument(root, aliases).error))
  {
    if root.Mapping? {
      CountExactly(root, 0, 0, aliases, TopLevel);
      FailureHas(root, 0, 0, aliases, TopLevel);
      hide Count, Strict, Height, Size;
    }
  }

  const STANDARD_FIELDS: set<string> :=
    {"name", "description", "license", "compatibility", "metadata", "allowed-tools"}

  datatype ObservedDocument = ObservedDocument(frontmatter: map<string, Value>, nativeFields: set<string>) {
    function StringField(key: string): Option<string> {
      if key in frontmatter && frontmatter[key].StringValue? then Some(frontmatter[key].text) else None
    }

    function StringMappingField(key: string): Option<map<string, string>> {
      if key in frontmatter && frontmatter[key].MappingValue? then
        var values := frontmatter[key].values;
        if forall k | k in values :: values[k].StringValue? then
          Some(map k | k in values :: if values[k].StringValue? then values[k].text else "")
        else None
      else None
    }
  }

  /** Parses a document from the tree its events describe. It accepts exactly the mappings within the
      limits whose keys are strings, none twice; then the counter is the tree's size and the whole mapping
      comes back. Otherwise it reports the code of the first thing that went wrong. */
  method ParseFrontmatter(root: Yaml, aliasesPresent: bool) returns (r: Result<ObservedDocument, Code>, nodes: nat)
    ensures r.Ok? <==> root.Mapping? && Strict(root) && Height(root) <= MAX_YAML_DEPTH && Size(root) <= MAX_YAML_NODES
    ensures r.Ok? ==> nodes == Size(root)
    ensures r.Ok? ==> r.value == ObservedDocument(ValueOf(root).values, ValueOf(root).values.Keys - STANDARD_FIELDS)
    ensures r.Ok? ==> Denotes(root, MappingValue(r.value.frontmatter))
    ensures CountDocument(root, aliasesPresent).Err? ==>
      r == Err(FrontmatterError(CountDocument(root, aliasesPresent).error))
    ensures r.Err? ==> Tells(root, aliasesPresent, r.error)
  {
    hide FrontmatterError, Tells, Strict, Denotes, ValueOf, Height, Size, CountDocument;
    var budget := new YamlBudget(aliasesPresent);
    var document := ReadDocument(budget, root);
    DocumentExactly(root, aliasesPresent);
    nodes := budget.nodes;
    if document.Ok? {
      ReadIs(root, document.value.frontmatter);
    } else {
      RefusalTells(root, aliasesPresent);
    }
    r := if document.Ok? then Ok(document.value) else Err(FrontmatterError(budget.failure));
  }

  lemma ReadIs(root: Yaml, frontmatter: map<string, Value>)
    requires root.Mapping? && StrictEntries(root.entries) && frontmatter == MapOf(root.entries)
    ensures Strict(root) && ValueOf(root) == MappingValue(frontmatter) && Denotes(root, MappingValue(frontmatter))
  {
    DenotesExactly(root, MappingValue(frontmatter));
  }

  method ReadDocument(budget: YamlBudget, root: Yaml) returns (r: Attempt<ObservedDocument>)
    requires budget.failure == None && budget.nodes == 0
    modifies budget
    ensures Reads(CountDocument(root, budget.aliasesPresent), r, budget.nodes, budget.failure)
    ensures r.Ok? ==> root.Mapping? && StrictEntries(root.entries)
    ensures r.Ok? ==> r.value == ObservedDocument(MapOf(root.entries), MapOf(root.entries).Keys - STANDARD_FIELDS)
  {
    hide CountEntries, StrictEntries, MapOf;
    var claimed := budget.Claim(0);
    if claimed.Err? || !root.Mapping? {
      return Err(Refused);
    }
    r := VisitFrontmatter(budget, root.entries);
  }

  /** The top level: its keys are collected, and its values sorted into standard and native fields. */
  method VisitFrontmatter(budget: YamlBudget, entries: seq<Entry>) returns (r: Attempt<ObservedDocument>)
    requires budget.failure == None
    modifies budget
    ensures Reads(CountEntries(entries, {}, 1, old(budget.nodes), budget.aliasesPresent, TopLevel), r, budget.nodes,
                  budget.failure)
    ensures r.Ok? ==> StrictEntries(entries)
    ensures r.Ok? ==> r.value == ObservedDocument(MapOf(entries), MapOf(entries).Keys - STANDARD_FIELDS)
  {
    hide Strict, ValueOf, MapOf, Count, CountEntries, StrictEntries, KeysOf;
    var frontmatter: map<string, Value>, nativeFields: set<string>, keys: set<string> := map[], {}, {};
    EntriesStart(entries);
    for i := 0 to |entries|
      invariant budget.failure == None && StrictEntries(entries[..i])
      invariant frontmatter == MapOf(entries[..i]) && frontmatter.Keys == keys == KeysOf(entries[..i])
      invariant nativeFields == keys - STANDARD_FIELDS
      invariant CountEntries(entries, {}, 1, old(budget.nodes), budget.aliasesPresent, TopLevel)
             == CountEntries(entries[i..], keys, 1, budget.nodes, budget.aliasesPresent, TopLevel)
    {
      EntriesStep(entries, i, keys, 1, budget.nodes, budget.aliasesPresent, TopLevel);
      var key := budget.ReadString(entries[i].key, 1);
      if key.Err? {
        if budget.failure.None? {
          budget.failure := Some(NonStringTopLevelKey);
        }
        return Err(Refused);
      }
      if key.value in keys {
        budget.failure := Some(DuplicateTopLevelKey);
        return Err(Refused);
      }
      keys := keys + {key.value};
      var site := if key.value == "metadata" then Metadata else Inner;
      var value := budget.ReadBounded(entries[i].value, 1, site);
      if value.Err? {
        return Err(Refused);
      }
      if key.value !in STANDARD_FIELDS {
        nativeFields := nativeFields + {key.value};
      }
      frontmatter := frontmatter[key.value := value.value];
      MapOfMore(entries, i);
    }
    EntriesEnd(entries, keys, 1, budget.nodes, budget.aliasesPresent, TopLevel);
    return Ok(ObservedDocument(frontmatter, nativeFields));
  }
}
