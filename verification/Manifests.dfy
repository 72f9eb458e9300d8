/** The manifest of a skill (crates/kitrove-agent-skills/src/projection.rs:30-40, 86-160; frontmatter.rs:37-133,
    981-997), what it is printed as, and how many nodes that takes to read. */
module Manifests {
  import opened Outcome
  import opened Bytes
  import opened Yaml
  import opened YamlDecoder
  import opened SkillReader
  import opened LineEndings

  datatype Manifest = Manifest(
    name: string,
    description: string,
    license: Option<string>,
    compatibility: Option<string>,
    metadata: map<string, string>,
    allowedTools: Option<string>)

  datatype ProjectionError =
    | NameInvalid
    | DescriptionInvalid
    | FrontmatterInvalid
    | CompatibilityInvalid
    | MetadataInvalid
    | CredentialMetadata
    | ProjectionFailed
    | Unreadable(error: ReadError)

  /** What is decided outside: identifiers, secret-like keys, the digest, and the YAML printer and reader. */
  datatype Env = Env(
    assetId: string -> bool,
    secretKey: string -> bool,
    digest: seq<byte> -> seq<byte>,
    printer: Manifest -> Option<Text>,
    library: Library)

  predicate StandardName(s: string) {
    && 0 < |s| <= 64 && s[0] != '-' && s[|s| - 1] != '-'
    && (forall i | 0 <= i < |s| - 1 :: !(s[i] == '-' && s[i + 1] == '-'))
    && forall i | 0 <= i < |s| :: 'a' <= s[i] <= 'z' || '0' <= s[i] <= '9' || s[i] == '-'
  }

  predicate StandardDescription(s: string) {
    1 <= |s| <= 1024
  }

  /** The checks both entry points make on everything but name and description. */
  function OptionalFields(env: Env, d: ObservedDocument, name: string, description: string)
    : Result<Manifest, ProjectionError>
  {
    var license, compatibility := d.StringField("license"), d.StringField("compatibility");
    var metadata, allowedTools := d.StringMappingField("metadata"), d.StringField("allowed-tools");
    if "license" in d.frontmatter && license.None? then Err(ProjectionError.FrontmatterInvalid)
    else if "compatibility" in d.frontmatter && compatibility.None? then Err(CompatibilityInvalid)
    else if compatibility.Some? && !(1 <= |compatibility.value| <= 500) then Err(CompatibilityInvalid)
    else if metadata.None? && "metadata" in d.frontmatter then Err(ProjectionError.MetadataInvalid)
    else
      var values := if metadata.Some? then metadata.value else map[];
      if exists k | k in values :: env.secretKey(k) then Err(CredentialMetadata)
      else if "allowed-tools" in d.frontmatter && allowedTools.None? then Err(ProjectionError.FrontmatterInvalid)
      else Ok(Manifest(name, description, license, compatibility, values, allowedTools))
  }

  function ProjectedManifest(env: Env, d: ObservedDocument, name: string, description: string)
    : Result<Manifest, ProjectionError>
  {
    if !StandardName(name) then Err(NameInvalid)
    else if !StandardDescription(description) then Err(DescriptionInvalid)
    else OptionalFields(env, d, name, description)
  }

  /** The manifest of a document that must declare everything itself. */
  function ParsedManifest(env: Env, d: ObservedDocument): Result<Manifest, ProjectionError> {
    var name, description := d.StringField("name"), d.StringField("description");
    if name.None? || !StandardName(name.value) || !env.assetId(name.value) then Err(NameInvalid)
    else if description.None? || !StandardDescription(description.value) then Err(DescriptionInvalid)
    else OptionalFields(env, d, name.value, description.value)
  }

  // ----- What the printer is given, and reading it back

  function OptionalText(value: Option<string>): Option<Value> {
    if value.Some? then Some(StringValue(value.value)) else None
  }

  function MetadataField(metadata: map<string, string>): Option<Value> {
    if metadata == map[] then None else Some(MappingValue(map k | k in metadata :: StringValue(metadata[k])))
  }

  /** What a manifest's field is serialised as, if it is; empty metadata is left out. */
  function Field(m: Manifest, key: string): Option<Value> {
    if key == "name" then Some(StringValue(m.name))
    else if key == "description" then Some(StringValue(m.description))
    else if key == "license" then OptionalText(m.license)
    else if key == "compatibility" then OptionalText(m.compatibility)
    else if key == "metadata" then MetadataField(m.metadata)
    else OptionalText(m.allowedTools)
  }

  function Fields(m: Manifest): map<string, Value> {
    map k | k in STANDARD_FIELDS && Field(m, k).Some? :: Field(m, k).value
  }

  /** The document the decoder makes of those fields. */
  function Reread(m: Manifest): ObservedDocument {
    ObservedDocument(Fields(m), Fields(m).Keys - STANDARD_FIELDS)
  }

  lemma RereadText(m: Manifest, key: string, value: Option<string>)
    requires key in STANDARD_FIELDS && Field(m, key) == OptionalText(value)
    ensures Reread(m).StringField(key) == value && (key in Reread(m).frontmatter <==> value.Some?)
  {
    hide Field;
  }

  lemma RereadMetadata(m: Manifest)
    ensures Reread(m).StringMappingField("metadata") == (if m.metadata == map[] then None else Some(m.metadata))
    ensures "metadata" in Reread(m).frontmatter <==> m.metadata != map[]
  {
    assert Field(m, "metadata") == MetadataField(m.metadata);
    hide Field;
    var d := Reread(m);
    assert "metadata" in STANDARD_FIELDS;
    if m.metadata != map[] {
      var values := d.frontmatter["metadata"].values;
      var read := map k | k in values :: if values[k].StringValue? then values[k].text else "";
      assert read == m.metadata;
    }
  }

  lemma RereadFields(m: Manifest)
    ensures var d := Reread(m);
      && d.nativeFields == {} && d.StringField("name") == Some(m.name)
      && d.StringField("description") == Some(m.description)
      && d.StringField("license") == m.license && d.StringField("compatibility") == m.compatibility
      && d.StringField("allowed-tools") == m.allowedTools
      && d.StringMappingField("metadata") == (if m.metadata == map[] then None else Some(m.metadata))
      && ("license" in d.frontmatter <==> m.license.Some?)
      && ("compatibility" in d.frontmatter <==> m.compatibility.Some?)
      && ("allowed-tools" in d.frontmatter <==> m.allowedTools.Some?)
      && ("metadata" in d.frontmatter <==> m.metadata != map[])
  {
    assert Reread(m).nativeFields == {};
    RereadText(m, "name", Some(m.name));
    RereadText(m, "description", Some(m.description));
    RereadText(m, "license", m.license);
    RereadText(m, "compatibility", m.compatibility);
    RereadText(m, "allowed-tools", m.allowedTools);
    RereadMetadata(m);
  }

  /** The checks pass again on what a projected manifest's fields are read as. */
  lemma ProjectedManifestAgain(env: Env, d: ObservedDocument, name: string, description: string)
    requires env.assetId(name) && ProjectedManifest(env, d, name, description).Ok?
    ensures var m := ProjectedManifest(env, d, name, description).value;
      && ParsedManifest(env, Reread(m)) == Ok(m) && m.name == name && m.description == description
      && ProjectedManifest(env, Reread(m), name, description) == Ok(m)
  {
    var m := ProjectedManifest(env, d, name, description).value;
    RereadFields(m);
    hide Fields, Reread;
  }

  // ----- How many nodes a printed manifest takes to read

  function Count1(b: bool): nat {
    if b then 1 else 0
  }

  /** The fields that are single strings. */
  function Scalars(m: Manifest): nat {
    2 + Count1(m.license.Some?) + Count1(m.compatibility.Some?) + Count1(m.allowedTools.Some?)
  }

  /** The root, two nodes for each string field, and two for the metadata and each of its entries. */
  function ManifestNodes(m: Manifest): nat {
    1 + 2 * Scalars(m) + if m.metadata == map[] then 0 else 2 + 2 * |m.metadata|
  }

  function Only(b: bool, key: string): set<string> {
    if b then {key} else {}
  }

  lemma FieldKeys(m: Manifest)
    ensures Fields(m).Keys == {"name", "description"} + Only(m.license.Some?, "license")
                              + Only(m.compatibility.Some?, "compatibility")
                              + Only(m.allowedTools.Some?, "allowed-tools")
                              + Only(m.metadata != map[], "metadata")
  {
    RereadFields(m);
    hide Field;
    assert Reread(m).frontmatter == Fields(m);
    assert Reread(m).StringField("name").Some? && Reread(m).StringField("description").Some?;
  }

  lemma OnlyMore(s: set<string>, b: bool, key: string)
    requires key !in s
    ensures |s + Only(b, key)| == |s| + Count1(b)
  {
  }

  lemma NamesDiffer()
    ensures "license" !in {"name", "description"}
    ensures "compatibility" !in {"name", "description", "license"}
    ensures "allowed-tools" !in {"name", "description", "license", "compatibility"}
    ensures "metadata" !in {"name", "description", "license", "compatibility", "allowed-tools"}
  {
    assert "compatibility"[0] != "allowed-tools"[0];
  }

  lemma OnlyIs(b: bool, key: string)
    ensures Only(b, key) <= {key}
  {
  }

  lemma FieldCount(m: Manifest)
    ensures |Fields(m)| == Scalars(m) + Count1(m.metadata != map[])
  {
    hide *;
    FieldKeys(m);
    NamesDiffer();
    var a: set<string> := {"name", "description"};
    var b := a + Only(m.license.Some?, "license");
    var c := b + Only(m.compatibility.Some?, "compatibility");
    var d := c + Only(m.allowedTools.Some?, "allowed-tools");
    OnlyIs(m.license.Some?, "license");
    OnlyIs(m.compatibility.Some?, "compatibility");
    OnlyIs(m.allowedTools.Some?, "allowed-tools");
    OnlyMore(a, m.license.Some?, "license");
    OnlyMore(b, m.compatibility.Some?, "compatibility");
    OnlyMore(c, m.allowedTools.Some?, "allowed-tools");
    OnlyMore(d, m.metadata != map[], "metadata");
    assert |a| == 2 && |Fields(m)| == |Fields(m).Keys|;
    ScalarsAre(m);
  }

  lemma ScalarsAre(m: Manifest)
    ensures Scalars(m) == 2 + Count1(m.license.Some?) + Count1(m.compatibility.Some?) + Count1(m.allowedTools.Some?)
  {
  }

  /** A field's tree, given the value it decodes to. */
  predicate FieldTree(e: Entry, nested: nat) {
    || e.value.Str?
    || (e.key == Str("metadata") && e.value.Mapping? && Flat(e.value.entries) && |e.value.entries| == nested)
  }

  lemma MetadataIsTree(metadata: map<string, string>, v: Yaml)
    requires Strict(v) && ValueOf(v) == MappingValue(map k | k in metadata :: StringValue(metadata[k]))
    ensures v.Mapping? && Flat(v.entries) && |v.entries| == |metadata|
  {
    var values := map k | k in metadata :: StringValue(metadata[k]);
    var inner := v.entries;
    assert MapOf(inner) == values && values.Keys == metadata.Keys;
    MapOfKeys(inner);
    assert |values| == |values.Keys| && |metadata| == |metadata.Keys|;
    forall j | 0 <= j < |inner|
      ensures inner[j].value.Str?
    {
      MapOfValue(inner, j);
      assert ValueOf(inner[j].value).StringValue?;
    }
  }

  lemma FieldIsValue(m: Manifest, entries: seq<Entry>, i: nat)
    requires StrictEntries(entries) && MapOf(entries) == Fields(m) && i < |entries|
    ensures entries[i].key.Str? && Strict(entries[i].value)
    ensures Field(m, entries[i].key.text) == Some(ValueOf(entries[i].value))
  {
    hide Field, ValueOf, Strict, MapOf;
    MapOfValue(entries, i);
  }

  lemma TextIsTree(v: Yaml)
    requires Strict(v) && ValueOf(v).StringValue?
    ensures v.Str?
  {
  }

  lemma TextFields(m: Manifest, key: string)
    requires Field(m, key).Some?
    ensures if key == "metadata" then Field(m, key) == MetadataField(m.metadata) else Field(m, key).value.StringValue?
  {
    hide MetadataField;
  }

  lemma MetadataFieldIs(metadata: map<string, string>)
    requires MetadataField(metadata).Some?
    ensures MetadataField(metadata).value == MappingValue(map k | k in metadata :: StringValue(metadata[k]))
  {
  }

  lemma FieldIsTree(m: Manifest, entries: seq<Entry>, i: nat)
    requires StrictEntries(entries) && MapOf(entries) == Fields(m) && i < |entries|
    ensures FieldTree(entries[i], |m.metadata|)
    ensures entries[i].value.Mapping? <==> entries[i].key == Str("metadata")
  {
    hide Strict, MapOf, Fields, StrictEntries, Field, MetadataField, ValueOf, Flat;
    FieldIsValue(m, entries, i);
    TextFields(m, entries[i].key.text);
    if entries[i].key.text == "metadata" {
      MetadataFieldIs(m.metadata);
      MetadataIsTree(m.metadata, entries[i].value);
    } else {
      TextIsTree(entries[i].value);
    }
  }

  /** Whatever tree the printed fields are read as, it has this many nodes, and little depth. */
  lemma PrintedSize(m: Manifest, root: Yaml)
    requires Strict(root) && ValueOf(root) == MappingValue(Fields(m))
    ensures root.Mapping? && Size(root) == ManifestNodes(m) && Height(root) <= 2
  {
    var entries := root.entries;
    forall i | 0 <= i < |entries|
      ensures FieldTree(entries[i], |m.metadata|)
      ensures entries[i].value.Mapping? <==> entries[i].key == Str("metadata")
    {
      FieldIsTree(m, entries, i);
    }
    MapOfKeys(entries);
    FieldCount(m);
    FieldKeys(m);
    FieldsSize(entries, |m.metadata|);
    assert "metadata" in Fields(m) <==> m.metadata != map[];
    hide FieldTree, Fields, MapOf, Size, Height, SizeEntries;
    assert HasKey(entries, "metadata") <==> m.metadata != map[];
    SizeOfMapping(root);
  }

  lemma SizeOfMapping(root: Yaml)
    requires root.Mapping?
    ensures Size(root) == 1 + SizeEntries(root.entries) && Height(root) == HeightEntries(root.entries)
  {
  }

  lemma {:induction false} FieldsSize(entries: seq<Entry>, nested: nat)
    requires StringKeys(entries) && DistinctKeys(entries)
    requires forall i | 0 <= i < |entries| ::
      FieldTree(entries[i], nested) && (entries[i].value.Mapping? <==> entries[i].key == Str("metadata"))
    ensures SizeEntries(entries) == 2 * |entries| + if HasKey(entries, "metadata") then 2 * nested else 0
    ensures HeightEntries(entries) <= 2
    decreases |entries|
  {
    if entries == [] {
      assert !HasKey(entries, "metadata");
    } else {
      var e, rest := entries[0], entries[1..];
      assert entries == [e] + rest;
      forall i | 0 <= i < |rest|
        ensures rest[i] == entries[i + 1] && rest[i].key != e.key
      {
      }
      FieldsSize(rest, nested);
      if e.value.Mapping? {
        FlatSize(e.value.entries);
        assert !HasKey(rest, "metadata") && HasKey(entries, "metadata");
      } else if HasKey(entries, "metadata") {
        var i :| 0 <= i < |entries| && entries[i].key == Str("metadata");
        assert rest[i - 1].key == Str("metadata");
      }
    }
  }
}
