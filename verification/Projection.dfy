/** Projecting a captured skill into its portable tree (crates/kitrove-agent-skills/src/projection.rs:42-199), and
    reading the result back. */
module Projection {
  import opened Outcome
  import opened Bytes
  import opened Lexicographic
  import opened Trees
  import opened Frames
  import opened Yaml
  import opened YamlDecoder
  import opened LineEndings
  import opened SkillDocuments
  import opened SkillReader
  import opened Manifests
  import opened ManifestMeaning

  const SKILL_DOCUMENT: Key := [0x53, 0x4b, 0x49, 0x4c, 0x4c, 0x2e, 0x6d, 0x64]

  datatype Reason = Given(code: string) | NativeFieldOmitted

  datatype Captured = Captured(files: Files, documentName: Key, document: ObservedDocument, body: Text)

  datatype Portable = Portable(manifest: Manifest, body: Text, tree: CapturedTree<seq<byte>>, reasons: seq<Reason>)

  /** The files after projection: the principal document gives way to `SKILL.md`, the rest stands. */
  function ProjectedFiles(files: Files, original: Key, document: Text): Files
    requires original in files
  {
    (files - {original})[SKILL_DOCUMENT := CapturedFile(files[original].mode, document)]
  }

  function TreeOf(env: Env, files: Files): CapturedTree<seq<byte>> {
    CapturedTree(files, env.digest(TreeFrame(files)))
  }

  function Project(env: Env, captured: Captured, name: string, description: string, given: seq<Reason>)
    : Result<Portable, ProjectionError>
    requires captured.documentName in captured.files
  {
    var m :- ProjectedManifest(env, captured.document, name, description);
    var printed := env.printer(m);
    if printed.None? || (SKILL_DOCUMENT in captured.files && SKILL_DOCUMENT != captured.documentName) then
      Err(ProjectionFailed)
    else
      var document := Document(printed.value, NormalizedBody(captured.body));
      var files := ProjectedFiles(captured.files, captured.documentName, document);
      Ok(Portable(m, captured.body, TreeOf(env, files),
                  given + if captured.document.nativeFields == {} then [] else [NativeFieldOmitted]))
  }

  method ProjectSkillSource(env: Env, captured: Captured, name: string, description: string, given: seq<Reason>)
    returns (r: Result<Portable, ProjectionError>)
    requires captured.documentName in captured.files
    ensures r == Project(env, captured, name, description, given)
    ensures r.Ok? ==> Carries(env, captured.document, name, description, r.value.manifest)
    ensures r.Err? ==> r.error == ProjectionFailed || Refuses(env, captured.document, name, description, r.error)
  {
    hide ProjectedManifest, Carries, Refuses;
    ProjectedExactly(env, captured.document, name, description);
    var manifest :- ProjectedManifest(env, captured.document, name, description);
    var printed := env.printer(manifest);
    if printed.None? {
      return Err(ProjectionFailed);
    }
    var document := ProjectDocument(printed.value, captured.body);
    var files := captured.files - {captured.documentName};
    if SKILL_DOCUMENT in files {
      return Err(ProjectionFailed);
    }
    files := files[SKILL_DOCUMENT := CapturedFile(captured.files[captured.documentName].mode, document)];
    var tree := CapturedTree(files, env.digest(TreeFrame(files)));
    var reasons := given;
    if captured.document.nativeFields != {} {
      reasons := reasons + [NativeFieldOmitted];
    }
    assert reasons == given + if captured.document.nativeFields == {} then [] else [NativeFieldOmitted];
    return Ok(Portable(manifest, captured.body, tree, reasons));
  }

  /** Everything but the principal document is carried over, and replacing that by itself changes nothing. */
  lemma ProjectedFilesHold(files: Files, original: Key, document: Text)
    requires original in files && (SKILL_DOCUMENT in files ==> original == SKILL_DOCUMENT)
    ensures var projected := ProjectedFiles(files, original, document);
      && (forall k | k != SKILL_DOCUMENT && k != original ::
            (k in projected <==> k in files) && (k in files ==> projected[k] == files[k]))
      && SKILL_DOCUMENT in projected && projected[SKILL_DOCUMENT] == CapturedFile(files[original].mode, document)
      && (original != SKILL_DOCUMENT ==> original !in projected)
      && ProjectedFiles(projected, SKILL_DOCUMENT, document) == projected
  {
  }

  // ----- Reading it back

  /** The strict reading: a document with a manifest of its own. */
  ghost function ParsedDocument(env: Env, bytes: Text): Result<(Manifest, Text), ProjectionError> {
    var observed := Read(env.library, bytes);
    if observed.Err? then Err(Unreadable(observed.error))
    else if !StartsDelimiter(bytes) then Err(Unreadable(FrontmatterMissing))
    else
      var m :- ParsedManifest(env, observed.value.document);
      Ok((m, observed.value.body))
  }

  method ParseSkillDocument(env: Env, bytes: Text) returns (r: Result<(Manifest, Text), ProjectionError>)
    ensures r == ParsedDocument(env, bytes)
  {
    var observed := ParseObservedSkillDocument(env.library, bytes);
    if observed.Err? {
      return Err(Unreadable(observed.error));
    }
    if !StartsDelimiter(bytes) {
      return Err(Unreadable(FrontmatterMissing));
    }
    var manifest :- ParsedManifest(env, observed.value.document);
    return Ok((manifest, observed.value.body));
  }

  /** What the YAML library is relied on for: a printed manifest ends its lines, has no delimiter line, and is
      read as a tree whose value is the manifest's fields. */
  predicate RoundTrips(env: Env, m: Manifest, y: Text) {
    && env.printer(m) == Some(y) && Printed(y) && env.library.tree(y).Some?
    && Strict(env.library.tree(y).value) && ValueOf(env.library.tree(y).value) == MappingValue(Fields(m))
  }

  /** What both readers ask of a document rendered from this manifest and body. */
  predicate Readable(m: Manifest, document: Text) {
    |document| <= MAX_SKILL_DOCUMENT_BYTES && ManifestNodes(m) <= MAX_YAML_NODES
  }

  lemma DecodedFields(m: Manifest, root: Yaml, aliases: bool)
    requires Strict(root) && ValueOf(root) == MappingValue(Fields(m))
    ensures Decoded(root, aliases)
         == if ManifestNodes(m) <= MAX_YAML_NODES then Ok(Reread(m))
            else Err(if aliases then FrontmatterAliasLimit else FrontmatterNodeLimit)
  {
    PrintedSize(m, root);
    DocumentExactly(root, aliases);
    CountExactly(root, 0, 0, aliases, TopLevel);
    hide Count, Strict, ValueOf, Size, Height, Fields, ManifestNodes;
  }

  /** A rendered document is read back exactly when its printed manifest has at most 4096 nodes and it is at
      most 4 MiB long; projecting counts neither. Then it is read as the manifest and the normalised body. */
  lemma ReadBackExactly(env: Env, m: Manifest, y: Text, body: Text)
    requires RoundTrips(env, m, y) && env.library.utf8(Document(y, NormalizedBody(body)))
    ensures var s := Document(y, NormalizedBody(body));
      Read(env.library, s)
      == if |s| > MAX_SKILL_DOCUMENT_BYTES then Err(DocumentSizeLimit)
         else if ManifestNodes(m) > MAX_YAML_NODES then
           Err(Malformed(if env.library.aliases(y) then FrontmatterAliasLimit else FrontmatterNodeLimit))
         else Ok(Observed(Reread(m), NormalizedBody(body)))
    ensures StartsDelimiter(Document(y, NormalizedBody(body)))
  {
    hide Printed, Fields, NormalizedBody, AfterLine, Closing, Decoded, ManifestNodes, Strict, ValueOf, Document, Reread;
    var s := Document(y, NormalizedBody(body));
    ClosingOfDocument(y, NormalizedBody(body));
    DecodedFields(m, env.library.tree(y).value, env.library.aliases(y));
    if |s| <= MAX_SKILL_DOCUMENT_BYTES {
      ReadClosing(env.library, s, 4 + |y|);
    }
  }

  /** Projecting a second time, from what the projected document is read as, changes neither manifest nor tree;
      and it can be read exactly when it keeps within the readers' limits. */
  lemma ProjectingAgain(env: Env, captured: Captured, name: string, description: string, given: seq<Reason>, y: Text,
                        others: seq<Reason>)
    requires env.assetId(name) && captured.documentName in captured.files
    requires Project(env, captured, name, description, given).Ok?
    requires RoundTrips(env, Project(env, captured, name, description, given).value.manifest, y)
    requires env.library.utf8(Document(y, NormalizedBody(captured.body)))
    ensures var p := Project(env, captured, name, description, given).value;
      && SKILL_DOCUMENT in p.tree.files
      && var s := p.tree.files[SKILL_DOCUMENT].bytes;
         var read := Read(env.library, s);
         && (read.Ok? <==> Readable(p.manifest, s)) && (ParsedDocument(env, s).Ok? <==> Readable(p.manifest, s))
         && (read.Ok? ==>
               && ParsedDocument(env, s) == Ok((p.manifest, NormalizedBody(captured.body)))
               && Project(env, Captured(p.tree.files, SKILL_DOCUMENT, read.value.document, read.value.body), name,
                          description, others)
                  == Ok(Portable(p.manifest, NormalizedBody(captured.body), p.tree, others)))
  {
    hide ProjectedManifest, ParsedManifest, Document, NormalizedBody, Reread, ManifestNodes, RoundTrips, TreeFrame,
      ProjectedFiles;
    var p := Project(env, captured, name, description, given).value;
    ProjectedManifestAgain(env, captured.document, name, description);
    PrinterOf(env, p.manifest, y);
    ReadBackExactly(env, p.manifest, y, captured.body);
    ProjectedFilesHold(captured.files, captured.documentName, Document(y, NormalizedBody(captured.body)));
    NormalizedBodyHolds(captured.body);
    RereadFields(p.manifest);
    assert others + [] == others;
  }

  lemma PrinterOf(env: Env, m: Manifest, y: Text)
    requires RoundTrips(env, m, y)
    ensures env.printer(m) == Some(y)
  {
  }

  // ----- Documents that can be read and projected, but not read back

  function LongKey(i: nat): string {
    seq(i, _ => 'a')
  }

  function ManyEntries(n: nat): seq<Entry> {
    seq(n, i requires 0 <= i < n => Entry(Str(LongKey(i)), Str("")))
  }

  /** Frontmatter that is nothing but metadata. */
  function MetadataOnly(n: nat): Yaml {
    Mapping([Entry(Str("metadata"), Mapping(ManyEntries(n)))])
  }

  lemma ManyStrict(n: nat)
    ensures StrictEntries(ManyEntries(n)) && Flat(ManyEntries(n))
  {
    var entries := ManyEntries(n);
    forall i, j | 0 <= i < j < n
      ensures entries[i].key != entries[j].key
    {
      assert |LongKey(i)| == i && |LongKey(j)| == j;
    }
  }

  lemma MetadataOnlySize(n: nat)
    ensures Strict(MetadataOnly(n)) && Size(MetadataOnly(n)) == 3 + 2 * n && Height(MetadataOnly(n)) <= 2
  {
    var inner, root := ManyEntries(n), MetadataOnly(n);
    ManyStrict(n);
    FlatSize(inner);
    assert root.entries[1..] == [];
    hide ManyEntries;
    assert Strict(Mapping(inner));
    assert SizeEntries(root.entries) == 1 + Size(Mapping(inner)) + SizeEntries([]);
    assert HeightEntries(root.entries) == Max(1 + Height(Mapping(inner)), HeightEntries([]));
  }

  /** The document's metadata is all there is to project. */
  lemma MetadataOnlyProjects(env: Env, n: nat, d: ObservedDocument, name: string, description: string)
    requires 0 < n && Strict(MetadataOnly(n)) && d.frontmatter == ValueOf(MetadataOnly(n)).values
    requires StandardName(name) && StandardDescription(description)
             && forall i | 0 <= i < n :: !env.secretKey(LongKey(i))
    ensures StrictEntries(ManyEntries(n))
    ensures var r := ProjectedManifest(env, d, name, description);
      r.Ok? && r.value.metadata.Keys == MapOf(ManyEntries(n)).Keys && Scalars(r.value) == 2
  {
    var entries, inner := MetadataOnly(n).entries, ManyEntries(n);
    ManyStrict(n);
    MapOfValue(entries, 0);
    MapOfKeys(entries);
    assert d.frontmatter == MapOf(entries);
    forall k | k in d.frontmatter
      ensures k == "metadata"
    {
      assert HasKey(entries, k);
    }
    assert d.frontmatter["metadata"] == MappingValue(MapOf(inner));
    forall k | k in MapOf(inner)
      ensures MapOf(inner)[k].StringValue? && !env.secretKey(k)
    {
      var i := KeyIndex(inner, k);
    }
    assert d.StringMappingField("metadata").Some? && d.StringMappingField("metadata").value.Keys == MapOf(inner).Keys;
    assert "license" != "metadata" && "compatibility" != "metadata" && "allowed-tools" != "metadata";
  }

  /** 2046 metadata entries are 4095 nodes, which can be read; under a name and a description of its own the
      projected manifest takes 4099, which cannot. */
  lemma ProjectionOutgrowsReader(env: Env, name: string, description: string, aliases: bool)
    requires StandardName(name) && StandardDescription(description)
    requires forall i | 0 <= i < 2046 :: !env.secretKey(LongKey(i))
    ensures var root := MetadataOnly(2046);
      && Size(root) == 4095 && Decoded(root, aliases).Ok?
      && var r := ProjectedManifest(env, Decoded(root, aliases).value, name, description);
         r.Ok? && ManifestNodes(r.value) == 4099 > MAX_YAML_NODES
  {
    var root := MetadataOnly(2046);
    MetadataOnlySize(2046);
    hide MetadataOnly, ManyEntries, Size, Height, Strict, ValueOf, ProjectedManifest;
    DocumentExactly(root, aliases);
    ManyCount(2046);
    MetadataOnlyIs(2046);
    var d := Decoded(root, aliases).value;
    MetadataOnlyProjects(env, 2046, d, name, description);
    var m := ProjectedManifest(env, d, name, description).value;
    assert |m.metadata| == |m.metadata.Keys| == 2046;
  }

  lemma MetadataOnlyIs(n: nat)
    ensures MetadataOnly(n).Mapping?
  {
  }

  lemma ManyCount(n: nat)
    ensures StrictEntries(ManyEntries(n)) && |MapOf(ManyEntries(n)).Keys| == n
  {
    ManyStrict(n);
    MapOfKeys(ManyEntries(n));
    assert |MapOf(ManyEntries(n))| == |MapOf(ManyEntries(n)).Keys|;
  }

  /** A document of 4 MiB without frontmatter can be read; whatever it is projected with, it grows too long. */
  lemma BodyOutgrowsReader(lib: Library, y: Text)
    requires lib.utf8(seq(MAX_SKILL_DOCUMENT_BYTES, _ => 0x61))
    ensures var body: Text := seq(MAX_SKILL_DOCUMENT_BYTES, _ => 0x61);
      && Read(lib, body) == Ok(Observed(ObservedDocument(map[], {}), body))
      && |Document(y, NormalizedBody(body))| > MAX_SKILL_DOCUMENT_BYTES
  {
    var body: Text := seq(MAX_SKILL_DOCUMENT_BYTES, _ => 0x61);
    assert body[0] == 0x61 && CR !in body;
    ReplaceKeeps(body);
    assert ReplaceCr(body) == body;
    assert TrimEnd(body) == body;
  }
}
