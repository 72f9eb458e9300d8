/** Reading a skill document (crates/kitrove-agent-skills/src/frontmatter.rs:12, 135-188, 286-301). The YAML library
    gives the tree a text describes, or nothing for text it rejects. */
module SkillReader {
  import opened Outcome
  import opened Yaml
  import opened YamlDecoder
  import opened LineEndings
  import opened SkillDocuments

  const MAX_SKILL_DOCUMENT_BYTES: nat := 4 * 1024 * 1024

  datatype Library = Library(utf8: Text -> bool, tree: Text -> Option<Yaml>, aliases: Text -> bool)

  datatype ReadError = DocumentSizeLimit | FrontmatterMissing | Malformed(code: Code)

  datatype Observed = Observed(document: ObservedDocument, body: Text)

  function Decoded(root: Yaml, aliases: bool): Result<ObservedDocument, Code> {
    DocumentExactly(root, aliases);
    var count := CountDocument(root, aliases);
    if count.Err? then Err(FrontmatterError(count.error))
    else Ok(ObservedDocument(ValueOf(root).values, ValueOf(root).values.Keys - STANDARD_FIELDS))
  }

  /** What a document's bytes are read as; one without a delimiter line is all body. */
  ghost function Read(lib: Library, bytes: Text): Result<Observed, ReadError> {
    if |bytes| > MAX_SKILL_DOCUMENT_BYTES then Err(DocumentSizeLimit)
    else if !lib.utf8(bytes) then Err(Malformed(FrontmatterInvalid))
    else if Opening(bytes) == 0 then Ok(Observed(ObservedDocument(map[], {}), bytes))
    else if forall i: nat :: !Closing(bytes, i) then Err(FrontmatterMissing)
    else
      var i: nat :| Closing(bytes, i);
      var tree := lib.tree(bytes[Opening(bytes)..i]);
      if tree.None? then Err(Malformed(FrontmatterInvalid))
      else
        var document := Decoded(tree.value, lib.aliases(bytes[Opening(bytes)..i]));
        if document.Err? then Err(Malformed(document.error))
        else Ok(Observed(document.value, bytes[AfterLine(bytes, i)..]))
  }

  lemma ReadClosing(lib: Library, bytes: Text, i: nat)
    requires |bytes| <= MAX_SKILL_DOCUMENT_BYTES && lib.utf8(bytes) && Closing(bytes, i)
    ensures var front := bytes[Opening(bytes)..i];
      Read(lib, bytes)
      == if lib.tree(front).None? then Err(Malformed(FrontmatterInvalid))
         else
           var document := Decoded(lib.tree(front).value, lib.aliases(front));
           if document.Err? then Err(Malformed(document.error))
           else Ok(Observed(document.value, bytes[AfterLine(bytes, i)..]))
  {
    hide Decoded, AfterLine;
    forall j: nat | Closing(bytes, j)
      ensures j == i
    {
      ClosingUnique(bytes, i, j);
    }
    hide Closing;
  }

  method ParseObservedSkillDocument(lib: Library, bytes: Text) returns (r: Result<Observed, ReadError>)
    ensures r == Read(lib, bytes)
  {
    hide Decoded, AfterLine;
    if |bytes| > MAX_SKILL_DOCUMENT_BYTES {
      return Err(DocumentSizeLimit);
    }
    if !lib.utf8(bytes) {
      return Err(Malformed(FrontmatterInvalid));
    }
    var parts := SplitFrontmatter(bytes);
    if parts.None? {
      if StartsDelimiter(bytes) {
        return Err(FrontmatterMissing);
      }
      return Ok(Observed(ObservedDocument(map[], {}), bytes));
    }
    ghost var i: nat :| Closing(bytes, i);
    ReadClosing(lib, bytes, i);
    hide Closing;
    var document := ParseTree(lib, parts.value.0);
    if document.Err? {
      return Err(Malformed(document.error));
    }
    return Ok(Observed(document.value, parts.value.1));
  }

  /** The text is handed to the library, and its tree to the decoder. */
  method ParseTree(lib: Library, source: Text) returns (r: Result<ObservedDocument, Code>)
    ensures r == var tree := lib.tree(source);
                 if tree.None? then Err(FrontmatterInvalid) else Decoded(tree.value, lib.aliases(source))
  {
    var aliases := lib.aliases(source);
    var tree := lib.tree(source);
    if tree.None? {
      return Err(FrontmatterInvalid);
    }
    DocumentExactly(tree.value, aliases);
    var nodes;
    r, nodes := ParseFrontmatter(tree.value, aliases);
  }

  /** A document that starts with a delimiter line. */
  predicate StartsDelimiter(bytes: Text)
    ensures StartsDelimiter(bytes) <==> Opening(bytes) > 0
  {
    DASHES + [LF] <= bytes || DASHES + [CR, LF] <= bytes
  }
}
