/** What a projected manifest takes from the frontmatter, and when there is none
    (crates/kitrove-agent-skills/src/projection.rs:86-160; frontmatter.rs:37-133). */
module ManifestMeaning {
  import opened Outcome
  import opened Yaml
  import opened YamlDecoder
  import opened Manifests

  // ----- Names

  predicate Word(w: string) {
    w != [] && forall c <- w :: 'a' <= c <= 'z' || '0' <= c <= '9'
  }

  predicate Words(words: seq<string>) {
    words != [] && forall w <- words :: Word(w)
  }

  function Hyphened(words: seq<string>): string {
    if words == [] then [] else if |words| == 1 then words[0] else words[0] + "-" + Hyphened(words[1..])
  }

  ghost predicate Hyphenated(s: string) {
    exists words :: Words(words) && Hyphened(words) == s
  }

  /** A standard name but for its length. */
  predicate Shaped(s: string) {
    && s != [] && s[0] != '-' && s[|s| - 1] != '-'
    && (forall i | 0 <= i < |s| - 1 :: !(s[i] == '-' && s[i + 1] == '-'))
    && forall i | 0 <= i < |s| :: 'a' <= s[i] <= 'z' || '0' <= s[i] <= '9' || s[i] == '-'
  }

  lemma JoinShaped(w: string, rest: string)
    requires Word(w) && Shaped(rest)
    ensures Shaped(w + "-" + rest)
  {
    var s := w + "-" + rest;
    assert forall i | 0 <= i < |w| :: w[i] in w && s[i] == w[i];
    assert forall i | |w| < i < |s| :: s[i] == rest[i - |w| - 1];
  }

  lemma {:induction false} HyphenedShaped(words: seq<string>)
    requires Words(words)
    ensures Shaped(Hyphened(words))
    decreases |words|
  {
    var w := words[0];
    assert w in words;
    if |words| > 1 {
      hide Shaped, Word;
      HyphenedShaped(words[1..]);
      JoinShaped(w, Hyphened(words[1..]));
    } else {
      assert forall i | 0 <= i < |w| :: w[i] in w;
    }
  }

  lemma TailShaped(s: string, n: nat)
    requires Shaped(s) && 0 < n < |s| && s[n] != '-'
    ensures Shaped(s[n..])
  {
    var rest := s[n..];
    assert forall i | 0 <= i < |rest| :: rest[i] == s[i + n];
  }

  lemma NewWord(c: char, more: seq<string>)
    requires Words(more) && ('a' <= c <= 'z' || '0' <= c <= '9')
    ensures Words([[c]] + more) && Hyphened([[c]] + more) == [c] + "-" + Hyphened(more)
  {
    assert Word([c]);
    hide Word;
    assert ([[c]] + more)[1..] == more;
  }

  lemma LongerWord(c: char, more: seq<string>)
    requires Words(more) && ('a' <= c <= 'z' || '0' <= c <= '9')
    ensures var words := [[c] + more[0]] + more[1..];
      Words(words) && Hyphened(words) == [c] + Hyphened(more)
  {
    assert Word(more[0]) && Word([c] + more[0]);
    hide Word;
    var words := [[c] + more[0]] + more[1..];
    assert words[1..] == more[1..];
    assert |more| > 1 ==> [c] + more[0] + "-" + Hyphened(more[1..]) == [c] + (more[0] + "-" + Hyphened(more[1..]));
  }

  lemma {:induction false} WordsOf(s: string) returns (words: seq<string>)
    requires Shaped(s)
    ensures Words(words) && Hyphened(words) == s
    decreases |s|
  {
    var c := s[0];
    if |s| == 1 {
      words := [s];
    } else {
      var n := if s[1] == '-' then 2 else 1;
      TailShaped(s, n);
      var more := WordsOf(s[n..]);
      assert s == if n == 2 then [c] + "-" + s[2..] else [c] + s[1..];
      hide Words, Hyphened;
      if n == 2 {
        NewWord(c, more);
        words := [[c]] + more;
      } else {
        LongerWord(c, more);
        WordsExist(more);
        words := [[c] + more[0]] + more[1..];
      }
    }
  }

  lemma WordsExist(words: seq<string>)
    requires Words(words)
    ensures words != []
  {
  }

  /** A standard name is made of words in lower case with single hyphens between them. */
  lemma StandardNameExactly(s: string)
    ensures StandardName(s) <==> |s| <= 64 && Hyphenated(s)
  {
    if Shaped(s) {
      var words := WordsOf(s);
    }
    if Hyphenated(s) {
      var words :| Words(words) && Hyphened(words) == s;
      HyphenedShaped(words);
    }
  }

  // ----- Fields

  predicate SaysText(d: ObservedDocument, key: string, text: string) {
    key in d.frontmatter && d.frontmatter[key] == StringValue(text)
  }

  /** The field is the text there is, or is not there. */
  predicate MaySay(d: ObservedDocument, key: string, value: Option<string>) {
    match value
    case Some(text) => SaysText(d, key, text)
    case None => key !in d.frontmatter
  }

  predicate SaysMetadata(d: ObservedDocument, metadata: map<string, string>) {
    && "metadata" in d.frontmatter && d.frontmatter["metadata"].MappingValue?
    && var values := d.frontmatter["metadata"].values;
       values.Keys == metadata.Keys && forall k | k in metadata :: values[k] == StringValue(metadata[k])
  }

  /** The manifest says what the frontmatter does, under this name and description, and nothing in it is refused. */
  predicate Carries(env: Env, d: ObservedDocument, name: string, description: string, m: Manifest) {
    && m.name == name && m.description == description && 1 <= |description| <= 1024
    && MaySay(d, "license", m.license) && MaySay(d, "compatibility", m.compatibility)
    && MaySay(d, "allowed-tools", m.allowedTools)
    && (m.compatibility.Some? ==> 1 <= |m.compatibility.value| <= 500)
    && (if "metadata" in d.frontmatter then SaysMetadata(d, m.metadata) else m.metadata == map[])
    && forall k | k in m.metadata :: !env.secretKey(k)
  }

  /** What is wrong with the frontmatter, name or description when they are refused so. */
  ghost predicate Refuses(env: Env, d: ObservedDocument, name: string, description: string, error: ProjectionError) {
    match error
    case NameInvalid => !(|name| <= 64 && Hyphenated(name))
    case DescriptionInvalid => description == [] || |description| > 1024
    case FrontmatterInvalid =>
      exists key <- {"license", "allowed-tools"} :: key in d.frontmatter && !d.frontmatter[key].StringValue?
    case CompatibilityInvalid =>
      && "compatibility" in d.frontmatter
      && forall text: string | SaysText(d, "compatibility", text) :: |text| == 0 || |text| > 500
    case MetadataInvalid => "metadata" in d.frontmatter && forall metadata :: !SaysMetadata(d, metadata)
    case CredentialMetadata => exists metadata, k :: SaysMetadata(d, metadata) && k in metadata && env.secretKey(k)
    case _ => false
  }

  lemma SaysField(d: ObservedDocument, key: string)
    ensures MaySay(d, key, d.StringField(key)) <==> (key in d.frontmatter ==> d.StringField(key).Some?)
    ensures forall value :: MaySay(d, key, value) ==> d.StringField(key) == value
    ensures d.StringField(key).Some? ==> SaysText(d, key, d.StringField(key).value)
    ensures key in d.frontmatter && d.StringField(key).None? ==> !d.frontmatter[key].StringValue?
  {
  }

  lemma SaysMapping(d: ObservedDocument)
    ensures d.StringMappingField("metadata").Some? ==> SaysMetadata(d, d.StringMappingField("metadata").value)
    ensures forall metadata :: SaysMetadata(d, metadata) ==> d.StringMappingField("metadata") == Some(metadata)
  {
    forall metadata | SaysMetadata(d, metadata)
      ensures d.StringMappingField("metadata") == Some(metadata)
    {
      var values := d.frontmatter["metadata"].values;
      assert forall k | k in values :: k in metadata;
      assert metadata == map k | k in values :: if values[k].StringValue? then values[k].text else "";
    }
  }

  lemma OptionalExactly(env: Env, d: ObservedDocument, name: string, description: string)
    requires StandardDescription(description)
    ensures var r := OptionalFields(env, d, name, description);
      && (forall m :: r == Ok(m) <==> Carries(env, d, name, description, m))
      && (r.Err? ==> Refuses(env, d, name, description, r.error))
  {
    SaysField(d, "license");
    SaysField(d, "compatibility");
    SaysField(d, "allowed-tools");
    SaysMapping(d);
    hide SaysMetadata;
    var r := OptionalFields(env, d, name, description);
    forall m
      ensures r == Ok(m) <==> Carries(env, d, name, description, m)
    {
    }
  }

  lemma NothingCarries(env: Env, d: ObservedDocument, name: string, description: string)
    requires !StandardDescription(description)
    ensures forall m :: !Carries(env, d, name, description, m)
  {
  }

  /** The projected manifest is the one that carries the frontmatter's fields; there is none exactly when none does,
      and then the code tells what is wrong. */
  lemma ProjectedExactly(env: Env, d: ObservedDocument, name: string, description: string)
    ensures var r := ProjectedManifest(env, d, name, description);
      && (forall m :: r == Ok(m) <==> |name| <= 64 && Hyphenated(name) && Carries(env, d, name, description, m))
      && (r.Err? ==> Refuses(env, d, name, description, r.error))
  {
    hide StandardName, Carries, OptionalFields, Hyphenated;
    StandardNameExactly(name);
    if StandardDescription(description) {
      OptionalExactly(env, d, name, description);
    } else {
      NothingCarries(env, d, name, description);
    }
  }

  /** A document that must declare its own name and description is read as the manifest that carries both. */
  lemma ParsedExactly(env: Env, d: ObservedDocument, m: Manifest)
    ensures ParsedManifest(env, d) == Ok(m)
       <==> && SaysText(d, "name", m.name) && |m.name| <= 64 && Hyphenated(m.name) && env.assetId(m.name)
            && SaysText(d, "description", m.description) && Carries(env, d, m.name, m.description, m)
  {
    SaysField(d, "name");
    SaysField(d, "description");
    hide Hyphenated, OptionalFields, SaysText, StandardName;
    StandardNameExactly(m.name);
    if d.StringField("name").Some? {
      StandardNameExactly(d.StringField("name").value);
    }
    if StandardDescription(m.description) {
      OptionalExactly(env, d, m.name, m.description);
    } else {
      NothingCarries(env, d, m.name, m.description);
    }
    var name, description := d.StringField("name"), d.StringField("description");
    if name.Some? && description.Some? && StandardDescription(description.value) {
      OptionalExactly(env, d, name.value, description.value);
    }
    assert MaySay(d, "name", Some(m.name)) <==> SaysText(d, "name", m.name);
    assert MaySay(d, "description", Some(m.description)) <==> SaysText(d, "description", m.description);
    hide MaySay;
  }
}
