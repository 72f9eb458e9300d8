/** The checksum sidecar and the cargo-dist manifest (xtask/src/release_archive.rs:406-515). JSON, the digest
    and the final component of a path are parameters. */
module DistManifest {
  import opened Outcome
  import opened Bytes

  datatype Json =
    | JObject(fields: map<string, Json>)
    | JArray(items: seq<Json>)
    | JString(text: string)
    | JOther(raw: string)

  datatype Env = Env(
    parse: seq<byte> -> Option<Json>,
    render: Json -> seq<byte>,
    digest: seq<byte> -> string,
    fileName: string -> Option<string>,
    utf8: string -> seq<byte>)

  /** The archive's expected name, and the target it is built for. */
  datatype Spec = Spec(archiveName: string, target: string)

  const LF: byte := 10

  function Field(v: Json, key: string): Option<Json> {
    if v.JObject? && key in v.fields then Some(v.fields[key]) else None
  }

  function TextField(v: Json, key: string): Option<string> {
    match Field(v, key)
    case Some(JString(text)) => Some(text)
    case _ => None
  }

  function NameField(env: Env, v: Json, key: string): Option<string> {
    match TextField(v, key)
    case Some(path) => env.fileName(path)
    case None => None
  }

  predicate Matches(env: Env, spec: Spec, artifact: Json) {
    && artifact.JObject? && TextField(artifact, "name") == Some(spec.archiveName)
    && TextField(artifact, "kind") == Some("executable-zip")
    && Field(artifact, "target_triples") == Some(JArray([JString(spec.target)]))
    && NameField(env, artifact, "path") == Some(spec.archiveName)
  }

  /** The one artifact that matches: its checksum file, and the digest it records. */
  predicate Binds(env: Env, spec: Spec, artifact: Json, digest: string) {
    && NameField(env, artifact, "checksum") == Some(spec.archiveName + ".sha256")
    && Field(artifact, "checksums") == Some(JObject(map["sha256" := JString(digest)]))
  }

  function Matched(env: Env, spec: Spec, artifacts: map<string, Json>): set<string> {
    set id | id in artifacts && Matches(env, spec, artifacts[id])
  }

  /** The manifest has exactly one matching artifact, and that one binds the digest. */
  predicate ManifestBinds(env: Env, spec: Spec, manifest: Json, id: string, digest: string) {
    && manifest.JObject? && "artifacts" in manifest.fields && manifest.fields["artifacts"].JObject?
    && var artifacts := manifest.fields["artifacts"].fields;
       Matched(env, spec, artifacts) == {id} && Binds(env, spec, artifacts[id], digest)
  }

  /** Looks at one artifact's name, kind, target and path. */
  method IsMatch(env: Env, spec: Spec, artifact: Json) returns (matches: bool)
    ensures matches <==> Matches(env, spec, artifact)
  {
    if !artifact.JObject? {
      return false;
    }
    var fields := artifact.fields;
    var targetMatches := false;
    if "target_triples" in fields && fields["target_triples"].JArray? {
      var targets := fields["target_triples"].items;
      targetMatches := |targets| == 1 && targets[0] == JString(spec.target);
      assert targetMatches <==> targets == [JString(spec.target)];
    }
    var pathMatches := "path" in fields && fields["path"].JString?
                       && env.fileName(fields["path"].text) == Some(spec.archiveName);
    return "name" in fields && fields["name"] == JString(spec.archiveName)
           && "kind" in fields && fields["kind"] == JString("executable-zip") && targetMatches && pathMatches;
  }

  /** Looks at the matched artifact's checksum file and digest. */
  method IsBound(env: Env, spec: Spec, artifact: Json, digest: string) returns (bound: bool)
    ensures bound <==> Binds(env, spec, artifact, digest)
  {
    if !artifact.JObject? {
      return false;
    }
    var fields := artifact.fields;
    if !("checksum" in fields && fields["checksum"].JString?
         && env.fileName(fields["checksum"].text) == Some(spec.archiveName + ".sha256")) {
      return false;
    }
    if "checksums" !in fields || !fields["checksums"].JObject? {
      return false;
    }
    var checksums := fields["checksums"].fields;
    bound := |checksums| == 1 && "sha256" in checksums && checksums["sha256"] == JString(digest);
    if bound {
      OnlyKey(checksums, "sha256");
    }
  }

  lemma OnlyKey(m: map<string, Json>, k: string)
    requires |m| == 1 && k in m
    ensures m == map[k := m[k]]
  {
    assert |m.Keys - {k}| == 0;
    assert m.Keys == {k};
  }

  /** Finds the matching artifact by going through all of them. */
  method ValidateDistManifest(env: Env, spec: Spec, bytes: seq<byte>, digest: string) returns (r: Option<string>)
    ensures r.Some? ==> env.parse(bytes).Some? && ManifestBinds(env, spec, env.parse(bytes).value, r.value, digest)
    ensures r.None? && env.parse(bytes).Some? ==>
              forall id :: !ManifestBinds(env, spec, env.parse(bytes).value, id, digest)
  {
    hide Matches, Binds;
    var parsed := env.parse(bytes);
    if parsed.None? {
      return None;
    }
    var manifest := parsed.value;
    if !manifest.JObject? || "artifacts" !in manifest.fields || !manifest.fields["artifacts"].JObject? {
      return None;
    }
    var fields := manifest.fields["artifacts"].fields;
    var left, matched: seq<string> := fields.Keys, [];
    while left != {}
      invariant left <= fields.Keys
      invariant forall id :: id in matched <==> id in Matched(env, spec, fields) && id !in left
      invariant forall i, j | 0 <= i < j < |matched| :: matched[i] != matched[j]
      decreases left
    {
      var id :| id in left;
      left := left - {id};
      var matches := IsMatch(env, spec, fields[id]);
      if matches {
        matched := matched + [id];
      }
    }
    ghost var ids := Matched(env, spec, fields);
    if |matched| != 1 {
      if |matched| > 1 {
        assert matched[0] in ids && matched[1] in ids;
      }
      return None;
    }
    assert ids == {matched[0]};
    var bound := IsBound(env, spec, fields[matched[0]], digest);
    if !bound {
      return None;
    }
    return Some(matched[0]);
  }

  // ----- The checksum sidecar

  function Checksum(env: Env, archiveName: string, archive: seq<byte>): seq<byte> {
    env.utf8(env.digest(archive) + " *" + archiveName + "\n")
  }

  /** The sidecar's line, with or without the extra newline cargo-dist writes. */
  predicate ChecksumBinds(env: Env, archiveName: string, archive: seq<byte>, checksum: seq<byte>) {
    checksum == Checksum(env, archiveName, archive) || checksum == Checksum(env, archiveName, archive) + [LF]
  }

  /** What a sidecar says: one line, the digest in text, a space and a star, and the archive's name. */
  predicate IsSidecar(env: Env, archiveName: string, sidecar: seq<byte>, digest: string) {
    sidecar == env.utf8(digest + [' ', '*'] + archiveName + ['\n'])
  }

  /** The same, perhaps with one more newline. */
  predicate NamesDigest(env: Env, archiveName: string, sidecar: seq<byte>, digest: string) {
    || IsSidecar(env, archiveName, sidecar, digest)
    || (sidecar != [] && sidecar[|sidecar| - 1] == LF
        && IsSidecar(env, archiveName, sidecar[..|sidecar| - 1], digest))
  }

  /** A sidecar binds an archive exactly when the digest it names is the digest of the archive's bytes. */
  lemma ChecksumExactly(env: Env, archiveName: string, archive: seq<byte>, sidecar: seq<byte>)
    ensures ChecksumBinds(env, archiveName, archive, sidecar)
       <==> NamesDigest(env, archiveName, sidecar, env.digest(archive))
    ensures IsSidecar(env, archiveName, Checksum(env, archiveName, archive), env.digest(archive))
  {
    var digest, line := env.digest(archive), Checksum(env, archiveName, archive);
    assert digest + [' ', '*'] + archiveName + ['\n'] == digest + " *" + archiveName + "\n";
    assert (line + [LF])[..|line|] == line;
    if sidecar != [] && sidecar[|sidecar| - 1] == LF {
      assert sidecar == sidecar[..|sidecar| - 1] + [LF];
    }
  }

  /** What UTF-8 is relied on for. */
  ghost predicate EncodesText(env: Env) {
    && (forall x, y :: env.utf8(x) == env.utf8(y) ==> x == y)
    && forall x :: env.utf8(x + ['\n']) == env.utf8(x) + [LF]
  }

  /** A sidecar names one digest only, among digests of one length; so two archives it binds have one digest. */
  lemma SidecarNamesOne(env: Env, archiveName: string, sidecar: seq<byte>, digest: string, digest': string)
    requires EncodesText(env) && |digest| == |digest'|
    requires NamesDigest(env, archiveName, sidecar, digest) && NamesDigest(env, archiveName, sidecar, digest')
    ensures digest == digest'
  {
    var line, line' := digest + [' ', '*'] + archiveName + ['\n'], digest' + [' ', '*'] + archiveName + ['\n'];
    var short := if sidecar == [] then [] else sidecar[..|sidecar| - 1];
    assert sidecar != [] && sidecar[|sidecar| - 1] == LF ==> sidecar == short + [LF];
    assert env.utf8(line + ['\n']) == env.utf8(line) + [LF] && env.utf8(line' + ['\n']) == env.utf8(line') + [LF];
    assert |line + ['\n']| != |line'| && |line' + ['\n']| != |line|;
    assert line == line';
    assert line[..|digest|] == digest && line'[..|digest|] == digest';
  }

  // ----- Changing one value

  type JsonPath = seq<string>

  function Lookup(v: Json, path: JsonPath): Option<Json> {
    if path == [] then Some(v)
    else if v.JObject? && path[0] in v.fields then Lookup(v.fields[path[0]], path[1..])
    else None
  }

  function SetAt(v: Json, path: JsonPath, x: Json): Json {
    if path == [] then x
    else if v.JObject? && path[0] in v.fields then
      JObject(v.fields[path[0] := SetAt(v.fields[path[0]], path[1..], x)])
    else v
  }

  /** Above the changed value objects keep their keys; everything beside it is as it was. */
  lemma {:induction false} SetAtOnly(v: Json, path: JsonPath, x: Json, other: JsonPath)
    requires Lookup(v, path).Some?
    ensures Lookup(SetAt(v, path, x), path) == Some(x)
    ensures !(path <= other) && !(other <= path) ==> Lookup(SetAt(v, path, x), other) == Lookup(v, other)
    ensures other < path ==>
      var (before, after) := (Lookup(v, other), Lookup(SetAt(v, path, x), other));
      before.Some? && after.Some? && before.value.JObject? && after.value.JObject?
      && before.value.fields.Keys == after.value.fields.Keys
    decreases |path|
  {
    if path != [] {
      var inner := v.fields[path[0]];
      if other != [] && other[0] == path[0] {
        SetAtOnly(inner, path[1..], x, other[1..]);
        assert path <= other <==> path[1..] <= other[1..] by {
          assert path == [path[0]] + path[1..] && other == [other[0]] + other[1..];
        }
        assert other <= path <==> other[1..] <= path[1..] by {
          assert path == [path[0]] + path[1..] && other == [other[0]] + other[1..];
        }
      } else {
        SetAtOnly(inner, path[1..], x, []);
      }
    }
  }

  function DigestPath(id: string): JsonPath {
    ["artifacts", id, "checksums", "sha256"]
  }

  /** The manifest with the archive's new digest. */
  function WithDigest(manifest: Json, id: string, digest: string): Json {
    SetAt(manifest, DigestPath(id), JString(digest))
  }

  lemma BindingIsAtPath(env: Env, spec: Spec, manifest: Json, id: string, digest: string)
    requires ManifestBinds(env, spec, manifest, id, digest)
    ensures Lookup(manifest, DigestPath(id)) == Some(JString(digest))
  {
    var artifact := manifest.fields["artifacts"].fields[id];
    assert id in Matched(env, spec, manifest.fields["artifacts"].fields);
    var checksums := artifact.fields["checksums"];
    var p := DigestPath(id);
    assert p[1..] == [id, "checksums", "sha256"] && p[1..][1..] == ["checksums", "sha256"];
    assert p[1..][1..][1..] == ["sha256"] && p[1..][1..][1..][1..] == [];
    assert Lookup(checksums, ["sha256"]) == Some(JString(digest)) by {
      assert ["sha256"][1..] == [];
    }
    assert Lookup(artifact, ["checksums", "sha256"]) == Lookup(checksums, ["sha256"]);
    assert Lookup(manifest.fields["artifacts"], p[1..]) == Lookup(artifact, p[1..][1..]);
  }

  /** Rewriting a binding manifest changes that digest and no other value. */
  lemma OnlyDigestChanges(env: Env, spec: Spec, manifest: Json, id: string, original: string, digest: string)
    requires ManifestBinds(env, spec, manifest, id, original)
    ensures Lookup(manifest, DigestPath(id)) == Some(JString(original))
    ensures Lookup(WithDigest(manifest, id, digest), DigestPath(id)) == Some(JString(digest))
    ensures forall path: JsonPath | !(DigestPath(id) <= path) && !(path <= DigestPath(id)) ::
      Lookup(WithDigest(manifest, id, digest), path) == Lookup(manifest, path)
    ensures forall path: JsonPath | path < DigestPath(id) ::
      var (before, after) := (Lookup(manifest, path), Lookup(WithDigest(manifest, id, digest), path));
      before.Some? && after.Some? && before.value.JObject? && after.value.JObject?
      && before.value.fields.Keys == after.value.fields.Keys
  {
    BindingIsAtPath(env, spec, manifest, id, original);
    forall path: JsonPath
      ensures Lookup(WithDigest(manifest, id, digest), DigestPath(id)) == Some(JString(digest))
      ensures !(DigestPath(id) <= path) && !(path <= DigestPath(id)) ==>
                Lookup(WithDigest(manifest, id, digest), path) == Lookup(manifest, path)
      ensures path < DigestPath(id) ==>
                var (before, after) := (Lookup(manifest, path), Lookup(WithDigest(manifest, id, digest), path));
                before.Some? && after.Some? && before.value.JObject? && after.value.JObject?
                && before.value.fields.Keys == after.value.fields.Keys
    {
      hide Lookup, SetAt, DigestPath;
      SetAtOnly(manifest, DigestPath(id), JString(digest), path);
    }
    hide *;
    SetAtOnly(manifest, DigestPath(id), JString(digest), []);
  }
}
