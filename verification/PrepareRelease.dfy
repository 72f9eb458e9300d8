/** Preparing a release (xtask/src/release_archive.rs:105-193, 389-395, 497-515): three held files that must
    agree. Reading, rewriting and verifying an archive, and the signer, are parameters. */
module PrepareRelease {
  import opened Outcome
  import opened Bytes
  import opened DistManifest
  import opened ReleaseFiles

  datatype Tools = Tools(
    manifestName: string,
    executableName: string,
    executable: seq<byte> -> Option<seq<byte>>,
    sign: seq<byte> -> Option<Option<seq<byte>>>,
    renderManifest: seq<byte> -> Option<seq<byte>>,
    rewrite: (seq<byte>, map<string, seq<byte>>) -> Option<seq<byte>>,
    verify: seq<byte> -> bool)

  /** Where the three files are named. */
  datatype Places = Places(directory: string, archive: string, manifestDirectory: string, manifest: string)

  datatype Failure =
    | OpenFailed
    | ChecksumMismatch
    | ManifestMismatch
    | BuildFailed
    | RewriteFailed

  const MAX_CHECKSUM_BYTES: nat := 1024
  const MAX_DIST_MANIFEST_BYTES: nat := 4 * 1024 * 1024

  // ----- The new archive

  /** The release manifest names the executable's digest, signed or not; a signed executable goes in too. */
  function Replacements(tools: Tools, manifest: seq<byte>, signed: Option<seq<byte>>): map<string, seq<byte>> {
    map[tools.manifestName := manifest] + if signed.Some? then map[tools.executableName := signed.value] else map[]
  }

  /** The archive `p` is what signing and rewriting make of the original, by way of these results. */
  predicate BuiltBy(tools: Tools, original: seq<byte>, executable: seq<byte>, signed: Option<seq<byte>>,
                    manifest: seq<byte>, p: seq<byte>)
  {
    && tools.executable(original) == Some(executable) && tools.sign(executable) == Some(signed)
    && tools.renderManifest(if signed.Some? then signed.value else executable) == Some(manifest)
    && tools.rewrite(original, Replacements(tools, manifest, signed)) == Some(p) && tools.verify(p)
  }

  ghost predicate Builds(tools: Tools, original: seq<byte>, p: seq<byte>) {
    exists executable, signed, manifest :: BuiltBy(tools, original, executable, signed, manifest, p)
  }

  /** What will be written as the archive; nothing if any part of it fails. */
  method Build(tools: Tools, original: seq<byte>) returns (r: Option<seq<byte>>)
    ensures r.Some? ==> Builds(tools, original, r.value)
    ensures forall p :: Builds(tools, original, p) ==> r == Some(p)
  {
    var executable := tools.executable(original);
    if executable.None? {
      return None;
    }
    var signed := tools.sign(executable.value);
    if signed.None? {
      return None;
    }
    var manifest := tools.renderManifest(if signed.value.Some? then signed.value.value else executable.value);
    if manifest.None? {
      return None;
    }
    var replacements := map[tools.manifestName := manifest.value];
    if signed.value.Some? {
      replacements := replacements[tools.executableName := signed.value.value];
    }
    assert replacements == Replacements(tools, manifest.value, signed.value);
    r := tools.rewrite(original, replacements);
    if r.Some? && !tools.verify(r.value) {
      return None;
    }
    assert r.Some? ==> BuiltBy(tools, original, executable.value, signed.value, manifest.value, r.value);
  }

  // ----- The manifest

  /** A rewritten manifest is its old value with one new digest, on a line of its own. */
  predicate Rewritten(env: Env, original: seq<byte>, id: string, digest: string, rendered: seq<byte>) {
    && env.parse(original).Some?
    && rendered == env.render(WithDigest(env.parse(original).value, id, digest)) + [DistManifest.LF]
  }

  ghost predicate BindsSome(env: Env, spec: Spec, bytes: seq<byte>, digest: string) {
    env.parse(bytes).Some? && exists id :: ManifestBinds(env, spec, env.parse(bytes).value, id, digest)
  }

  lemma BindsOne(env: Env, spec: Spec, v: Json, id: string, id': string, digest: string, digest': string)
    requires ManifestBinds(env, spec, v, id, digest) && ManifestBinds(env, spec, v, id', digest')
    ensures id == id'
  {
    hide Binds, Matched;
    var artifacts := v.fields["artifacts"].fields;
    assert id in Matched(env, spec, artifacts);
  }

  /** Whatever is read back from the written manifest, if the library reads what it renders: every old value,
      but the digest. */
  lemma RewrittenReads(env: Env, spec: Spec, original: seq<byte>, id: string, digest: string, digest': string,
                       rendered: seq<byte>)
    requires Rewritten(env, original, id, digest', rendered)
    requires ManifestBinds(env, spec, env.parse(original).value, id, digest)
    requires var v := WithDigest(env.parse(original).value, id, digest');
      env.parse(env.render(v) + [DistManifest.LF]) == Some(v)
    ensures env.parse(rendered).Some?
    ensures var (v, v') := (env.parse(original).value, env.parse(rendered).value);
      && Lookup(v', DigestPath(id)) == Some(JString(digest'))
      && (forall path: JsonPath | !(DigestPath(id) <= path) && !(path <= DigestPath(id)) ::
            Lookup(v', path) == Lookup(v, path))
      && forall path: JsonPath | path < DigestPath(id) ::
           Lookup(v, path).Some? && Lookup(v', path).Some? && Lookup(v, path).value.JObject?
           && Lookup(v', path).value.JObject? && Lookup(v', path).value.fields.Keys == Lookup(v, path).value.fields.Keys
  {
    hide Lookup, WithDigest, DigestPath, ManifestBinds;
    OnlyDigestChanges(env, spec, env.parse(original).value, id, digest, digest');
  }

  /** Rewriting succeeds if the old manifest binds the old digest, the new one the new digest, and others
      leave the file. */
  method RewriteDistManifest(fs: FileSystem, env: Env, spec: Spec, file: RetainedFile, originalDigest: string,
                             digest: string, ghost id0: string)
    returns (id: Option<string>)
    requires fs.Valid() && file.at.handle in fs.state.files
    modifies fs, file`bytes
    ensures fs.Went({file.at.handle}) && file.at.handle in fs.state.files
    ensures id.Some? ==>
      && Rewritten(env, old(file.bytes), id.value, digest, file.bytes)
      && ManifestBinds(env, spec, env.parse(old(file.bytes)).value, id.value, originalDigest)
      && fs.state.files[file.at.handle].content == file.bytes && fs.steps == old(fs.steps) + 11
    ensures Rewritable(env, spec, old(file.bytes), id0, originalDigest, digest)
              && Intact(old(fs.state), file.at) && old(fs.state).files[file.at.handle].content == old(file.bytes)
              && Works(fs, old(fs.steps), old(fs.steps) + 11) && Spared(fs, file.at, old(fs.steps), old(fs.steps) + 11)
            ==> id.Some? && Intact(fs.state, file.at)
  {
    hide ManifestBinds, Intact;
    id := ValidateDistManifest(env, spec, file.bytes, originalDigest);
    if id.None? {
      return;
    }
    if Rewritable(env, spec, file.bytes, id0, originalDigest, digest) {
      BindsOne(env, spec, env.parse(file.bytes).value, id.value, id0, originalDigest, originalDigest);
    }
    var rendered := env.render(WithDigest(env.parse(file.bytes).value, id.value, digest)) + [DistManifest.LF];
    var valid := ValidateDistManifest(env, spec, rendered, digest);
    if valid.None? {
      return None;
    }
    var ok := ReplaceGeneratedFile(fs, rendered, file);
    if !ok {
      return None;
    }
  }

  /** The old manifest binds the old digest at this artifact, and so will the rendered one the new. */
  ghost predicate Rewritable(env: Env, spec: Spec, manifest: seq<byte>, id: string, digest: string, digest': string) {
    && env.parse(manifest).Some? && ManifestBinds(env, spec, env.parse(manifest).value, id, digest)
    && BindsSome(env, spec, env.render(WithDigest(env.parse(manifest).value, id, digest')) + [DistManifest.LF], digest')
  }

  // ----- The three files

  /** The bindings of archive, checksum and manifest. */
  datatype Three = Three(archive: Binding, checksum: Binding, manifest: Binding) {
    predicate At(places: Places) {
      && Named(archive, places.directory, places.archive)
      && Named(checksum, places.directory, places.archive + ".sha256")
      && Named(manifest, places.manifestDirectory, places.manifest)
    }

    predicate Apart() {
      archive.handle != checksum.handle && archive.handle != manifest.handle && checksum.handle != manifest.handle
    }

    predicate AllIntact(s: State) {
      Intact(s, archive) && Intact(s, checksum) && Intact(s, manifest)
    }

    function Handles(): set<Inode> {
      {archive.handle, checksum.handle, manifest.handle}
    }
  }

  datatype File = ArchiveFile | ChecksumFile | ManifestFile

  datatype Contents = Contents(archive: seq<byte>, checksum: seq<byte>, manifest: seq<byte>)

  predicate Hold(s: State, t: Three, c: Contents) {
    && t.archive.handle in s.files && s.files[t.archive.handle].content == c.archive
    && t.checksum.handle in s.files && s.files[t.checksum.handle].content == c.checksum
    && t.manifest.handle in s.files && s.files[t.manifest.handle].content == c.manifest
  }

  /** The first twelve steps opened the three files under their names, with these contents. */
  ghost predicate OpenedAll(h: History, places: Places, t: Three, c: Contents) {
    && t.At(places) && |h| >= 12
    && OpenedIn(h[..4], t.archive, c.archive) && OpenedIn(h[4..8], t.checksum, c.checksum)
    && OpenedIn(h[8..12], t.manifest, c.manifest)
  }

  lemma OpenedInTurn(h2: History, h: History, n: nat, places: Places, t: Three, c: Contents)
    requires |h2| == n + 8 && |h| == n + 12 && h2 <= h && t.At(places)
    requires OpenedIn(h2[n..n + 4], t.archive, c.archive) && OpenedIn(h2[n + 4..], t.checksum, c.checksum)
    requires OpenedIn(h[n + 8..], t.manifest, c.manifest)
    ensures OpenedAll(h[n..], places, t, c)
  {
    hide OpenedIn;
    assert h[n..][..4] == h2[n..n + 4] && h[n..][4..8] == h2[n + 4..] && h[n..][8..12] == h[n + 8..];
  }

  lemma OpenedStays(h: History, h': History, n: nat, places: Places, t: Three, c: Contents)
    requires h <= h' && n <= |h| && OpenedAll(h[n..], places, t, c)
    ensures OpenedAll(h'[n..], places, t, c)
  {
    hide OpenedIn;
    assert h'[n..][..4] == h[n..][..4] && h'[n..][4..8] == h[n..][4..8] && h'[n..][8..12] == h[n..][8..12];
  }

  /** The last twelve steps rechecked the three files, one after the other. */
  ghost predicate FinallyRechecked(h: History, t: Three, c: Contents) {
    && |h| >= 12
    && Rechecked(h[|h| - 12..|h| - 8], t.archive, c.archive)
    && Rechecked(h[|h| - 8..|h| - 4], t.checksum, c.checksum)
    && Rechecked(h[|h| - 4..], t.manifest, c.manifest)
  }

  lemma RecheckedInTurn(h1: History, h: History, n: nat, t: Three, c: Contents)
    requires |h1| == n + 8 && |h| == n + 12 && h1 <= h
    requires Rechecked(h1[n..n + 4], t.archive, c.archive) && Rechecked(h1[n + 4..], t.checksum, c.checksum)
    requires Rechecked(h[n + 8..], t.manifest, c.manifest)
    ensures FinallyRechecked(h, t, c)
  {
    hide Rechecked;
    assert h[n..n + 4] == h1[n..n + 4] && h[n + 4..n + 8] == h1[n + 4..];
  }

  /** In a preparation from step `from`, nothing fails and each file is spared until its last recheck is over; of
      the manifest, checked last, only what that has yet to check. */
  ghost predicate Peaceful(fs: FileSystem, from: nat, t: Three) {
    && Works(fs, from, from + 57) && Spared(fs, t.archive, from, from + 49)
    && Spared(fs, t.checksum, from, from + 53) && SparedToCheck(fs, t.manifest, from, from + 57)
  }

  function BindingsOf(a: RetainedFile, c: RetainedFile, m: RetainedFile): Three {
    Three(a.at, c.at, m.at)
  }

  function ContentsOf(a: RetainedFile, c: RetainedFile, m: RetainedFile): Contents
    reads a, c, m
  {
    Contents(a.bytes, c.bytes, m.bytes)
  }

  /** The held file still stands, with the content it was read with. */
  predicate Unaltered(s: State, f: RetainedFile)
    reads f
  {
    f.at.handle in s.files && s.files[f.at.handle].content == f.bytes
  }

  /** Opens the archive and its checksum. */
  method OpenTwo(fs: FileSystem, places: Places, maxArchiveBytes: nat, ghost t: Three)
    returns (r: Option<(RetainedFile, RetainedFile)>)
    requires fs.Valid()
    modifies fs
    ensures fs.Went({})
    ensures r.Some? ==>
      var (a, c, n) := (r.value.0, r.value.1, |old(fs.history)|);
      && fresh(a) && fresh(c) && a != c && fs.steps == old(fs.steps) + 8 && |fs.history| == n + 8
      && Named(a.at, places.directory, places.archive) && Named(c.at, places.directory, places.archive + ".sha256")
      && OpenedIn(fs.history[n..n + 4], a.at, a.bytes) && OpenedIn(fs.history[n + 4..], c.at, c.bytes)
      && Unaltered(fs.state, a) && Unaltered(fs.state, c)
    ensures Openable(old(fs.state), places, maxArchiveBytes, t) && Works(fs, old(fs.steps), old(fs.steps) + 8)
              && Spared(fs, t.archive, old(fs.steps), old(fs.steps) + 8)
              && Spared(fs, t.checksum, old(fs.steps), old(fs.steps) + 8)
            ==> r.Some? && r.value.0.at == t.archive && r.value.1.at == t.checksum
  {
    hide Intact, OpenedIn, Run, Spared, Works, KeepsBut, Keeps, FileSystem.Valid;
    NowIs(fs);
    ghost var n, s0, from := |fs.history|, fs.state, fs.steps;
    ghost var calm := Openable(s0, places, maxArchiveBytes, t) && Works(fs, from, from + 8)
                      && Spared(fs, t.archive, from, from + 8) && Spared(fs, t.checksum, from, from + 8);
    if calm {
      IntactAreFiles(s0, t);
      SparedWithin(fs, t.archive, from, from + 8, from, from + 4);
      SparedWithin(fs, t.checksum, from, from + 8, from + 4, from + 8);
    }
    var a := ReadBoundedFile(fs, places.directory, places.archive, maxArchiveBytes, t.archive);
    if a.None? {
      return None;
    }
    ghost var h1, s1 := fs.history, fs.state;
    if calm {
      CarriedWithin(fs, n - 1, t.checksum, from, from + 8);
      Kept(s0, s1, {}, t.checksum.handle);
    }
    var c := ReadBoundedFile(fs, places.directory, places.archive + ".sha256", MAX_CHECKSUM_BYTES, t.checksum);
    KeepsOn(s0, s1, fs.state, {}, {}, {});
    if c.None? {
      return None;
    }
    Kept(s1, fs.state, {}, a.value.at.handle);
    assert fs.history[n..n + 4] == h1[n..];
    return Some((a.value, c.value));
  }

  /** Opens the three files. It succeeds if the names lead to bounded files and others leave them. */
  method OpenAll(fs: FileSystem, places: Places, maxArchiveBytes: nat, ghost t: Three)
    returns (r: Option<(RetainedFile, RetainedFile, RetainedFile)>)
    requires fs.Valid()
    modifies fs
    ensures fs.Went({})
    ensures r.Some? ==>
      var (a, c, m) := r.value;
      && fresh(a) && fresh(c) && fresh(m) && a != c && a != m && c != m
      && fs.steps == old(fs.steps) + 12 && |fs.history| == |old(fs.history)| + 12
      && OpenedAll(fs.history[|old(fs.history)|..], places, BindingsOf(a, c, m), ContentsOf(a, c, m))
      && Hold(fs.state, BindingsOf(a, c, m), ContentsOf(a, c, m))
    ensures Openable(old(fs.state), places, maxArchiveBytes, t) && Works(fs, old(fs.steps), old(fs.steps) + 12)
              && SparedAll(fs, t, old(fs.steps), old(fs.steps) + 12)
            ==> r.Some? && BindingsOf(r.value.0, r.value.1, r.value.2) == t && t.AllIntact(fs.state)
                && ContentsOf(r.value.0, r.value.1, r.value.2) == ContentsAt(old(fs.state), t)
  {
    hide Intact, OpenedIn, Run, Spared, Works, KeepsBut, Keeps, OpenedAll, FileSystem.Valid;
    NowIs(fs);
    ghost var n, s0, from := |fs.history|, fs.state, fs.steps;
    ghost var calm := Openable(s0, places, maxArchiveBytes, t) && Works(fs, from, from + 12)
                      && SparedAll(fs, t, from, from + 12);
    if calm {
      IntactAreFiles(s0, t);
      SparedWithin(fs, t.archive, from, from + 12, from, from + 8);
      SparedWithin(fs, t.checksum, from, from + 12, from, from + 8);
      SparedWithin(fs, t.manifest, from, from + 12, from + 8, from + 12);
    }
    var two := OpenTwo(fs, places, maxArchiveBytes, t);
    if two.None? {
      return None;
    }
    var (a, c) := two.value;
    ghost var h2, s2 := fs.history, fs.state;
    if calm {
      CarriedWithin(fs, n - 1, t.manifest, from, from + 12);
      Kept(s0, s2, {}, t.manifest.handle);
    }
    var m := ReadBoundedFile(fs, places.manifestDirectory, places.manifest, MAX_DIST_MANIFEST_BYTES, t.manifest);
    ghost var s3 := fs.state;
    KeepsOn(s0, s2, s3, {}, {}, {});
    if m.None? {
      return None;
    }
    Kept(s2, s3, {}, a.at.handle);
    Kept(s2, s3, {}, c.at.handle);
    if calm {
      CarriedWithin(fs, n - 1, t.archive, from, from + 12);
      CarriedWithin(fs, n - 1, t.checksum, from, from + 12);
      Kept(s0, s3, {}, t.archive.handle);
      Kept(s0, s3, {}, t.checksum.handle);
      Kept(s0, s3, {}, t.manifest.handle);
    }
    OpenedInTurn(h2, fs.history, n, places, BindingsOf(a, c, m.value), ContentsOf(a, c, m.value));
    return Some((a, c, m.value));
  }

  lemma IntactAreFiles(s: State, t: Three)
    requires t.AllIntact(s)
    ensures t.archive.handle in s.files && t.checksum.handle in s.files && t.manifest.handle in s.files
  {
  }

  /** The names lead to three bounded files. */
  ghost predicate Openable(s: State, places: Places, maxArchiveBytes: nat, t: Three) {
    && t.At(places) && t.AllIntact(s) && |ContentsAt(s, t).archive| <= maxArchiveBytes
    && |ContentsAt(s, t).checksum| <= MAX_CHECKSUM_BYTES && |ContentsAt(s, t).manifest| <= MAX_DIST_MANIFEST_BYTES
  }

  function ContentsAt(s: State, t: Three): Contents
    requires t.AllIntact(s)
  {
    Contents(s.files[t.archive.handle].content, s.files[t.checksum.handle].content, s.files[t.manifest.handle].content)
  }

  ghost predicate SparedAll(fs: FileSystem, t: Three, from: nat, to: nat) {
    Spared(fs, t.archive, from, to) && Spared(fs, t.checksum, from, to) && Spared(fs, t.manifest, from, to)
  }

  /** The first two rewrites: the archive, then its checksum. */
  method RewriteArchive(fs: FileSystem, env: Env, places: Places, a: RetainedFile, c: RetainedFile, prepared: seq<byte>)
    returns (ok: bool)
    requires fs.Valid() && a != c && a.at.handle in fs.state.files && c.at.handle in fs.state.files
    modifies fs, a`bytes, c`bytes
    ensures fs.Went({a.at.handle, c.at.handle})
    ensures ok ==>
      && a.bytes == prepared && IsSidecar(env, places.archive, c.bytes, env.digest(prepared))
      && fs.steps == old(fs.steps) + 22
      && c.at.handle in fs.state.files && fs.state.files[c.at.handle].content == c.bytes
      && a.at.handle in fs.state.files
      && (a.at.handle != c.at.handle ==> fs.state.files[a.at.handle].content == a.bytes)
    ensures Intact(old(fs.state), a.at) && old(fs.state).files[a.at.handle].content == old(a.bytes)
              && Intact(old(fs.state), c.at) && old(fs.state).files[c.at.handle].content == old(c.bytes)
              && a.at.handle != c.at.handle && Works(fs, old(fs.steps), old(fs.steps) + 22)
              && Spared(fs, a.at, old(fs.steps), old(fs.steps) + 22)
              && Spared(fs, c.at, old(fs.steps), old(fs.steps) + 22)
            ==> ok
  {
    hide Checksum, IsSidecar, ChecksumBinds, NamesDigest, Intact, Run, Spared, Works, KeepsBut, Keeps, FileSystem.Valid;
    NowIs(fs);
    ghost var n, s0, from, all := |fs.history|, fs.state, fs.steps, {a.at.handle, c.at.handle};
    ghost var calm := Intact(s0, c.at) && Works(fs, from, from + 22) && Spared(fs, a.at, from, from + 22)
                      && Spared(fs, c.at, from, from + 22);
    if calm {
      SparedWithin(fs, a.at, from, from + 22, from, from + 11);
      SparedWithin(fs, c.at, from, from + 22, from + 11, from + 22);
    }
    ok := ReplaceGeneratedFile(fs, prepared, a);
    ghost var s1 := fs.state;
    KeepsSelf(s0);
    KeepsOn(s0, s0, s1, {}, {a.at.handle}, all);
    if !ok {
      return;
    }
    Kept(s0, s1, {a.at.handle}, c.at.handle);
    if calm {
      CarriedWithin(fs, n - 1, c.at, from, from + 22);
    }
    ChecksumExactly(env, places.archive, prepared, c.bytes);
    ok := ReplaceGeneratedFile(fs, Checksum(env, places.archive, prepared), c);
    KeepsOn(s0, s1, fs.state, all, {c.at.handle}, all);
    Kept(s1, fs.state, {c.at.handle}, a.at.handle);
  }

  /** The three rewrites, in order. */
  method RewriteAll(fs: FileSystem, env: Env, spec: Spec, places: Places, a: RetainedFile, c: RetainedFile,
                    m: RetainedFile, originalDigest: string, prepared: seq<byte>, ghost id0: string)
    returns (id: Option<string>)
    requires fs.Valid() && a != c && a != m && c != m && Hold(fs.state, BindingsOf(a, c, m), ContentsOf(a, c, m))
    modifies fs, a`bytes, c`bytes, m`bytes
    ensures fs.Went(BindingsOf(a, c, m).Handles())
    ensures id.Some? ==>
      && a.bytes == prepared && IsSidecar(env, places.archive, c.bytes, env.digest(prepared))
      && Rewritten(env, old(m.bytes), id.value, env.digest(prepared), m.bytes)
      && ManifestBinds(env, spec, env.parse(old(m.bytes)).value, id.value, originalDigest)
      && fs.steps == old(fs.steps) + 33
      && (BindingsOf(a, c, m).Apart() ==> Hold(fs.state, BindingsOf(a, c, m), ContentsOf(a, c, m)))
    ensures Rewritable(env, spec, old(m.bytes), id0, originalDigest, env.digest(prepared))
              && BindingsOf(a, c, m).AllIntact(old(fs.state)) && BindingsOf(a, c, m).Apart()
              && Works(fs, old(fs.steps), old(fs.steps) + 33)
              && SparedAll(fs, BindingsOf(a, c, m), old(fs.steps), old(fs.steps) + 33)
            ==> id.Some? && BindingsOf(a, c, m).AllIntact(fs.state)
  {
    hide ManifestBinds, Rewritten, IsSidecar, NamesDigest, Rewritable, Intact, Run, Spared, Works, KeepsBut, Keeps,
      FileSystem.Valid;
    NowIs(fs);
    ghost var n, s0, from, all := |fs.history|, fs.state, fs.steps, BindingsOf(a, c, m).Handles();
    ghost var two := {a.at.handle, c.at.handle};
    ghost var calm := BindingsOf(a, c, m).AllIntact(s0) && BindingsOf(a, c, m).Apart()
                      && Works(fs, from, from + 33) && SparedAll(fs, BindingsOf(a, c, m), from, from + 33);
    if calm {
      SparedWithin(fs, a.at, from, from + 33, from, from + 22);
      SparedWithin(fs, c.at, from, from + 33, from, from + 22);
      SparedWithin(fs, m.at, from, from + 33, from + 22, from + 33);
    }
    var done := RewriteArchive(fs, env, places, a, c, prepared);
    ghost var s1 := fs.state;
    KeepsSelf(s0);
    KeepsOn(s0, s0, s1, {}, two, all);
    if !done {
      return None;
    }
    Kept(s0, s1, two, m.at.handle);
    if calm {
      CarriedWithin(fs, n - 1, m.at, from, from + 33);
    }
    id := RewriteDistManifest(fs, env, spec, m, originalDigest, env.digest(prepared), id0);
    ghost var s2 := fs.state;
    KeepsOn(s0, s1, s2, all, {m.at.handle}, all);
    Kept(s1, s2, {m.at.handle}, a.at.handle);
    Kept(s1, s2, {m.at.handle}, c.at.handle);
    if calm && id.Some? {
      CarriedWithin(fs, n - 1, a.at, from, from + 33);
      CarriedWithin(fs, n - 1, c.at, from, from + 33);
    }
  }

  lemma KeepsSelf(s: State)
    ensures KeepsBut(s, s, {})
  {
  }

  /** The first two rechecks. */
  method RevalidateTwo(fs: FileSystem, a: RetainedFile, c: RetainedFile) returns (ok: bool)
    requires fs.Valid() && a.at.handle in fs.state.files && c.at.handle in fs.state.files
    modifies fs
    ensures fs.Went({})
    ensures ok ==>
      && |fs.history| == |old(fs.history)| + 8 && fs.steps == old(fs.steps) + 8
      && Rechecked(fs.history[|old(fs.history)|..|old(fs.history)| + 4], a.at, a.bytes)
      && Rechecked(fs.history[|old(fs.history)| + 4..], c.at, c.bytes)
      && old(fs.state).files[a.at.handle].content == a.bytes && old(fs.state).files[c.at.handle].content == c.bytes
    ensures Intact(old(fs.state), a.at) && old(fs.state).files[a.at.handle].content == a.bytes
              && Intact(old(fs.state), c.at) && old(fs.state).files[c.at.handle].content == c.bytes
              && Works(fs, old(fs.steps), old(fs.steps) + 8) && Spared(fs, a.at, old(fs.steps), old(fs.steps) + 4)
              && Spared(fs, c.at, old(fs.steps), old(fs.steps) + 8)
            ==> ok
  {
    hide Rechecked, Intact, Run, Spared, Works, KeepsBut, Keeps, FileSystem.Valid;
    NowIs(fs);
    ghost var n, s0, from := |fs.history|, fs.state, fs.steps;
    ghost var calm := Intact(s0, c.at) && Works(fs, from, from + 8) && Spared(fs, c.at, from, from + 8);
    if calm {
      SparedWithin(fs, c.at, from, from + 8, from + 4, from + 8);
      WorksWithin(fs, from, from + 8, from, from + 4);
    }
    ok := a.Revalidate(fs);
    ghost var h1, s1 := fs.history, fs.state;
    Kept(s0, s1, {}, a.at.handle);
    Kept(s0, s1, {}, c.at.handle);
    if !ok {
      return;
    }
    if calm {
      CarriedWithin(fs, n - 1, c.at, from, from + 8);
    }
    ok := c.Revalidate(fs);
    KeepsOn(s0, s1, fs.state, {}, {}, {});
    Kept(s1, fs.state, {}, c.at.handle);
    assert ok ==> fs.history[n..n + 4] == h1[n..];
  }

  /** The final recheck of the three files, one after the other. */
  method RevalidateAll(fs: FileSystem, a: RetainedFile, c: RetainedFile, m: RetainedFile) returns (ok: bool)
    requires fs.Valid()
    requires a.at.handle in fs.state.files && c.at.handle in fs.state.files && m.at.handle in fs.state.files
    modifies fs
    ensures fs.Went({})
    ensures ok ==>
      && FinallyRechecked(fs.history, BindingsOf(a, c, m), ContentsOf(a, c, m))
      && |fs.history| == |old(fs.history)| + 12
      && Hold(fs.state, BindingsOf(a, c, m), ContentsOf(a, c, m)) && fs.steps == old(fs.steps) + 12
    ensures BindingsOf(a, c, m).AllIntact(old(fs.state))
              && Hold(old(fs.state), BindingsOf(a, c, m), ContentsOf(a, c, m))
              && Works(fs, old(fs.steps), old(fs.steps) + 12) && Spared(fs, a.at, old(fs.steps), old(fs.steps) + 4)
              && Spared(fs, c.at, old(fs.steps), old(fs.steps) + 8)
              && SparedToCheck(fs, m.at, old(fs.steps), old(fs.steps) + 12)
            ==> ok
  {
    hide Rechecked, Intact, Run, Spared, SparedToCheck, Works, KeepsBut, Keeps, FinallyRechecked, FileSystem.Valid;
    NowIs(fs);
    ghost var n, s0, from := |fs.history|, fs.state, fs.steps;
    ghost var calm := BindingsOf(a, c, m).AllIntact(s0) && Works(fs, from, from + 12)
                      && SparedToCheck(fs, m.at, from, from + 12);
    if calm {
      WorksWithin(fs, from, from + 12, from, from + 8);
      WorksWithin(fs, from, from + 12, from + 8, from + 12);
      SparedWithinCheck(fs, m.at, from, from + 12, from, from + 8);
      SparedWithinCheck(fs, m.at, from, from + 12, from + 8, from + 8);
    }
    ok := RevalidateTwo(fs, a, c);
    ghost var h1, s1 := fs.history, fs.state;
    Kept(s0, s1, {}, m.at.handle);
    if !ok {
      return;
    }
    if calm {
      CarriedWithin(fs, n - 1, m.at, from, from + 8);
    }
    ok := m.Revalidate(fs);
    KeepsOn(s0, s1, fs.state, {}, {}, {});
    Kept(s0, fs.state, {}, a.at.handle);
    Kept(s0, fs.state, {}, c.at.handle);
    if ok {
      RecheckedInTurn(h1, fs.history, n, BindingsOf(a, c, m), ContentsOf(a, c, m));
    }
  }

  lemma WorksWithin(fs: FileSystem, from: nat, to: nat, from': nat, to': nat)
    requires Works(fs, from, to) && from <= from' && to' <= to
    ensures Works(fs, from', to')
  {
  }

  /** What a preparation needs to be made: three files that agree, and tools that do their part. */
  ghost predicate Ready(s: State, env: Env, tools: Tools, spec: Spec, places: Places, maxArchiveBytes: nat, t: Three,
                        id: string, prepared: seq<byte>)
  {
    && Openable(s, places, maxArchiveBytes, t) && t.Apart()
    && var c := ContentsAt(s, t);
       && NamesDigest(env, places.archive, c.checksum, env.digest(c.archive)) && Builds(tools, c.archive, prepared)
       && Rewritable(env, spec, c.manifest, id, env.digest(c.archive), env.digest(prepared))
  }

  /** What a successful preparation has done to the files it opened with the original contents. */
  ghost predicate Prepared(env: Env, tools: Tools, spec: Spec, places: Places, h: History, s: State, t: Three,
                           original: Contents, now: Contents)
  {
    && FinallyRechecked(h, t, now) && Hold(s, t, now)
    && NamesDigest(env, places.archive, original.checksum, env.digest(original.archive))
    && Builds(tools, original.archive, now.archive)
    && IsSidecar(env, places.archive, now.checksum, env.digest(now.archive))
    && BindsSome(env, spec, now.manifest, env.digest(now.archive))
    && exists id ::
         && Rewritten(env, original.manifest, id, env.digest(now.archive), now.manifest)
         && ManifestBinds(env, spec, env.parse(original.manifest).value, id, env.digest(original.archive))
  }

  /** Why a preparation that had opened the three files failed. */
  ghost predicate Caused(env: Env, tools: Tools, spec: Spec, places: Places, original: Contents, failure: Failure) {
    var bound := NamesDigest(env, places.archive, original.checksum, env.digest(original.archive));
    var listed := BindsSome(env, spec, original.manifest, env.digest(original.archive));
    var built := exists p :: Builds(tools, original.archive, p);
    match failure
    case OpenFailed => false
    case ChecksumMismatch => !bound
    case ManifestMismatch => bound && !listed
    case BuildFailed => bound && listed && !built
    case RewriteFailed => bound && listed && built
  }

  /** Checks that the files agree, and builds what will be written as the archive. */
  method CheckAndBuild(env: Env, tools: Tools, spec: Spec, places: Places, archive: seq<byte>, checksum: seq<byte>,
                       manifest: seq<byte>, ghost id0: string, ghost p0: seq<byte>)
    returns (failure: Option<Failure>, prepared: seq<byte>)
    ensures var original := Contents(archive, checksum, manifest);
      && (failure.Some? ==>
            && failure.value in {ChecksumMismatch, ManifestMismatch, BuildFailed}
            && Caused(env, tools, spec, places, original, failure.value))
      && (failure.None? ==>
            && NamesDigest(env, places.archive, checksum, env.digest(archive)) && Builds(tools, archive, prepared)
            && Caused(env, tools, spec, places, original, RewriteFailed))
    ensures NamesDigest(env, places.archive, checksum, env.digest(archive)) && Builds(tools, archive, p0)
              && Rewritable(env, spec, manifest, id0, env.digest(archive), env.digest(p0))
            ==> failure.None? && prepared == p0
  {
    hide ManifestBinds, ChecksumBinds, NamesDigest, Builds, Rewritable, BindsSome;
    ChecksumExactly(env, places.archive, archive, checksum);
    if !ChecksumBinds(env, places.archive, archive, checksum) {
      return Some(ChecksumMismatch), [];
    }
    var id := ValidateDistManifest(env, spec, manifest, env.digest(archive));
    ValidatedBinds(env, spec, manifest, env.digest(archive), id);
    if id.None? {
      RewritableIsBound(env, spec, manifest, id0, env.digest(archive), env.digest(p0));
      return Some(ManifestMismatch), [];
    }
    var built := Build(tools, archive);
    if built.None? {
      return Some(BuildFailed), [];
    }
    return None, built.value;
  }

  /** A preparation that is over: what it was made with, its run, and what it opened and left. */
  datatype Preparation = Preparation(others: (nat, State) -> State, env: Env, tools: Tools, spec: Spec, places: Places,
                                     history: History, held: Three, original: Contents, now: Contents)

  /** What is known of every preparation that succeeds. */
  ghost predicate Succeeded(p: Preparation) {
    && (forall k, s :: KeepsBut(s, p.others(k, s), {})) && Run(p.others, p.history)
    && OpenedAll(p.history[1..], p.places, p.held, p.original)
    && var (first, last) := (p.history[0], p.history[|p.history| - 1]);
       && last.clock == first.clock + 57 && KeepsBut(first.state, last.state, p.held.Handles())
       && Prepared(p.env, p.tools, p.spec, p.places, p.history, last.state, p.held, p.original, p.now)
  }

  function BindingOf(t: Three, f: File): Binding {
    match f
    case ArchiveFile => t.archive
    case ChecksumFile => t.checksum
    case ManifestFile => t.manifest
  }

  /** The step after which a file's last recheck has seen its directory; three steps later it has seen the entry. */
  function CheckedAt(f: File): nat {
    match f
    case ArchiveFile => 46
    case ChecksumFile => 50
    case ManifestFile => 54
  }

  /** Others leave a file's names alone from their last check until step `n`. */
  ghost predicate LeftAlone(others: (nat, State) -> State, from: nat, b: Binding, f: File, n: nat) {
    && LeavesDir(others, b, from + CheckedAt(f), from + n)
    && LeavesEntry(others, b, from + CheckedAt(f) + 3, from + n)
  }

  lemma LeftAloneLeads(others: (nat, State) -> State, from: nat, h: History, t: Three, c: Contents, f: File)
    requires Run(others, h) && FinallyRechecked(h, t, c) && h[|h| - 1].clock == from + 57
    requires LeftAlone(others, from, BindingOf(t, f), f, 57)
    ensures Leads(h[|h| - 1].state, BindingOf(t, f))
  {
    hide Run, Rechecked, LeavesDir, LeavesEntry, Leads;
    var l := |h|;
    assert h[l - 12..][..4] == h[l - 12..l - 8] && h[l - 8..][..4] == h[l - 8..l - 4] && h[l - 4..][..4] == h[l - 4..];
    match f
    case ArchiveFile => RecheckedLeads(others, h, 11, t.archive, c.archive);
    case ChecksumFile => RecheckedLeads(others, h, 7, t.checksum, c.checksum);
    case ManifestFile => RecheckedLeads(others, h, 3, t.manifest, c.manifest);
  }

  /** The final checks: the files again, then what they say about each other. */
  method RecheckAll(fs: FileSystem, env: Env, spec: Spec, places: Places,
                    a: RetainedFile, c: RetainedFile, m: RetainedFile)
    returns (done: bool)
    requires fs.Valid()
    requires a.at.handle in fs.state.files && c.at.handle in fs.state.files && m.at.handle in fs.state.files
    modifies fs
    ensures fs.Went({})
    ensures done ==>
      && FinallyRechecked(fs.history, BindingsOf(a, c, m), ContentsOf(a, c, m))
      && |fs.history| == |old(fs.history)| + 12
      && Hold(fs.state, BindingsOf(a, c, m), ContentsOf(a, c, m)) && fs.steps == old(fs.steps) + 12
      && BindsSome(env, spec, m.bytes, env.digest(a.bytes))
    ensures BindingsOf(a, c, m).AllIntact(old(fs.state))
              && Hold(old(fs.state), BindingsOf(a, c, m), ContentsOf(a, c, m))
              && Works(fs, old(fs.steps), old(fs.steps) + 12) && Spared(fs, a.at, old(fs.steps), old(fs.steps) + 4)
              && Spared(fs, c.at, old(fs.steps), old(fs.steps) + 8)
              && SparedToCheck(fs, m.at, old(fs.steps), old(fs.steps) + 12)
              && NamesDigest(env, places.archive, c.bytes, env.digest(a.bytes))
              && BindsSome(env, spec, m.bytes, env.digest(a.bytes))
            ==> done
  {
    hide FinallyRechecked, Intact, Spared, SparedToCheck, Works, Hold, ManifestBinds, Run;
    ChecksumExactly(env, places.archive, a.bytes, c.bytes);
    done := RevalidateAll(fs, a, c, m);
    if !done || !ChecksumBinds(env, places.archive, a.bytes, c.bytes) {
      return false;
    }
    var again := ValidateDistManifest(env, spec, m.bytes, env.digest(a.bytes));
    done := again.Some?;
  }

  /** Rewriting and checking. */
  method Rewrite(fs: FileSystem, env: Env, spec: Spec, places: Places,
                 a: RetainedFile, c: RetainedFile, m: RetainedFile,
                 originalDigest: string, prepared: seq<byte>, ghost id0: string)
    returns (done: bool)
    requires fs.Valid() && a != c && a != m && c != m && Hold(fs.state, BindingsOf(a, c, m), ContentsOf(a, c, m))
    modifies fs, a`bytes, c`bytes, m`bytes
    ensures fs.Went(BindingsOf(a, c, m).Handles())
    ensures done ==>
      && FinallyRechecked(fs.history, BindingsOf(a, c, m), ContentsOf(a, c, m))
      && Hold(fs.state, BindingsOf(a, c, m), ContentsOf(a, c, m)) && fs.steps == old(fs.steps) + 45
      && |fs.history| >= |old(fs.history)| + 12
      && a.bytes == prepared && IsSidecar(env, places.archive, c.bytes, env.digest(prepared))
      && BindsSome(env, spec, m.bytes, env.digest(prepared))
      && exists id ::
           && Rewritten(env, old(m.bytes), id, env.digest(prepared), m.bytes)
           && ManifestBinds(env, spec, env.parse(old(m.bytes)).value, id, originalDigest)
    ensures Rewritable(env, spec, old(m.bytes), id0, originalDigest, env.digest(prepared))
              && BindingsOf(a, c, m).AllIntact(old(fs.state)) && BindingsOf(a, c, m).Apart()
              && Works(fs, old(fs.steps), old(fs.steps) + 45) && Spared(fs, a.at, old(fs.steps), old(fs.steps) + 37)
              && Spared(fs, c.at, old(fs.steps), old(fs.steps) + 41)
              && SparedToCheck(fs, m.at, old(fs.steps), old(fs.steps) + 45)
            ==> done
  {
    hide FinallyRechecked, Intact, ManifestBinds, Rewritten, IsSidecar, Rewritable, Run, BindsSome, Spared,
      SparedToCheck, Works, KeepsBut, FileSystem.Valid;
    ghost var calm := Rewritable(env, spec, m.bytes, id0, originalDigest, env.digest(prepared))
                      && BindingsOf(a, c, m).AllIntact(fs.state) && BindingsOf(a, c, m).Apart()
                      && Works(fs, fs.steps, fs.steps + 45) && Spared(fs, a.at, fs.steps, fs.steps + 37)
                      && Spared(fs, c.at, fs.steps, fs.steps + 41) && SparedToCheck(fs, m.at, fs.steps, fs.steps + 45);
    ghost var original, s, from := m.bytes, fs.state, fs.steps;
    if calm {
      WorksWithin(fs, from, from + 45, from, from + 37);
      WorksWithin(fs, from, from + 45, from, from + 41);
      SparedWithin(fs, a.at, from, from + 37, from, from + 33);
      SparedWithin(fs, a.at, from, from + 37, from + 33, from + 37);
      SparedWithin(fs, c.at, from, from + 41, from, from + 33);
      SparedWithin(fs, c.at, from, from + 41, from + 33, from + 41);
      SparedWithinCheck(fs, m.at, from, from + 45, from, from + 33);
      SparedWithinCheck(fs, m.at, from, from + 45, from + 33, from + 33);
      WorksWithin(fs, from, from + 45, from + 33, from + 45);
    }
    var id := RewriteAll(fs, env, spec, places, a, c, m, originalDigest, prepared, id0);
    if id.None? {
      return false;
    }
    ghost var s1, all := fs.state, BindingsOf(a, c, m).Handles();
    Kept(s, s1, all, a.at.handle);
    Kept(s, s1, all, c.at.handle);
    Kept(s, s1, all, m.at.handle);
    if calm {
      RewritableBinds(env, spec, original, id0, id.value, originalDigest, env.digest(prepared), m.bytes);
    }
    done := RecheckAll(fs, env, spec, places, a, c, m);
    KeepsOn(s, s1, fs.state, all, {}, all);
  }

  lemma RewritableBinds(env: Env, spec: Spec, original: seq<byte>, id0: string, id: string, digest: string,
                        digest': string, rendered: seq<byte>)
    requires Rewritable(env, spec, original, id0, digest, digest') && Rewritten(env, original, id, digest', rendered)
    requires ManifestBinds(env, spec, env.parse(original).value, id, digest)
    ensures BindsSome(env, spec, rendered, digest')
  {
    hide ManifestBinds, BindsSome, WithDigest;
    BindsOne(env, spec, env.parse(original).value, id, id0, digest, digest);
  }

  lemma AllLead(fs: FileSystem, from: nat, t: Three, c: Contents)
    requires fs.Valid() && FinallyRechecked(fs.history, t, c) && fs.steps == from + 57
    ensures forall f | LeftAlone(fs.others, from, BindingOf(t, f), f, 57) :: Leads(fs.state, BindingOf(t, f))
  {
    hide FinallyRechecked, LeftAlone, Leads, KeepsBut, Run;
    forall f | LeftAlone(fs.others, from, BindingOf(t, f), f, 57)
      ensures Leads(fs.state, BindingOf(t, f))
    {
      LeftAloneLeads(fs.others, from, fs.history, t, c, f);
    }
  }

  /** The preparation. Whatever others rename in between, it writes to nothing but the three files its first
      twelve steps opened under their names, and only once these agree and a new archive has been built and
      verified; every earlier failure, signing included, has changed no file. On success the three files hold
      bytes that bind each other, the manifest being the one opened with one digest changed, and each file's
      names lead to it if others left them alone since its last check. It succeeds whenever everything is ready
      for it and others spare each file until its last check. */
  method PrepareWithSigner(fs: FileSystem, env: Env, tools: Tools, spec: Spec, places: Places, maxArchiveBytes: nat,
                           ghost ready: (Three, string, seq<byte>))
    returns (failure: Option<Failure>, ghost held: Option<Three>, ghost original: Contents, ghost now: Contents)
    requires fs.Valid()
    modifies fs
    ensures held.None? <==> failure == Some(OpenFailed)
    ensures failure.Some? && failure != Some(RewriteFailed) ==> fs.Went({})
    ensures held.Some? ==>
      && fs.Went(held.value.Handles())
      && OpenedAll(fs.history[|old(fs.history)|..], places, held.value, original)
      && (failure.Some? ==> Caused(env, tools, spec, places, original, failure.value))
    ensures failure.None? ==>
      Succeeded(Preparation(fs.others, env, tools, spec, places, fs.history[|old(fs.history)| - 1..], held.value,
                            original, now))
    ensures failure.None? ==>
      forall f | LeftAlone(fs.others, old(fs.steps), BindingOf(held.value, f), f, 57) ::
        Leads(fs.state, BindingOf(held.value, f))
    ensures Ready(old(fs.state), env, tools, spec, places, maxArchiveBytes, ready.0, ready.1, ready.2)
              && Peaceful(fs, old(fs.steps), ready.0)
            ==> failure.None? && held == Some(ready.0)
  {
    hide FinallyRechecked, Intact, OpenedAll, Hold, ManifestBinds, Rewritten, IsSidecar, NamesDigest, Builds,
      Rewritable, Run, BindsSome, Succeeded, Prepared, LeftAlone, Leads, Caused, KeepsBut;
    held, original, now := None, Contents([], [], []), Contents([], [], []);
    ghost var (t, id0, p0) := ready;
    ghost var s0, steps := fs.state, fs.steps;
    ghost var calm := Ready(s0, env, tools, spec, places, maxArchiveBytes, t, id0, p0) && Peaceful(fs, steps, t);
    var files := OpenAll(fs, places, maxArchiveBytes, t);
    if files.None? {
      return Some(OpenFailed), held, original, now;
    }
    var (a, c, m) := files.value;
    ghost var h, s1, all := fs.history, fs.state, BindingsOf(a, c, m).Handles();
    KeepsSelf(s0);
    KeepsOn(s0, s0, s1, {}, {}, all);
    held, original, now := Some(BindingsOf(a, c, m)), ContentsOf(a, c, m), ContentsOf(a, c, m);
    assert calm ==> original == ContentsAt(s0, t);
    var prepared;
    var refused;
    refused, prepared := CheckAndBuild(env, tools, spec, places, a.bytes, c.bytes, m.bytes, id0, p0);
    if refused.Some? {
      return refused, held, original, now;
    }
    var done := Rewrite(fs, env, spec, places, a, c, m, env.digest(a.bytes), prepared, id0);
    KeepsOn(s0, s1, fs.state, all, all, all);
    OpenedStays(h, fs.history, |old(fs.history)|, places, held.value, original);
    if !done {
      return Some(RewriteFailed), held, original, now;
    }
    now := ContentsOf(a, c, m);
    IsOver(fs, old(fs.history), Preparation(fs.others, env, tools, spec, places,
                                            fs.history[|old(fs.history)| - 1..], held.value, original, now));
    AllLead(fs, steps, held.value, now);
    return None, held, original, now;
  }

  /** The run of a preparation within that of its file system. */
  lemma IsOver(fs: FileSystem, before: History, p: Preparation)
    requires fs.Valid() && before != [] && before <= fs.history && |fs.history| >= |before| + 12
    requires p.others == fs.others && p.history == fs.history[|before| - 1..]
    requires fs.steps == before[|before| - 1].clock + 57
    requires KeepsBut(before[|before| - 1].state, fs.state, p.held.Handles())
    requires OpenedAll(fs.history[|before|..], p.places, p.held, p.original)
    requires FinallyRechecked(fs.history, p.held, p.now) && Hold(fs.state, p.held, p.now)
    requires NamesDigest(p.env, p.places.archive, p.original.checksum, p.env.digest(p.original.archive))
    requires Builds(p.tools, p.original.archive, p.now.archive)
    requires IsSidecar(p.env, p.places.archive, p.now.checksum, p.env.digest(p.now.archive))
    requires BindsSome(p.env, p.spec, p.now.manifest, p.env.digest(p.now.archive))
    requires exists id ::
      && Rewritten(p.env, p.original.manifest, id, p.env.digest(p.now.archive), p.now.manifest)
      && ManifestBinds(p.env, p.spec, p.env.parse(p.original.manifest).value, id, p.env.digest(p.original.archive))
    ensures Succeeded(p)
  {
    hide KeepsBut, OpenedAll, Rechecked, Follows, Builds, ChecksumBinds, Rewritten, ManifestBinds, BindsSome, Hold,
      IsSidecar;
    var h, g, k := fs.history, p.history, |before| - 1;
    assert g[1..] == h[|before|..];
    forall i | 0 <= i < |g| - 1
      ensures Follows(p.others, g[i], g[i + 1])
    {
      assert Follows(fs.others, h[k + i], h[k + i + 1]);
    }
    assert g[|g| - 12..|g| - 8] == h[|h| - 12..|h| - 8] && g[|g| - 8..|g| - 4] == h[|h| - 8..|h| - 4];
    assert g[|g| - 4..] == h[|h| - 4..];
  }

  lemma ValidatedBinds(env: Env, spec: Spec, bytes: seq<byte>, digest: string, id: Option<string>)
    requires id.Some? ==> env.parse(bytes).Some? && ManifestBinds(env, spec, env.parse(bytes).value, id.value, digest)
    requires id.None? && env.parse(bytes).Some? ==>
               forall id' :: !ManifestBinds(env, spec, env.parse(bytes).value, id', digest)
    ensures BindsSome(env, spec, bytes, digest) == id.Some?
  {
    hide ManifestBinds;
  }

  lemma RewritableIsBound(env: Env, spec: Spec, manifest: seq<byte>, id: string, digest: string, digest': string)
    ensures Rewritable(env, spec, manifest, id, digest, digest') ==>
              env.parse(manifest).Some? && ManifestBinds(env, spec, env.parse(manifest).value, id, digest)
  {
  }
}
