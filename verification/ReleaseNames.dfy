/** Where the names of the three prepared files lead when a preparation is over
    (xtask/src/release_archive.rs:62-103, 181-193). */
module ReleaseNames {
  import opened Outcome
  import opened Bytes
  import opened DistManifest
  import opened ReleaseFiles
  import opened PrepareRelease

  /** Others leave these names of the preparation's alone, from their last check until its step `n`. */
  ghost predicate NamesLeft(p: Preparation, f: File, n: nat) {
    p.history != [] && LeftAlone(p.others, p.history[0].clock, BindingOf(p.held, f), f, n)
  }

  /** At the end the file's names lead to it. */
  predicate NamesLead(p: Preparation, f: File) {
    p.history != [] && Leads(p.history[|p.history| - 1].state, BindingOf(p.held, f))
  }

  // ----- Preparations that succeed and have lost a name

  const OLD: seq<byte> := [1]
  const NEW: seq<byte> := [2]
  const SPEC: Spec := Spec("n", "t")
  const PLACES: Places := Places("d", "n", "d", "m")

  const KEYS: set<string> := {"name", "kind", "target_triples", "path", "checksum", "checksums"}

  function ArtifactField(key: string, digest: string): Json {
    if key == "kind" then JString("executable-zip")
    else if key == "target_triples" then JArray([JString("t")])
    else if key == "checksum" then JString("n.sha256")
    else if key == "checksums" then JObject(map["sha256" := JString(digest)])
    else JString("n")
  }

  function ArtifactWith(digest: string): Json {
    JObject(map k | k in KEYS :: ArtifactField(k, digest))
  }

  function ManifestWith(digest: string): Json {
    JObject(map["artifacts" := JObject(map["x" := ArtifactWith(digest)])])
  }

  function ExampleEnv(): Env {
    Env(
      b => if b == OLD then Some(ManifestWith("o"))
           else if b == NEW + [DistManifest.LF] then Some(ManifestWith("n"))
           else None,
      v => if v == ManifestWith("o") then OLD else NEW,
      b => if b == OLD then "o" else "n",
      p => Some(p),
      s => seq(|s|, i requires 0 <= i < |s| => s[i] as int % 256))
  }

  function ExampleTools(): Tools {
    Tools("manifest", "tool", _ => Some([3]), _ => Some(None), _ => Some([4]), (_, _) => Some(NEW), _ => true)
  }

  function ExampleStart(): State {
    State(
      map["d" := 1],
      map[(1, "n") := 10, (1, "n.sha256") := 11, (1, "m") := 12],
      map[10 := FileNode(true, 1, OLD), 11 := FileNode(true, 1, Checksum(ExampleEnv(), "n", OLD)),
          12 := FileNode(true, 1, OLD),
          13 := FileNode(true, 1, [])])
  }

  function ExampleFiles(): Three {
    Three(Binding("d", 1, "n", 10), Binding("d", 1, "n.sha256", 11), Binding("d", 1, "m", 12))
  }

  /** The first step from which others can lose a name unnoticed: the one after its last check. The manifest's
      entry is checked by the last step of all, its directory earlier. */
  function FirstLoss(f: File): nat {
    match f
    case ArchiveFile => 49
    case ChecksumFile => 53
    case ManifestFile => 54
  }

  /** Before step `m` someone binds the file's name, or the manifest's directory, to something else. */
  function Renaming(f: File, m: nat, k: nat, s: State): State {
    if k != m then s
    else
      match f
      case ArchiveFile => s.(names := s.names[(1, "n") := 13])
      case ChecksumFile => s.(names := s.names[(1, "n.sha256") := 13])
      case ManifestFile => s.(dirs := s.dirs["d" := 2])
  }

  function RenamingAt(f: File, m: nat): (nat, State) -> State {
    (k: nat, s: State) => Renaming(f, m, k, s)
  }

  lemma ArtifactHas(key: string, digest: string)
    requires key in KEYS
    ensures Field(ArtifactWith(digest), key) == Some(ArtifactField(key, digest))
  {
    hide ArtifactField;
  }

  lemma ArtifactMatches(digest: string)
    ensures Matches(ExampleEnv(), SPEC, ArtifactWith(digest))
  {
    hide ArtifactWith;
    ArtifactHas("name", digest);
    ArtifactHas("kind", digest);
    ArtifactHas("target_triples", digest);
    ArtifactHas("path", digest);
  }

  lemma ArtifactBinds(digest: string)
    ensures Binds(ExampleEnv(), SPEC, ArtifactWith(digest), digest)
  {
    hide ArtifactWith;
    ArtifactHas("checksum", digest);
    ArtifactHas("checksums", digest);
    assert "n" + ".sha256" == "n.sha256";
  }

  lemma ExampleManifest(digest: string)
    ensures ManifestBinds(ExampleEnv(), SPEC, ManifestWith(digest), "x", digest)
  {
    ArtifactMatches(digest);
    ArtifactBinds(digest);
    hide Matches, Binds, ArtifactWith;
    var artifacts := map["x" := ArtifactWith(digest)];
    assert ManifestWith(digest).fields["artifacts"] == JObject(artifacts);
    assert Matched(ExampleEnv(), SPEC, artifacts) == {"x"};
  }

  lemma ExampleRewritten()
    ensures WithDigest(ManifestWith("o"), "x", "n") == ManifestWith("n")
  {
    var p := DigestPath("x");
    assert p[1..] == ["x", "checksums", "sha256"] && p[1..][1..] == ["checksums", "sha256"];
    assert p[1..][1..][1..] == ["sha256"] && p[1..][1..][1..][1..] == [];
    var sums, sums' := ArtifactWith("o").fields["checksums"], ArtifactWith("n").fields["checksums"];
    assert SetAt(JString("o"), p[1..][1..][1..][1..], JString("n")) == JString("n");
    assert sums.fields["sha256" := JString("n")] == sums'.fields;
    assert SetAt(sums, p[1..][1..][1..], JString("n")) == sums';
    var a, a' := ArtifactWith("o"), ArtifactWith("n");
    assert a.fields["checksums" := sums'] == a'.fields;
    assert SetAt(a, p[1..][1..], JString("n")) == a';
    var all, all' := ManifestWith("o").fields["artifacts"], ManifestWith("n").fields["artifacts"];
    assert all.fields["x" := a'] == all'.fields;
    assert SetAt(all, p[1..], JString("n")) == all';
    assert ManifestWith("o").fields["artifacts" := all'] == ManifestWith("n").fields;
  }

  lemma ExampleApart()
    ensures ManifestWith("n") != ManifestWith("o")
  {
    ExampleManifest("n");
    ExampleManifest("o");
    hide ManifestBinds;
    BindingIsAtPath(ExampleEnv(), SPEC, ManifestWith("n"), "x", "n");
    BindingIsAtPath(ExampleEnv(), SPEC, ManifestWith("o"), "x", "o");
  }

  lemma ExampleNames()
    ensures ExampleStart().names[(1, "n")] == 10 && ExampleStart().names[(1, "n.sha256")] == 11
            && ExampleStart().names[(1, "m")] == 12
  {
    assert "n" != "n.sha256" && "m" != "n.sha256" && "n" != "m";
  }

  lemma ExampleIntact()
    ensures ExampleFiles().AllIntact(ExampleStart())
    ensures ContentsAt(ExampleStart(), ExampleFiles()) == Contents(OLD, Checksum(ExampleEnv(), "n", OLD), OLD)
  {
    hide Checksum;
    ExampleNames();
  }

  lemma ExampleSizes()
    ensures |Checksum(ExampleEnv(), "n", OLD)| == 5
  {
  }

  lemma ExampleOpenable()
    ensures Openable(ExampleStart(), PLACES, 100, ExampleFiles()) && ExampleFiles().Apart()
    ensures ContentsAt(ExampleStart(), ExampleFiles()) == Contents(OLD, Checksum(ExampleEnv(), "n", OLD), OLD)
  {
    ExampleIntact();
    ExampleSizes();
    hide Checksum, Intact, ContentsAt;
    assert ExampleFiles().At(PLACES) by {
      assert "n" + ".sha256" == "n.sha256";
    }
  }

  lemma ExampleRewritable()
    ensures Rewritable(ExampleEnv(), SPEC, OLD, "x", "o", "n")
  {
    ExampleManifest("o");
    ExampleManifest("n");
    ExampleRewritten();
    ExampleApart();
    hide ManifestBinds, WithDigest, ManifestWith;
    assert ExampleEnv().render(ManifestWith("n")) + [DistManifest.LF] == NEW + [DistManifest.LF] != OLD;
    assert ExampleEnv().parse(NEW + [DistManifest.LF]) == Some(ManifestWith("n"));
  }

  lemma ExampleReady()
    ensures Ready(ExampleStart(), ExampleEnv(), ExampleTools(), SPEC, PLACES, 100, ExampleFiles(), "x", NEW)
  {
    ExampleOpenable();
    ExampleRewritable();
    ChecksumExactly(ExampleEnv(), "n", OLD, Checksum(ExampleEnv(), "n", OLD));
    hide Openable, Rewritable, Checksum, IsSidecar, NamesDigest, ContentsAt;
    assert ChecksumBinds(ExampleEnv(), "n", OLD, Checksum(ExampleEnv(), "n", OLD));
    assert BuiltBy(ExampleTools(), OLD, [3], None, [4], NEW);
    assert ExampleEnv().digest(OLD) == "o" && ExampleEnv().digest(NEW) == "n";
  }

  lemma RenamingKeeps(f: File, m: nat, k: nat, s: State)
    ensures KeepsBut(s, Renaming(f, m, k, s), {}) && Renaming(f, m, k, s).files == s.files
    ensures f != ManifestFile ==> Renaming(f, m, k, s).dirs == s.dirs
    ensures forall b | b == BindingOf(ExampleFiles(), ManifestFile) || f == ManifestFile ::
              EntryBound(s, b) ==> EntryBound(Renaming(f, m, k, s), b)
    ensures f == ChecksumFile && EntryBound(s, ExampleFiles().archive) ==>
              EntryBound(Renaming(f, m, k, s), ExampleFiles().archive)
    ensures f == ArchiveFile && EntryBound(s, ExampleFiles().checksum) ==>
              EntryBound(Renaming(f, m, k, s), ExampleFiles().checksum)
  {
    assert "n.sha256" != "n" && "m" != "n" && "m" != "n.sha256";
  }

  lemma ExamplePeaceful(fs: FileSystem, f: File, m: nat)
    requires fs.others == RenamingAt(f, m) && m >= FirstLoss(f) && forall k :: !fs.fails(k)
    ensures Peaceful(fs, 0, ExampleFiles())
    ensures forall k, s :: KeepsBut(s, fs.others(k, s), {})
  {
    hide KeepsBut, ExampleFiles, DirBound, EntryBound, SoleLink;
    forall k, s
      ensures KeepsBut(s, fs.others(k, s), {}) && fs.others(k, s) == Renaming(f, m, k, s)
    {
      RenamingKeeps(f, m, k, s);
    }
    Spares(fs, f, m, ArchiveFile, 49);
    Spares(fs, f, m, ChecksumFile, 53);
    Spares(fs, f, m, ManifestFile, if f == ManifestFile then 54 else 57);
    if f == ManifestFile {
      SparesEntry(fs, m);
    }
  }

  /** Someone who renames later, or another file of the same directory, spares this one. */
  lemma Spares(fs: FileSystem, f: File, m: nat, g: File, to: nat)
    requires fs.others == RenamingAt(f, m) && (m >= to || (f != g && f != ManifestFile))
    ensures Spared(fs, BindingOf(ExampleFiles(), g), 0, to)
  {
    hide EntryBound;
    var b := BindingOf(ExampleFiles(), g);
    forall k, s | 0 <= k < to && Intact(s, b)
      ensures Intact(fs.others(k, s), b)
    {
      RenamingKeeps(f, m, k, s);
    }
  }

  lemma SparesEntry(fs: FileSystem, m: nat)
    requires fs.others == RenamingAt(ManifestFile, m)
    ensures SparedEntry(fs, ExampleFiles().manifest, 54, 57)
  {
    hide EntryBound;
    var b := ExampleFiles().manifest;
    forall k, s | 54 <= k < 57 && EntryBound(s, b) && SoleLink(s, b)
      ensures EntryBound(fs.others(k, s), b) && SoleLink(fs.others(k, s), b)
    {
      RenamingKeeps(ManifestFile, m, k, s);
    }
  }

  lemma {:induction false} NameIsElsewhere(f: File, m: nat, h: History, i: nat)
    requires Run(RenamingAt(f, m), h) && h[0].clock <= m && i < |h| && h[i].clock > m
    ensures !Leads(h[i].state, BindingOf(ExampleFiles(), f))
    decreases i
  {
    if i > 0 {
      assert Follows(RenamingAt(f, m), h[i - 1], h[i]);
      if h[i - 1].clock > m {
        NameIsElsewhere(f, m, h, i - 1);
      }
    }
  }

  lemma LeavesUntil(f: File, m: nat, n: nat, b: Binding)
    requires n <= m
    ensures LeftAlone(RenamingAt(f, m), 0, b, f, n)
  {
  }

  /** Whatever step short of the last others leave a file's names alone to, this preparation succeeds, and the
      names lead elsewhere. */
  method RenamedAfterItsCheck(f: File, n: nat) returns (failure: Option<Failure>, ghost p: Preparation)
    requires n < 57
    ensures failure.None? && Succeeded(p) && NamesLeft(p, f, n) && !NamesLead(p, f)
  {
    hide Ready, Succeeded, Peaceful, OpenedAll, Run, Follows, KeepsBut, Leads, LeftAlone, ExampleEnv, ExampleTools,
      ExampleStart, RenamingAt;
    var m := Max(n, FirstLoss(f));
    var fs := new FileSystem(ExampleStart(), RenamingAt(f, m), _ => false, _ => 0);
    ExampleReady();
    ExamplePeaceful(fs, f, m);
    RunStart(RenamingAt(f, m), Moment(0, ExampleStart(), true));
    ghost var held, original, now;
    failure, held, original, now := PrepareWithSigner(fs, ExampleEnv(), ExampleTools(), SPEC, PLACES, 100,
        (ExampleFiles(), "x", NEW));
    p := Preparation(fs.others, ExampleEnv(), ExampleTools(), SPEC, PLACES, fs.history[0..], held.value, original, now);
    RunIs(p);
    NameIsElsewhere(f, m, p.history, |p.history| - 1);
    LeavesUntil(f, m, n, BindingOf(p.held, f));
  }

  lemma RunIs(p: Preparation)
    requires Succeeded(p)
    ensures p.history != [] && Run(p.others, p.history)
    ensures p.history[|p.history| - 1].clock == p.history[0].clock + 57
    ensures FinallyRechecked(p.history, p.held, p.now)
  {
    hide Follows, OpenedAll, KeepsBut, FinallyRechecked;
  }

  lemma RunStart(others: (nat, State) -> State, m: Moment)
    ensures Run(others, [m])
  {
  }

  /** That on success a file's names still lead to it is false. It is true of every preparation whose others leave
      those names alone, from their last check to step `n`, exactly when that takes in all of its 57 steps. */
  method NamesHold(f: File, n: nat)
    ensures (forall p | Succeeded(p) && NamesLeft(p, f, n) :: NamesLead(p, f)) <==> n >= 57
  {
    hide Succeeded, NamesLead, NamesLeft;
    if n < 57 {
      var failure;
      ghost var p;
      failure, p := RenamedAfterItsCheck(f, n);
    } else {
      forall p | Succeeded(p) && NamesLeft(p, f, n)
        ensures NamesLead(p, f)
      {
        NamesStay(p, f, n);
      }
    }
  }

  lemma NamesStay(p: Preparation, f: File, n: nat)
    requires n >= 57 && Succeeded(p) && NamesLeft(p, f, n)
    ensures NamesLead(p, f)
  {
    hide Succeeded, Leads, LeftAlone, Run, FinallyRechecked;
    RunIs(p);
    LeftAloneWithin(p.others, p.history[0].clock, BindingOf(p.held, f), f, n);
    LeftAloneLeads(p.others, p.history[0].clock, p.history, p.held, p.now, f);
  }

  lemma LeftAloneWithin(others: (nat, State) -> State, from: nat, b: Binding, f: File, n: nat)
    requires n >= 57 && LeftAlone(others, from, b, f, n)
    ensures LeftAlone(others, from, b, f, 57)
  {
  }
}
