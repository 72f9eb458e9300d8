/** Agent instructions and stored agents (crates/kitrove-agents/src/lib.rs:184-206, 222-280;
    crates/kitrove-agents/src/stored.rs:9-103, 140-145). JSON and the digest are parameters. */
module Agents {
  import opened Outcome
  import opened Bytes
  import opened LineEndings
  import opened Frames

  datatype AgentError =
    | InstructionsInvalid
    | InstructionsLineEndings
    | StorageLimit
    | StorageInvalid
    | StorageVersion
    | StorageNoncanonical
    | StorageHashMismatch
    | StorageSerialize

  /** `blank` is whether a text is all Unicode white space. */
  function ParseInstructions(blank: Text -> bool, input: Text, maxBytes: nat): Result<Text, AgentError> {
    if input == [] || 0 in input || |input| > maxBytes then Err(InstructionsInvalid)
    else
      var normalized := ReplaceCrLf(input);
      if CR in normalized then Err(InstructionsLineEndings)
      else
        var ended := TrimEnd(normalized) + [LF];
        if blank(ended) || |ended| > maxBytes then Err(InstructionsInvalid) else Ok(ended)
  }

  /** What instructions are kept as: their lines, each ended by LF, up to the last one with anything on it. */
  predicate Kept(input: Text, kept: Text, blank: nat) {
    && kept != [] && kept[|kept| - 1] == LF && (|kept| == 1 || kept[|kept| - 2] != LF)
    && Unix(input) == kept[..|kept| - 1] + seq(blank, _ => LF)
  }

  ghost predicate Keeps(input: Text, kept: Text) {
    exists n: nat :: Kept(input, kept, n)
  }

  lemma KeptIs(input: Text, kept: Text, n: nat)
    requires Kept(input, kept, n)
    ensures kept == TrimEnd(Unix(input)) + [LF]
  {
    hide TrimEnd, Unix;
    TrimsAway(kept[..|kept| - 1], n);
  }

  lemma KeepsExactly(input: Text, kept: Text)
    ensures Keeps(input, kept) <==> kept == TrimEnd(Unix(input)) + [LF]
  {
    hide Kept;
    forall n: nat | Kept(input, kept, n)
      ensures kept == TrimEnd(Unix(input)) + [LF]
    {
      KeptIs(input, kept, n);
    }
    KeepsTrimmed(input);
  }

  lemma KeepsTrimmed(input: Text)
    ensures Keeps(input, TrimEnd(Unix(input)) + [LF])
  {
    var t := TrimEnd(Unix(input));
    TrimEndHolds(Unix(input));
    hide TrimEnd, Unix;
    assert (t + [LF])[..|t|] == t;
    assert Kept(input, t + [LF], |Unix(input)| - |t|);
  }

  /** Instructions are accepted exactly when they are neither empty nor too long, have neither a NUL nor a CR without
      its LF, and what they are kept as is neither blank nor too long. */
  lemma InstructionsExactly(blank: Text -> bool, input: Text, maxBytes: nat, kept: Text)
    ensures ParseInstructions(blank, input, maxBytes) == Ok(kept)
       <==> && 0 < |input| <= maxBytes && 0 !in input && !LoneCr(input) && Keeps(input, kept)
            && !blank(kept) && |kept| <= maxBytes
  {
    LoneCrStays(input);
    KeepsExactly(input, kept);
    hide LoneCr, ReplaceCrLf, TrimEnd, Keeps;
    if CR !in ReplaceCrLf(input) {
      assert Unix(input) == ReplaceCrLf(input);
    }
  }

  /** Instructions some parse has accepted. */
  ghost predicate Canonical(blank: Text -> bool, t: Text) {
    exists input, maxBytes :: ParseInstructions(blank, input, maxBytes) == Ok(t)
  }

  lemma AcceptedHolds(blank: Text -> bool, input: Text, maxBytes: nat)
    requires ParseInstructions(blank, input, maxBytes).Ok?
    ensures var t := ParseInstructions(blank, input, maxBytes).value;
      && 0 < |t| <= maxBytes && 0 !in t && CR !in t && !blank(t)
      && t == TrimEnd(t) + [LF] && ReplaceCrLf(t) == t
  {
    var normalized := ReplaceCrLf(input);
    ReplaceKeeps(input);
    TrimEndHolds(normalized);
    var t := TrimEnd(normalized) + [LF];
    TrimEndAgain(TrimEnd(normalized));
    ReplaceKeeps(t);
  }

  /** Canonical instructions parse to themselves, under exactly the limits they fit in. */
  lemma CanonicalParses(blank: Text -> bool, t: Text, maxBytes: nat)
    requires Canonical(blank, t)
    ensures ParseInstructions(blank, t, maxBytes) == if |t| <= maxBytes then Ok(t) else Err(InstructionsInvalid)
  {
    var input, limit :| ParseInstructions(blank, input, limit) == Ok(t);
    AcceptedHolds(blank, input, limit);
    hide ReplaceCrLf, TrimEnd;
  }

  // ----- Storage

  const FORMAT: seq<byte> := Ascii("kitrove-agent/v1")
  const SCHEMA_VERSION: nat := 1
  const MAX_STORED_AGENT_BYTES: nat := 2 * 1024 * 1024

  datatype StoredAgent = StoredAgent(agent: AgentText, objectHash: seq<byte>)

  datatype PersistedAgent = PersistedAgent(
    schemaVersion: nat,
    format: seq<byte>,
    name: seq<byte>,
    description: seq<byte>,
    instructions: seq<byte>,
    objectHash: seq<byte>)

  /** The JSON printer and strict parser, the digest, and white space. */
  datatype Env = Env(
    toJson: PersistedAgent -> Option<seq<byte>>,
    fromJson: seq<byte> -> Option<PersistedAgent>,
    digest: seq<byte> -> seq<byte>,
    blank: Text -> bool)

  /** What is hashed into a stored agent's object hash. */
  function ObjectPreimage(env: Env, agent: AgentText): seq<byte> {
    Tagged(StoredAgentKind, Record(env.digest(AgentFrame(agent))))
  }

  function ObjectHash(env: Env, agent: AgentText): seq<byte> {
    env.digest(ObjectPreimage(env, agent))
  }

  function New(env: Env, agent: AgentText): StoredAgent {
    StoredAgent(agent, ObjectHash(env, agent))
  }

  function Persist(s: StoredAgent): PersistedAgent {
    PersistedAgent(SCHEMA_VERSION, FORMAT, s.agent.name, s.agent.description, s.agent.instructions, s.objectHash)
  }

  function ToJson(env: Env, s: StoredAgent): Result<seq<byte>, AgentError> {
    var encoded := env.toJson(Persist(s));
    if encoded.None? then Err(StorageSerialize)
    else
      var line := encoded.value + [LF];
      if |line| > MAX_STORED_AGENT_BYTES then Err(StorageLimit) else Ok(line)
  }

  function FromJson(env: Env, input: seq<byte>, maxInstructionsBytes: nat): Result<StoredAgent, AgentError> {
    if |input| > MAX_STORED_AGENT_BYTES then Err(StorageLimit)
    else
      var parsed := env.fromJson(input);
      if parsed.None? then Err(StorageInvalid)
      else
        var p := parsed.value;
        if p.schemaVersion != SCHEMA_VERSION || p.format != FORMAT then Err(StorageVersion)
        else
          var instructions :- ParseInstructions(env.blank, p.instructions, maxInstructionsBytes);
          if instructions != p.instructions then Err(StorageNoncanonical)
          else
            var stored := New(env, AgentText(p.name, p.description, instructions));
            if stored.objectHash != p.objectHash then Err(StorageHashMismatch) else Ok(stored)
  }

  /** Loading undoes storing, exactly when the reader's instruction limit admits the instructions. */
  lemma StoredAgentRoundTrip(env: Env, agent: AgentText, maxInstructionsBytes: nat)
    requires Canonical(env.blank, agent.instructions) && ToJson(env, New(env, agent)).Ok?
    requires var text := ToJson(env, New(env, agent)).value; env.fromJson(text) == Some(Persist(New(env, agent)))
    ensures FromJson(env, ToJson(env, New(env, agent)).value, maxInstructionsBytes)
         == if |agent.instructions| <= maxInstructionsBytes then Ok(New(env, agent)) else Err(InstructionsInvalid)
  {
    CanonicalParses(env.blank, agent.instructions, maxInstructionsBytes);
    hide ParseInstructions, Canonical, ObjectHash;
  }

  /** An accepted envelope is the one its agent is stored as: no other field values would have passed. */
  lemma AcceptedIsStored(env: Env, input: seq<byte>, maxInstructionsBytes: nat)
    requires FromJson(env, input, maxInstructionsBytes).Ok?
    ensures var s := FromJson(env, input, maxInstructionsBytes).value;
      && env.fromJson(input) == Some(Persist(s)) && s == New(env, s.agent)
      && Canonical(env.blank, s.agent.instructions) && |s.agent.instructions| <= maxInstructionsBytes
  {
    hide ParseInstructions, ObjectHash;
    var p := env.fromJson(input).value;
    assert ParseInstructions(env.blank, p.instructions, maxInstructionsBytes) == Ok(p.instructions);
    AcceptedHolds(env.blank, p.instructions, maxInstructionsBytes);
  }

  predicate Collides(env: Env, x: seq<byte>, y: seq<byte>) {
    x != y && env.digest(x) == env.digest(y)
  }

  /** Two different agents with one object hash are a collision of the digest, of their frames or of the
      preimages around them. */
  lemma ObjectHashBinds(env: Env, a: AgentText, b: AgentText)
    requires AgentFramable(a) && AgentFramable(b)
    requires Framable(env.digest(AgentFrame(a))) && Framable(env.digest(AgentFrame(b)))
    requires a != b && ObjectHash(env, a) == ObjectHash(env, b)
    ensures Collides(env, AgentFrame(a), AgentFrame(b)) || Collides(env, ObjectPreimage(env, a), ObjectPreimage(env, b))
  {
    hide AgentFrame, Tagged, AgentFramable;
    var x, y := env.digest(AgentFrame(a)), env.digest(AgentFrame(b));
    if ObjectPreimage(env, a) == ObjectPreimage(env, b) {
      KindsApart(StoredAgentKind, Record(x), StoredAgentKind, Record(y));
      RecordSplits(x, [], y, []);
      if AgentFrame(a) == AgentFrame(b) {
        AgentFrameInjective(a, b);
      }
    }
  }
}
