/** Stopping an owned process group (scripts/hosted_apple_process.py:15-138), against an adversary that
    chooses every answer of the system from all that happened before. */
module ProcessGroup {
  import opened Outcome
  import opened Bytes

  datatype ProbeAnswer = Present | Absent | Denied | ProbeInterrupted | ProbeFails

  datatype KillAnswer = Delivered | NoSuchGroup | KillFails

  datatype ReapAnswer = Reaped | Running | ReapFails

  datatype Collected = Collected(stdout: seq<byte>, stderr: seq<byte>, returncode: Option<int>)

  datatype CommunicateAnswer = Done(output: Collected) | StillRunning | CommunicateFails

  datatype Number = SIGTERM | SIGKILL

  datatype Event =
    | Probe(answer: ProbeAnswer)
    | Kill(number: Number, killed: KillAnswer)
    | Reap(reaped: ReapAnswer)
    | Clock(time: int)
    | Sleep
    | Start(started: bool)
    | Communicate(communicated: CommunicateAnswer)
    | Drain(drained: Option<seq<byte>>)
    | Leave

  datatype Adversary = Adversary(
    probe: seq<Event> -> ProbeAnswer,
    kill: seq<Event> -> KillAnswer,
    reap: seq<Event> -> ReapAnswer,
    delay: seq<Event> -> nat,
    start: seq<Event> -> bool,
    communicate: seq<Event> -> CommunicateAnswer,
    drain: seq<Event> -> Option<seq<byte>>,
    signal: seq<Event> -> bool)

  const MILLISECOND: nat := 1000000
  const SECOND: nat := 1000000000

  /** The outside: its log, the monotonic clock in nanoseconds, and the cancellation flags of the scopes
      that are open, outermost first. A signal that arrives sets them all. */
  class World {
    const adversary: Adversary
    var log: seq<Event>
    var now: int
    var scopes: seq<bool>
    var arrivals: nat

    constructor (adversary: Adversary)
      ensures this.adversary == adversary && log == [] && now == 0 && scopes == [] && arrivals == 0
    {
      this.adversary := adversary;
      log, now, scopes, arrivals := [], 0, [], 0;
    }

    /** One thing happened; time passed, and signals may have come. */
    twostate predicate Happened(e: Event)
      reads this
    {
      log == old(log) + [e] && Passed()
    }

    twostate predicate Passed()
      reads this
    {
      && now >= old(now) && |scopes| == |old(scopes)| && arrivals >= old(arrivals)
      && (if arrivals == old(arrivals) then scopes == old(scopes) else forall i | 0 <= i < |scopes| :: scopes[i])
    }

    method Note(e: Event, atLeast: nat)
      modifies this
      ensures Happened(e) && now == old(now) + atLeast + adversary.delay(old(log))
    {
      if adversary.signal(log) {
        scopes := seq(|scopes|, _ => true);
        arrivals := arrivals + 1;
      }
      now := now + atLeast + adversary.delay(log);
      log := log + [e];
    }

    method DoProbe() returns (answer: ProbeAnswer)
      modifies this
      ensures Happened(Probe(answer))
    {
      answer := adversary.probe(log);
      Note(Probe(answer), 0);
    }

    method DoKill(number: Number) returns (answer: KillAnswer)
      modifies this
      ensures Happened(Kill(number, answer))
    {
      answer := adversary.kill(log);
      Note(Kill(number, answer), 0);
    }

    method DoReap() returns (answer: ReapAnswer)
      modifies this
      ensures Happened(Reap(answer))
    {
      answer := adversary.reap(log);
      Note(Reap(answer), 0);
    }

    method Monotonic() returns (time: int)
      modifies this
      ensures Happened(Clock(time)) && time == now
    {
      time := now + adversary.delay(log);
      Note(Clock(time), 0);
    }

    /** Sleeping takes at least the time asked for. */
    method DoSleep(duration: nat)
      modifies this
      ensures Happened(Sleep) && now >= old(now) + duration
    {
      Note(Sleep, duration);
    }

    method DoStart() returns (started: bool)
      modifies this
      ensures Happened(Start(started))
    {
      started := adversary.start(log);
      Note(Start(started), 0);
    }

    /** A timeout is only reported once that time has passed. */
    method DoCommunicate(limit: nat) returns (answer: CommunicateAnswer)
      modifies this
      ensures Happened(Communicate(answer)) && (answer == StillRunning ==> now >= old(now) + limit)
    {
      answer := adversary.communicate(log);
      Note(Communicate(answer), if answer == StillRunning then limit else 0);
    }

    method DoDrain() returns (stderr: Option<seq<byte>>)
      modifies this
      ensures Happened(Drain(stderr))
    {
      stderr := adversary.drain(log);
      Note(Drain(stderr), 0);
    }
  }

  // ----- Reading a trace

  type Trace = seq<Event>

  function LastProbe(t: Trace): Option<ProbeAnswer> {
    if t == [] then None
    else if t[|t| - 1].Probe? then Some(t[|t| - 1].answer)
    else LastProbe(t[..|t| - 1])
  }

  /** The signals sent, in order. */
  function Sent(t: Trace): seq<Number> {
    if t == [] then []
    else
      var last := t[|t| - 1];
      Sent(t[..|t| - 1]) + if last.Kill? then [last.number] else []
  }

  /** Every signal sent follows a probe that found the group. */
  predicate Justified(t: Trace) {
    forall i | 0 <= i < |t| && t[i].Kill? :: LastProbe(t[..i]) == Some(Present)
  }

  /** One poll saw the direct child reaped and the group gone. */
  predicate ConfirmedAt(t: Trace, i: int) {
    0 <= i < |t| - 1 && t[i] == Reap(Reaped) && t[i + 1] == Probe(Absent)
  }

  ghost predicate NeverConfirmed(t: Trace) {
    forall i :: !ConfirmedAt(t, i)
  }

  lemma TraceMore(t: Trace, e: Event)
    ensures LastProbe(t + [e]) == if e.Probe? then Some(e.answer) else LastProbe(t)
    ensures Sent(t + [e]) == Sent(t) + if e.Kill? then [e.number] else []
    ensures Justified(t) && (e.Kill? ==> LastProbe(t) == Some(Present)) ==> Justified(t + [e])
    ensures NeverConfirmed(t) && !ConfirmedAt(t + [e], |t| - 1) ==> NeverConfirmed(t + [e])
  {
    assert (t + [e])[..|t|] == t;
    JustifiedMore(t, e);
    UnconfirmedMore(t, e);
    hide Justified, NeverConfirmed, ConfirmedAt;
  }

  lemma JustifiedMore(t: Trace, e: Event)
    ensures Justified(t) && (e.Kill? ==> LastProbe(t) == Some(Present)) ==> Justified(t + [e])
  {
    hide LastProbe;
    var more := t + [e];
    if Justified(t) && (e.Kill? ==> LastProbe(t) == Some(Present)) {
      forall i | 0 <= i < |more| && more[i].Kill?
        ensures LastProbe(more[..i]) == Some(Present)
      {
        assert more[..i] == t[..i];
        assert i < |t| ==> more[i] == t[i];
      }
    }
  }

  lemma UnconfirmedMore(t: Trace, e: Event)
    ensures NeverConfirmed(t) && !ConfirmedAt(t + [e], |t| - 1) ==> NeverConfirmed(t + [e])
  {
    if NeverConfirmed(t) && !ConfirmedAt(t + [e], |t| - 1) {
      forall i
        ensures !ConfirmedAt(t + [e], i)
      {
        assert !ConfirmedAt(t, i);
      }
    }
  }

  // ----- Stopping

  datatype Category =
    | ProbeDenied
    | ProbeWasInterrupted
    | ProbeOsError
    | CleanupDeadline
    | NestedOwnerUnconfirmed
    | Unclassified

  type Stopped = Result<(), Category>

  /** How a trace that ends here is reported: by the call that failed, or by the deadline, which is a
      denied probe's fault exactly when the last probe was denied. */
  predicate Reported(t: Trace, category: Category) {
    && t != []
    && match t[|t| - 1]
       case Probe(ProbeInterrupted) => category == ProbeWasInterrupted
       case Probe(ProbeFails) => category == ProbeOsError
       case Kill(_, KillFails) => category == Unclassified
       case Reap(ReapFails) => category == Unclassified
       case Clock(_) => category == if LastProbe(t) == Some(Denied) then ProbeDenied else CleanupDeadline
       case _ => false
  }

  /** TERM comes before KILL, and each is sent at most once. */
  predicate SentInOrder(t: Trace) {
    Sent(t) in {[], [SIGTERM], [SIGKILL], [SIGTERM, SIGKILL]}
  }

  /** A signal's round opens with a probe, and sends the signal exactly when that found the group. */
  predicate Opens(t: Trace, number: Number) {
    && t != [] && t[0].Probe? && (t[0].answer == Present <==> |t| >= 2 && t[1].Kill?)
    && (t[0].answer == Present ==> t[1].number == number)
  }

  /** How much of a round comes before it first reads the clock. */
  function Opening(t: Trace): nat {
    if t != [] && t[0] == Probe(Present) then 2 else 1
  }

  /** A round that ran out: it opened, read the clock, polled, and has now read the clock this much later. */
  predicate RanOut(t: Trace, number: Number, duration: nat) {
    && Opens(t, number)
    && var i := Opening(t);
       && |t| >= i + 4 && t[i].Clock? && t[i + 1].Reap? && t[i + 2].Probe?
       && t[|t| - 1].Clock? && t[|t| - 1].time >= t[i].time + duration
  }

  /** The stop gave up at its deadline. */
  predicate GaveUp(t: Trace, r: Stopped) {
    r.Err? && t != [] && t[|t| - 1].Clock?
  }

  /** The first round opened the trace, and ended the stop before its time was up; or it ran out, and the
      second round took over, which ran out too if the stop gave up. */
  ghost predicate TwoRounds(t: Trace, r: Stopped, termDuration: nat, killDuration: nat) {
    || (Opens(t, SIGTERM) && SIGKILL !in Sent(t) && !GaveUp(t, r))
    || exists i: nat :: SecondRound(t, i, r, termDuration, killDuration)
  }

  predicate SecondRound(t: Trace, i: nat, r: Stopped, termDuration: nat, killDuration: nat) {
    && i <= |t| && RanOut(t[..i], SIGTERM, termDuration) && Opens(t[i..], SIGKILL)
    && (GaveUp(t, r) ==> RanOut(t[i..], SIGKILL, killDuration))
  }

  /** What a stop may have done: signals only after positive probes, TERM before KILL, and KILL only once
      TERM's time was up. It succeeded exactly when its last poll saw the child reaped and the group absent; a
      denied probe never counts. It gave up only when both rounds had run out. */
  ghost predicate StopTrace(t: Trace, r: Stopped, termDuration: nat, killDuration: nat) {
    && Justified(t) && SentInOrder(t) && TwoRounds(t, r, termDuration, killDuration)
    && match r
       case Ok(_) => ConfirmedAt(t, |t| - 2) && NeverConfirmed(t[..|t| - 1])
       case Err(category) => Reported(t, category) && NeverConfirmed(t)
  }

  /** The state of a stop between calls. */
  ghost predicate Underway(t: Trace, uncertain: bool) {
    && Justified(t) && NeverConfirmed(t) && (t != [] ==> uncertain == (LastProbe(t) == Some(Denied)))
  }

  /** Probes the group; a denial is remembered and proves neither presence nor absence. */
  method Probing(w: World) returns (r: Result<Option<bool>, Category>, uncertain: bool, ghost answer: ProbeAnswer)
    modifies w
    ensures w.Happened(Probe(answer)) && uncertain == (answer == Denied)
    ensures r == match answer
                 case Present => Ok(Some(true))
                 case Absent => Ok(Some(false))
                 case Denied => Ok(None)
                 case ProbeInterrupted => Err(ProbeWasInterrupted)
                 case ProbeFails => Err(ProbeOsError)
  {
    var seen := w.DoProbe();
    answer := seen;
    match seen
    case Present => return Ok(Some(true)), false, answer;
    case Absent => return Ok(Some(false)), false, answer;
    case Denied => return Ok(None), true, answer;
    case ProbeInterrupted => return Err(ProbeWasInterrupted), false, answer;
    case ProbeFails => return Err(ProbeOsError), false, answer;
  }

  /** What one signal's round leaves: an end of the stop, or nothing yet at its deadline. */
  ghost predicate RoundTrace(t: Trace, before: Trace, number: Number, duration: nat, r: Option<Stopped>,
                             uncertain: bool)
  {
    && before <= t && Justified(t) && (Sent(t) == Sent(before) || Sent(t) == Sent(before) + [number])
    && Opens(t[|before|..], number)
    && match r
       case None => Underway(t, uncertain) && RanOut(t[|before|..], number, duration)
       case Some(Ok(_)) => ConfirmedAt(t, |t| - 2) && NeverConfirmed(t[..|t| - 1])
       case Some(Err(category)) => Reported(t, category) && NeverConfirmed(t) && !t[|t| - 1].Clock?
  }

  /** A trace that goes on from another without sending anything more than `sent`. */
  predicate GoesOn(t: Trace, before: Trace, sent: seq<Number>) {
    before <= t && t != [] && Sent(t) == Sent(before) + sent
  }

  /** Probes, and sends the signal if the group is there. */
  method Signal(w: World, number: Number, ghost base: Trace, ghost before: Trace)
    returns (r: Option<Category>, uncertain: bool, ghost t: Trace)
    requires w.log == base + before && Justified(before) && NeverConfirmed(before)
    requires before == [] || before[|before| - 1].Clock?
    modifies w
    ensures w.log == base + t && w.Passed() && Justified(t) && NeverConfirmed(t)
    ensures GoesOn(t, before, []) || GoesOn(t, before, [number])
    ensures Opens(t[|before|..], number) && |t| == |before| + Opening(t[|before|..])
    ensures match r
            case None => Underway(t, uncertain)
            case Some(category) => Reported(t, category) && !t[|t| - 1].Clock?
  {
    hide LastProbe, Sent, Justified, NeverConfirmed;
    var probed;
    ghost var answer;
    probed, uncertain, answer := Probing(w);
    TraceMore(before, Probe(answer));
    t := before + [Probe(answer)];
    assert w.log == base + t;
    if probed.Err? {
      return Some(probed.error), uncertain, t;
    }
    if probed.value == Some(true) {
      var killed := w.DoKill(number);
      TraceMore(t, Kill(number, killed));
      t := t + [Kill(number, killed)];
      assert w.log == base + t;
      if killed == KillFails {
        return Some(Unclassified), uncertain, t;
      }
    }
    return None, uncertain, t;
  }

  /** What one poll leaves: an end of the stop, or nothing yet. */
  ghost predicate PollTrace(t: Trace, before: Trace, r: Option<Stopped>, uncertain: bool) {
    && Justified(t) && GoesOn(t, before, []) && |t| > |before| && t[|before|].Reap?
    && match r
       case None => Underway(t, uncertain) && |t| == |before| + 2 && t[|before| + 1].Probe?
       case Some(Ok(_)) => ConfirmedAt(t, |t| - 2) && NeverConfirmed(t[..|t| - 1])
       case Some(Err(category)) => Reported(t, category) && NeverConfirmed(t) && !t[|t| - 1].Clock?
  }

  /** Reaps, then probes: the stop is over when that saw the child reaped and the group gone. */
  method Poll(w: World, ghost base: Trace, ghost before: Trace)
    returns (r: Option<Stopped>, uncertain: bool, ghost t: Trace)
    requires w.log == base + before && Justified(before) && NeverConfirmed(before)
    requires before != [] && !before[|before| - 1].Reap?
    modifies w
    ensures w.log == base + t && w.Passed() && PollTrace(t, before, r, uncertain)
  {
    hide LastProbe, Sent, Justified, NeverConfirmed;
    uncertain := false;
    var directDone := w.DoReap();
    TraceMore(before, Reap(directDone));
    t := before + [Reap(directDone)];
    assert w.log == base + t;
    if directDone == ReapFails {
      return Some(Err(Unclassified)), uncertain, t;
    }
    var probed;
    ghost var answer, polled := Absent, t;
    probed, uncertain, answer := Probing(w);
    TraceMore(t, Probe(answer));
    t := t + [Probe(answer)];
    assert w.log == base + t && t[..|t| - 1] == polled;
    if probed.Err? {
      return Some(Err(probed.error)), uncertain, t;
    }
    if directDone == Reaped && probed.value == Some(false) {
      return Some(Ok(())), uncertain, t;
    }
    return None, uncertain, t;
  }

  /** Where a round's clock was first read, and its first poll, if there has been one. */
  predicate Polling(t: Trace, before: Trace, number: Number, start: int) {
    && before <= t
    && var round := t[|before|..];
       && Opens(round, number) && |round| > Opening(round) && round[Opening(round)] == Clock(start)
       && (|round| == Opening(round) + 1
           || (|round| >= Opening(round) + 3 && round[Opening(round) + 1].Reap? && round[Opening(round) + 2].Probe?))
  }

  lemma Opened(t: Trace, before: Trace, number: Number, e: Event)
    requires before <= t && Opens(t[|before|..], number) && |t| == |before| + Opening(t[|before|..]) && e.Clock?
    ensures Polling(t + [e], before, number, e.time)
  {
    assert (t + [e])[|before|..] == t[|before|..] + [e];
  }

  /** One more poll, or the clock or a sleep after one. */
  lemma PollingMore(t: Trace, t': Trace, before: Trace, number: Number, start: int)
    requires Polling(t, before, number, start) && t < t'
    requires (|t'| >= |t| + 2 && t'[|t|].Reap? && t'[|t| + 1].Probe?)
             || |t| >= |before| + Opening(t[|before|..]) + 3
    ensures Polling(t', before, number, start)
  {
    var round, round' := t[|before|..], t'[|before|..];
    assert round < round';
    assert forall i | 0 <= i < |round| :: round'[i] == round[i];
  }

  lemma OpensOn(t: Trace, t': Trace, before: Trace, number: Number, start: int)
    requires Polling(t, before, number, start) && t <= t'
    ensures Opens(t'[|before|..], number)
  {
    var round, round' := t[|before|..], t'[|before|..];
    assert round <= round' && forall i | 0 <= i < |round| :: round'[i] == round[i];
  }

  lemma HasRunOut(t: Trace, before: Trace, number: Number, start: int, duration: nat, time: int)
    requires Polling(t, before, number, start) && |t| >= |before| + Opening(t[|before|..]) + 3
    requires time >= start + duration
    ensures RanOut((t + [Clock(time)])[|before|..], number, duration)
  {
    assert (t + [Clock(time)])[|before|..] == t[|before|..] + [Clock(time)];
  }

  /** A round between two polls. */
  ghost predicate Waiting(t: Trace, before: Trace, number: Number, start: int, uncertain: bool) {
    && Underway(t, uncertain) && Polling(t, before, number, start) && t != [] && !t[|t| - 1].Reap?
    && (GoesOn(t, before, []) || GoesOn(t, before, [number]))
  }

  lemma StartsWaiting(t: Trace, before: Trace, number: Number, start: int, uncertain: bool)
    requires Underway(t, uncertain) && (GoesOn(t, before, []) || GoesOn(t, before, [number]))
    requires Opens(t[|before|..], number) && |t| == |before| + Opening(t[|before|..])
    ensures Waiting(t + [Clock(start)], before, number, start, uncertain)
  {
    hide LastProbe, Sent, Justified, NeverConfirmed, Opens, Opening, Polling;
    Quiet(t, Clock(start), uncertain);
    Opened(t, before, number, Clock(start));
  }

  lemma PollEnds(t: Trace, t': Trace, before: Trace, number: Number, start: int, duration: nat, u: bool,
                 r: Option<Stopped>, uncertain: bool)
    requires Waiting(t, before, number, start, u) && PollTrace(t', t, r, uncertain) && r.Some?
    ensures RoundTrace(t', before, number, duration, r, uncertain)
  {
    hide LastProbe, Sent, Justified, NeverConfirmed, ConfirmedAt, Reported, Opens, Opening, Polling, RanOut;
    OpensOn(t, t', before, number, start);
  }

  lemma PollGoesOn(t: Trace, t': Trace, before: Trace, number: Number, start: int, duration: nat, u: bool,
                   time: int, uncertain: bool)
    requires Waiting(t, before, number, start, u) && PollTrace(t', t, None, uncertain)
    ensures time >= start + duration ==>
              RoundTrace(t' + [Clock(time)], before, number, duration, None, uncertain)
    ensures Waiting(t' + [Clock(time)] + [Sleep], before, number, start, uncertain)
  {
    hide LastProbe, Sent, Justified, NeverConfirmed, ConfirmedAt, Reported, Opens, Opening, Polling, RanOut;
    PollingMore(t, t', before, number, start);
    Polled(t', t, before, number, start);
    Quiet(t', Clock(time), uncertain);
    var seen := t' + [Clock(time)];
    Quiet(seen, Sleep, uncertain);
    PollingMore(t', seen + [Sleep], before, number, start);
    if time >= start + duration {
      HasRunOut(t', before, number, start, duration, time);
      OpensOn(t', seen, before, number, start);
    }
  }

  /** Sends one signal if the group is there, then polls until the child is reaped and the group gone, or
      the time is up. */
  method Round(w: World, number: Number, duration: nat, ghost base: Trace, ghost before: Trace)
    returns (r: Option<Stopped>, uncertain: bool, ghost t: Trace)
    requires w.log == base + before && Justified(before) && NeverConfirmed(before)
    requires before == [] || before[|before| - 1].Clock?
    modifies w
    ensures w.log == base + t && w.Passed() && RoundTrace(t, before, number, duration, r, uncertain)
    ensures r.None? ==> w.now >= old(w.now) + duration
  {
    hide LastProbe, Sent, Justified, NeverConfirmed, ConfirmedAt, Reported, Opens, Opening, Polling, RanOut;
    var failed;
    failed, uncertain, t := Signal(w, number, base, before);
    if failed.Some? {
      return Some(Err(failed.value)), uncertain, t;
    }
    var start := w.Monotonic();
    StartsWaiting(t, before, number, start, uncertain);
    t := t + [Clock(start)];
    assert w.log == base + t;
    hide RoundTrace, PollTrace;
    var deadline := start + duration;
    while true
      invariant w.log == base + t && w.Passed() && Waiting(t, before, number, start, uncertain)
      invariant start >= old(w.now)
      decreases deadline - w.now
    {
      var polled;
      ghost var u, ready := uncertain, t;
      polled, uncertain, t := Poll(w, base, t);
      if polled.Some? {
        PollEnds(ready, t, before, number, start, duration, u, polled, uncertain);
        return polled, uncertain, t;
      }
      var time := w.Monotonic();
      PollGoesOn(ready, t, before, number, start, duration, u, time, uncertain);
      t := t + [Clock(time)];
      assert w.log == base + t;
      if time >= deadline {
        return None, uncertain, t;
      }
      w.DoSleep(20 * MILLISECOND);
      t := t + [Sleep];
      assert w.log == base + t;
    }
  }

  lemma Polled(t: Trace, ready: Trace, before: Trace, number: Number, start: int)
    requires Polling(ready, before, number, start) && Polling(t, before, number, start) && ready < t
    ensures |t| >= |before| + Opening(t[|before|..]) + 3
  {
    assert ready[|before|..] < t[|before|..];
  }

  /** Reading the clock and sleeping change nothing a trace is judged by. */
  lemma Quiet(t: Trace, e: Event, uncertain: bool)
    requires Underway(t, uncertain) && t != [] && (e.Clock? || e == Sleep)
    ensures Underway(t + [e], uncertain) && Sent(t + [e]) == Sent(t)
  {
    hide LastProbe, Sent, Justified, NeverConfirmed;
    TraceMore(t, e);
  }

  /** Terminates the group, then kills it, and reports an end only as the trace shows it. */
  method StopProcessGroup(w: World, termDuration: nat, killDuration: nat) returns (r: Stopped, ghost t: Trace)
    modifies w
    ensures w.log == old(w.log) + t && StopTrace(t, r, termDuration, killDuration)
    ensures GaveUp(t, r) ==> w.now >= old(w.now) + termDuration + killDuration
    ensures w.Passed()
  {
    hide LastProbe, Justified, NeverConfirmed, ConfirmedAt, Opens, RanOut;
    ghost var base := w.log;
    t := [];
    NothingYet();
    var round, uncertain;
    round, uncertain, t := Round(w, SIGTERM, termDuration, base, []);
    assert t[0..] == t && (Sent(t) == [] || Sent(t) == [SIGTERM]) by {
      assert [] + [SIGTERM] == [SIGTERM];
    }
    if round.Some? {
      return round.value, t;
    }
    ghost var first, sent := t, Sent(t);
    RanOutEnds(t, SIGTERM, termDuration);
    round, uncertain, t := Round(w, SIGKILL, killDuration, base, t);
    assert Sent(t) == sent || Sent(t) == [SIGKILL] || Sent(t) == [SIGTERM, SIGKILL] by {
      assert [SIGTERM] + [SIGKILL] == [SIGTERM, SIGKILL] && [] + [SIGKILL] == [SIGKILL];
    }
    assert t[..|first|] == first;
    if round.Some? {
      r := round.value;
    } else {
      RanOutEnds(t[|first|..], SIGKILL, killDuration);
      r := Err(if uncertain then ProbeDenied else CleanupDeadline);
    }
    assert SecondRound(t, |first|, r, termDuration, killDuration);
  }

  lemma RanOutEnds(t: Trace, number: Number, duration: nat)
    requires RanOut(t, number, duration)
    ensures t != [] && t[|t| - 1].Clock?
  {
  }

  lemma NothingYet()
    ensures Underway([], false) && Sent([]) == []
  {
  }
}
