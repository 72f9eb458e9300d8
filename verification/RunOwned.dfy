/** Running an owned process (scripts/hosted_apple_process.py:43-81, 141-234): a result is handed out only
    after the whole group is known to be gone and with no cancellation pending. */
module RunOwned {
  import opened Outcome
  import opened Bytes
  import opened ProcessGroup
  import OwnerEvidence

  datatype Raised =
    | TimedOut(stderr: Option<seq<byte>>)
    | Cancelled(stderr: Option<seq<byte>>)
    | Cleanup(category: Category)
    | Invalid
    | Other

  type Ending = Result<Collected, Raised>

  const MAX_NESTED: nat := 1800 * SECOND
  const MAX_CAPTURED_STDERR_BYTES: nat := 256 * 1024

  /** Nothing here starts, signals or inspects a process. */
  predicate Calm(t: Trace) {
    forall i | 0 <= i < |t| :: t[i] == Start(false) || t[i].Clock? || t[i].Communicate? || t[i].Drain? || t[i].Leave?
  }

  /** The shape of a run: one start, then one stop, and nothing else that touches a process. */
  datatype Run =
    | NotStarted(lead: Trace)
    | Ran(lead: Trace, during: Trace, collected: Ending, stop: Trace, stopped: Stopped, after: Trace)

  function TraceOf(run: Run): Trace {
    match run
    case NotStarted(lead) => lead
    case Ran(lead, during, _, stop, _, after) => lead + [Start(true)] + during + stop + after
  }

  ghost predicate WellRun(run: Run) {
    && Calm(run.lead)
    && (run.Ran? ==> Calm(run.during) && Calm(run.after) && StopTrace(run.stop, run.stopped, SECOND, 3 * SECOND))
  }

  predicate OwnCancelled(scopes: seq<bool>) {
    scopes != [] && scopes[|scopes| - 1]
  }

  predicate AnyCancelled(scopes: seq<bool>) {
    exists i | 0 <= i < |scopes| :: scopes[i]
  }

  /** Looks through the scopes for one that is cancelled. */
  method CheckPendingCancellation(scopes: seq<bool>) returns (pending: bool)
    ensures pending <==> AnyCancelled(scopes)
  {
    for i := 0 to |scopes|
      invariant forall k | 0 <= k < i :: !scopes[k]
    {
      if scopes[i] {
        return true;
      }
    }
    return false;
  }

  lemma FreshScope(scopes: seq<bool>)
    ensures AnyCancelled(scopes + [false]) <==> AnyCancelled(scopes)
  {
    assert forall i | 0 <= i < |scopes| :: (scopes + [false])[i] == scopes[i];
  }

  /** So far the time was not up and the tool had not ended. */
  predicate StillWaiting(t: Trace, deadline: int) {
    forall i | 0 <= i < |t| :: (t[i].Clock? && t[i].time < deadline) || t[i] == Communicate(StillRunning)
  }

  /** What collecting ends with is what its last event was: the tool's own output and return code, a failure to
      communicate, or a clock reading at or past the deadline; or nothing happened but a signal. */
  predicate CollectTrace(t: Trace, deadline: int, r: Ending) {
    match r
    case Ok(output) =>
      t != [] && StillWaiting(t[..|t| - 1], deadline) && t[|t| - 1] == Communicate(Done(output))
    case Err(TimedOut(None)) =>
      t != [] && StillWaiting(t[..|t| - 1], deadline) && t[|t| - 1].Clock? && t[|t| - 1].time >= deadline
    case Err(Other) =>
      t != [] && StillWaiting(t[..|t| - 1], deadline) && t[|t| - 1] == Communicate(CommunicateFails)
    case Err(Cancelled(None)) => StillWaiting(t, deadline)
    case _ => false
  }

  /** Collects output until the tool ends, the scope is cancelled or the time is up. */
  method Collect(w: World, deadline: int) returns (r: Ending, ghost t: Trace)
    requires w.scopes != []
    modifies w
    ensures w.log == old(w.log) + t && Calm(t) && w.Passed() && CollectTrace(t, deadline, r)
    ensures r == Err(Cancelled(None)) ==> OwnCancelled(w.scopes)
  {
    t := [];
    while true
      invariant w.log == old(w.log) + t && Calm(t) && w.Passed() && StillWaiting(t, deadline)
      decreases deadline - w.now
    {
      if w.scopes[|w.scopes| - 1] {
        return Err(Cancelled(None)), t;
      }
      var time := w.Monotonic();
      ghost var before := t;
      t := t + [Clock(time)];
      assert w.log == old(w.log) + t && t[..|t| - 1] == before;
      var remaining := deadline - time;
      if remaining <= 0 {
        return Err(TimedOut(None)), t;
      }
      var answer := w.DoCommunicate(Min(remaining, 100 * MILLISECOND));
      before := t;
      t := t + [Communicate(answer)];
      assert w.log == old(w.log) + t && t[..|t| - 1] == before;
      match answer
      case Done(output) => return Ok(output), t;
      case CommunicateFails => return Err(Other), t;
      case StillRunning =>
    }
  }

  function Bounded(stderr: Option<seq<byte>>): Option<seq<byte>> {
    if stderr.Some? && |stderr.value| <= MAX_CAPTURED_STDERR_BYTES then stderr else None
  }

  /** What is kept of the error output after a confirmed stop. */
  method DrainStoppedStderr(w: World)
    returns (stderr: Option<seq<byte>>, ghost drained: Option<seq<byte>>)
    modifies w
    ensures w.Happened(Drain(drained)) && stderr == Bounded(drained)
  {
    stderr := w.DoDrain();
    drained := stderr;
    if stderr.Some? && |stderr.value| > MAX_CAPTURED_STDERR_BYTES {
      stderr := None;
    }
  }

  /** A nested owner that ended by itself and whose account holds. */
  predicate Confirmed(decode: OwnerEvidence.Decoder, output: Collected) {
    && output.returncode.Some? && output.returncode.value >= 0
    && OwnerEvidence.Accepts(decode, output.stderr, output.returncode.value == 0)
  }

  /** What is asked of a nested owner's result before it is handed on. */
  method ConfirmNested(decode: OwnerEvidence.Decoder, output: Collected) returns (confirmed: bool)
    ensures confirmed <==> Confirmed(decode, output)
  {
    if output.returncode.None? || output.returncode.value < 0 {
      return false;
    }
    var completed := OwnerEvidence.ValidateOwnerEvidence(decode, output.stderr, output.returncode.value == 0);
    return completed.Some?;
  }

  // ----- What a run's end rests on

  /** How collecting went in a run that was given this long: since the clock was read before its start, if it is
      nested, and otherwise since just after. */
  predicate Timed(run: Run, timeout: int, nested: bool)
    requires run.Ran?
  {
    if nested then
      |run.lead| == 1 && run.lead[0].Clock? && CollectTrace(run.during, run.lead[0].time + timeout, run.collected)
    else
      run.lead == [] && run.during != [] && run.during[0].Clock?
      && CollectTrace(run.during[1..], run.during[0].time + timeout, run.collected)
  }

  /** What was drained after the stop, which comes first, and kept. */
  function Kept(run: Run): Option<seq<byte>> {
    if run.Ran? && run.after != [] && run.after[0].Drain? then Bounded(run.after[0].drained) else None
  }

  /** The time of a nested run was up after its result was confirmed. */
  predicate LateAfter(run: Run, timeout: int)
    requires run.Ran?
  {
    |run.lead| == 1 && run.lead[0].Clock? && |run.after| >= 2
    && run.after[1].Clock? && run.after[1].time >= run.lead[0].time + timeout
  }

  /** What a run ends with. A result is what the tool delivered; it is only withheld for a signal, an account
      that does not hold, or a deadline; and every error says what happened. */
  predicate Explains(run: Run, r: Ending, decode: OwnerEvidence.Decoder, timeout: int, nested: bool, signalled: bool) {
    match run
    case NotStarted(lead) =>
      || (r == Err(Cancelled(None)) && signalled)
      || (r == Err(Invalid) && nested && !(0 < timeout <= MAX_NESTED))
      || (r == Err(Other) && Start(false) in lead)
    case Ran(_, _, collected, _, stopped, _) =>
      Timed(run, timeout, nested) &&
      if stopped.Err? then r == Err(Cleanup(stopped.error))
      else
        match collected
        case Err(e) => r == Err(e) && (e == Cancelled(None) ==> signalled)
        case Ok(output) =>
          || r == Ok(output)
          || (r == Err(Cancelled(None)) && signalled)
          || (r == Err(Cleanup(NestedOwnerUnconfirmed)) && nested && !Confirmed(decode, output))
          || (r == Err(TimedOut(None)) && nested && Confirmed(decode, output) && LateAfter(run, timeout))
  }

  /** A started process, from collecting its output to the end of its stop. An unconfirmed stop replaces
      whatever collecting ended with. */
  method CollectThenStop(w: World, deadline: int, ghost base: Trace, ghost lead: Trace, ghost head: Trace)
    returns (r: Ending, captured: Option<seq<byte>>, ghost run: Run)
    requires w.scopes != [] && Calm(lead) && Calm(head) && w.log == base + (lead + [Start(true)] + head)
    modifies w
    ensures w.log == base + TraceOf(run) && WellRun(run) && w.Passed() && run.Ran? && run.lead == lead
    ensures head <= run.during && CollectTrace(run.during[|head|..], deadline, run.collected)
    ensures run.collected == Err(Cancelled(None)) ==> OwnCancelled(w.scopes)
    ensures run.stopped.Err? ==> r == Err(Cleanup(run.stopped.error)) && captured == None && run.after == []
    ensures run.stopped.Ok? ==> r == run.collected && |run.after| == 1 && run.after[0].Drain? && captured == Kept(run)
  {
    hide StopTrace, CollectTrace;
    captured := None;
    ghost var more, stop;
    r, more := Collect(w, deadline);
    assert (head + more)[|head|..] == more;
    ghost var collected := r;
    var stopped;
    stopped, stop := StopProcessGroup(w, SECOND, 3 * SECOND);
    run := Ran(lead, head + more, collected, stop, stopped, []);
    assert w.log == base + TraceOf(run);
    if stopped.Err? {
      return Err(Cleanup(stopped.error)), captured, run;
    }
    ghost var drained;
    captured, drained := DrainStoppedStderr(w);
    RunMore(run, Drain(drained));
    run := Ran(lead, head + more, collected, stop, stopped, [] + [Drain(drained)]);
    assert w.log == base + TraceOf(run);
  }

  lemma RunMore(run: Run, e: Event)
    requires WellRun(run) && run.Ran? && (e.Clock? || e.Drain? || e.Leave?)
    ensures var more := run.(after := run.after + [e]);
      TraceOf(more) == TraceOf(run) + [e] && WellRun(more)
  {
    hide StopTrace;
  }

  /** The body of the scope, from the start of the process to the checks on its result. */
  method Own(w: World, decode: OwnerEvidence.Decoder, timeout: int, nested: bool)
    returns (r: Ending, captured: Option<seq<byte>>, started: bool, nestedConfirmed: bool, ghost run: Run)
    requires w.scopes != []
    modifies w
    ensures w.log == old(w.log) + TraceOf(run) && WellRun(run) && w.Passed() && started == run.Ran?
    ensures Explains(run, r, decode, timeout, nested, OwnCancelled(w.scopes)) && captured == Kept(run)
    ensures r.Ok? && nested ==> Confirmed(decode, r.value)
    ensures run.Ran? && run.stopped.Err? ==> run.after == []
    ensures nestedConfirmed ==> nested && (r.Ok? || r == Err(TimedOut(None)))
  {
    hide StopTrace, WellRun, TraceOf, OwnerEvidence.Accepts, CollectTrace;
    captured, started, nestedConfirmed := None, false, false;
    ghost var base := w.log;
    Unstarted([]);
    if nested && !(0 < timeout <= MAX_NESTED) {
      return Err(Invalid), captured, started, nestedConfirmed, NotStarted([]);
    }
    ghost var lead: Trace, head: Trace := [], [];
    var deadline := 0;
    if nested {
      var time := w.Monotonic();
      lead := [Clock(time)];
      deadline := time + timeout;
    }
    started := w.DoStart();
    if !started {
      run := NotStarted(lead + [Start(false)]);
      Unstarted(lead + [Start(false)]);
      assert w.log == base + (lead + [Start(false)]);
      return Err(Other), captured, started, nestedConfirmed, run;
    }
    if !nested {
      var time := w.Monotonic();
      head := [Clock(time)];
      deadline := time + timeout;
    }
    assert w.log == base + (lead + [Start(true)] + head);
    r, captured, run := CollectThenStop(w, deadline, base, lead, head);
    assert run.during[0..] == run.during && Timed(run, timeout, nested);
    if r.Err? {
      return r, captured, started, nestedConfirmed, run;
    }
    if w.scopes[|w.scopes| - 1] {
      return Err(Cancelled(None)), captured, started, nestedConfirmed, run;
    }
    if nested {
      var confirmed := ConfirmNested(decode, r.value);
      if !confirmed {
        return Err(Cleanup(NestedOwnerUnconfirmed)), captured, started, nestedConfirmed, run;
      }
      nestedConfirmed := true;
      var time := w.Monotonic();
      RunMore(run, Clock(time));
      assert w.log == base + (TraceOf(run) + [Clock(time)]);
      run := run.(after := run.after + [Clock(time)]);
      if time >= deadline {
        return Err(TimedOut(None)), captured, started, nestedConfirmed, run;
      }
    }
  }

  lemma Unstarted(lead: Trace)
    requires Calm(lead)
    ensures WellRun(NotStarted(lead)) && TraceOf(NotStarted(lead)) == lead
  {
  }

  /** The last event of a run that is over. */
  function Left(run: Run): Run {
    match run
    case NotStarted(lead) => NotStarted(lead + [Leave])
    case Ran(_, _, _, _, _, after) => run.(after := after + [Leave])
  }

  /** The scope around it: its flag is raised by any signal that comes before it is left, and a result is
      only let through unflagged. */
  method WithinScope(w: World, decode: OwnerEvidence.Decoder, timeout: int, nested: bool, ignorePrior: bool)
    returns (r: Ending, captured: Option<seq<byte>>, started: bool, nestedConfirmed: bool, ghost run: Run)
    modifies w
    ensures w.log == old(w.log) + TraceOf(run) && WellRun(run) && w.Passed() && started == run.Ran?
    ensures r.Ok? ==> (nested ==> Confirmed(decode, r.value)) && w.arrivals == old(w.arrivals)
    ensures Explains(run, r, decode, timeout, nested,
                     w.arrivals > old(w.arrivals) || (!ignorePrior && AnyCancelled(old(w.scopes))))
    ensures captured == Kept(run) && (captured.Some? ==> run.Ran? && run.stopped.Ok?)
    ensures nestedConfirmed ==> nested && (r.Ok? || r.error in {TimedOut(None), Cancelled(None)})
  {
    hide StopTrace, CollectTrace, WellRun, Confirmed, Explains, Kept, TraceOf, Left;
    Unstarted([]);
    ghost var outer, arrived, start := w.scopes, w.arrivals, w.log;
    captured, started, nestedConfirmed, run := None, false, false, NotStarted([]);
    w.scopes := w.scopes + [false];
    FreshScope(outer);
    ghost var signalled := true;
    var pending := false;
    if !ignorePrior {
      pending := CheckPendingCancellation(w.scopes);
    }
    if pending {
      r := Err(Cancelled(None));
      NotBegun(decode, timeout, nested);
    } else {
      r, captured, started, nestedConfirmed, run := Own(w, decode, timeout, nested);
      signalled := OwnCancelled(w.scopes);
    }
    assert w.log == start + TraceOf(run);
    w.Note(Leave, 0);
    LeftTrace(run);
    LeftExplains(run, r, decode, timeout, nested, signalled);
    run := Left(run);
    assert w.log == start + TraceOf(run);
    if r.Ok? && w.scopes[|w.scopes| - 1] {
      r := Err(Cancelled(None));
    }
    assert w.arrivals == arrived ==> w.scopes == outer + [false];
    w.scopes := w.scopes[..|w.scopes| - 1];
  }

  lemma NotBegun(decode: OwnerEvidence.Decoder, timeout: int, nested: bool)
    ensures Explains(NotStarted([]), Err(Cancelled(None)), decode, timeout, nested, true)
    ensures Kept(NotStarted([])) == None && TraceOf(NotStarted([])) == []
  {
  }

  /** Leaving the scope, and withholding a result for a signal. */
  lemma LeftExplains(run: Run, r: Ending, decode: OwnerEvidence.Decoder, timeout: int, nested: bool, signalled: bool)
    requires Explains(run, r, decode, timeout, nested, signalled)
    requires run.Ran? && run.stopped.Err? ==> run.after == []
    ensures Left(run).Ran? == run.Ran? && (run.Ran? ==> Left(run).stopped == run.stopped)
    ensures Kept(Left(run)) == Kept(run)
    ensures r == Err(Cancelled(None)) ==> signalled
    ensures forall s | r == Err(Cancelled(None)) ==> s :: Explains(Left(run), r, decode, timeout, nested, s)
    ensures r.Ok? ==> Explains(Left(run), Err(Cancelled(None)), decode, timeout, nested, true)
    ensures r.Ok? || Kept(run).Some? ==> run.Ran? && run.stopped.Ok?
  {
    hide CollectTrace, Confirmed;
  }

  lemma LeftTrace(run: Run)
    requires WellRun(run)
    ensures TraceOf(Left(run)) == TraceOf(run) + [Leave] && WellRun(Left(run))
  {
    hide StopTrace;
  }

  /** How an ending leaves the run: with what was kept of the error output, or, when nested, as a doubt about the
      nested owner. */
  function Reraised(run: Run, r: Ending, nested: bool): Ending {
    match r
    case Err(TimedOut(_)) => Err(if nested then Cleanup(NestedOwnerUnconfirmed) else TimedOut(Kept(run)))
    case Err(Cancelled(_)) => Err(if nested then Cleanup(NestedOwnerUnconfirmed) else Cancelled(Kept(run)))
    case Err(Invalid) => if nested && run.Ran? then Err(Cleanup(NestedOwnerUnconfirmed)) else r
    case Err(Other) => if nested && run.Ran? then Err(Cleanup(NestedOwnerUnconfirmed)) else r
    case _ => r
  }

  /** Runs an owned process. Whatever the system answers and whenever signals come: a result is what the tool
      delivered last, with its own return code, and it means that the group was confirmed gone after its one
      start, no signal came, and a nested owner's account holds. Any failure after a start that is not a cleanup
      failure also means a confirmed stop; an unconfirmed stop is always reported as such, and so is any doubt
      about a nested owner; and every ending says what it rests on. */
  method Execute(w: World, decode: OwnerEvidence.Decoder, timeout: int, nested: bool, ignorePrior: bool)
    returns (r: Ending, ghost run: Run)
    modifies w
    ensures w.log == old(w.log) + TraceOf(run) && WellRun(run) && w.Passed()
    ensures r.Ok? ==> run.Ran? && run.stopped.Ok? && w.arrivals == old(w.arrivals)
    ensures r.Ok? ==> run.during != [] && run.during[|run.during| - 1] == Communicate(Done(r.value))
    ensures r.Ok? ==> (nested ==> Confirmed(decode, r.value)) && (ignorePrior || !AnyCancelled(old(w.scopes)))
    ensures run.Ran? && run.stopped.Err? ==> r == Err(Cleanup(run.stopped.error))
    ensures run.Ran? && r.Err? && !r.error.Cleanup? ==> run.stopped.Ok? && !nested
    ensures r.Err? && (r.error.TimedOut? || r.error.Cancelled?) && r.error.stderr.Some? ==> run.Ran? && run.stopped.Ok?
    ensures AnyCancelled(old(w.scopes)) && !ignorePrior ==> run == NotStarted([]) && r.Err?
    ensures nested && ignorePrior ==> r == Err(Invalid) && run == NotStarted([])
    ensures !(nested && ignorePrior) ==>
      var signalled := w.arrivals > old(w.arrivals) || (!ignorePrior && AnyCancelled(old(w.scopes)));
      exists inner :: Explains(run, inner, decode, timeout, nested, signalled) && r == Reraised(run, inner, nested)
  {
    hide StopTrace, CollectTrace, OwnerEvidence.Accepts;
    if nested && ignorePrior {
      return Err(Invalid), NotStarted([]);
    }
    var pending := false;
    if !ignorePrior {
      pending := CheckPendingCancellation(w.scopes);
    }
    if pending {
      run := NotStarted([]);
      r := Err(if nested then Cleanup(NestedOwnerUnconfirmed) else Cancelled(None));
      assert Explains(run, Err(Cancelled(None)), decode, timeout, nested, true)
             && r == Reraised(run, Err(Cancelled(None)), nested);
      return;
    }
    var captured, started, nestedConfirmed;
    r, captured, started, nestedConfirmed, run := WithinScope(w, decode, timeout, nested, ignorePrior);
    ghost var inner := r;
    if r.Ok? {
      DeliveredLast(run, r, decode, timeout, nested, w.arrivals > old(w.arrivals));
    }
    if r.Err? {
      match r.error
      case TimedOut(_) => r := Err(if nested then Cleanup(NestedOwnerUnconfirmed) else TimedOut(captured));
      case Cancelled(_) => r := Err(if nested then Cleanup(NestedOwnerUnconfirmed) else Cancelled(captured));
      case Cleanup(_) =>
      case _ =>
        if nested && started && !nestedConfirmed {
          r := Err(Cleanup(NestedOwnerUnconfirmed));
        }
    }
    assert r == Reraised(run, inner, nested);
  }

  lemma DeliveredLast(run: Run, r: Ending, decode: OwnerEvidence.Decoder, timeout: int, nested: bool, signalled: bool)
    requires Explains(run, r, decode, timeout, nested, signalled) && r.Ok?
    ensures run.Ran? && run.during != [] && run.during[|run.during| - 1] == Communicate(Done(r.value))
  {
    hide StillWaiting;
  }
}
