/** The ticket-phase evidence checks (scripts/hosted_apple_validation_evidence.py:29-116;
    scripts/hosted_apple_ticket.py:6-10), over records whose fields already have the required types. */
module ValidationEvidence {
  import opened Outcome

  datatype NativeError = NativeError(domain: string, code: int)

  datatype Attempt = Attempt(
    number: int,
    startedMs: int,
    finishedMs: int,
    nativeExit: Option<int>,
    cleanupConfirmed: bool,
    outputBounded: bool,
    evidenceComplete: bool,
    observations: seq<string>,
    nativeErrorCodes: seq<NativeError>,
    httpStatuses: seq<int>,
    backoffRequestedMs: Option<int>)

  datatype Verdict = Validated | Refused

  datatype Reason = Deadline | Identity | Interrupted | Unconfirmed | Denied | Exhausted

  /** What is left of a record once its literals (version, target, operation, source and image) agree. */
  datatype Record = Record(
    nativeExit: Option<int>,
    outputBounded: bool,
    elapsedMs: int,
    budgetMs: int,
    verdict: Verdict,
    refusal: Option<Reason>,
    attempts: seq<Attempt>)

  const DOMAINS: set<string> :=
    {"NSURLErrorDomain", "kCFErrorDomainCFNetwork", "CKErrorDomain", "CKInternalErrorDomain", "NSCocoaErrorDomain",
     "NSPOSIXErrorDomain", "NSOSStatusErrorDomain"}

  const OBSERVATIONS: set<string> :=
    {"missing-stapled-ticket", "ticket-validation-failed", "connection-lost", "network-timeout",
     "cloudkit-unexpected-response", "record-not-found", "native-staple-success-text", "native-validation-success-text"}

  const LOST: NativeError := NativeError("NSURLErrorDomain", -1005)
  const LOST_BELOW: NativeError := NativeError("kCFErrorDomainCFNetwork", -1005)
  const RESERVE_MS: int := 20000

  predicate IntegerIn(value: int, low: int, high: int) {
    low <= value <= high
  }

  predicate NativeExit(value: Option<int>) {
    value.Some? ==> IntegerIn(value.value, 0, 255)
  }

  predicate StringLess(a: string, b: string) {
    b != [] && (a == [] || a[0] < b[0] || (a[0] == b[0] && StringLess(a[1..], b[1..])))
  }

  /** Where two texts first differ, the first one ends or has the smaller character. */
  predicate SmallerAt(a: string, b: string, n: nat) {
    n <= |a| && n < |b| && a[..n] == b[..n] && (n == |a| || a[n] < b[n])
  }

  lemma {:induction false} StringLessExactly(a: string, b: string)
    ensures StringLess(a, b) <==> exists n: nat :: SmallerAt(a, b, n)
  {
    if b != [] && (a == [] || a[0] != b[0]) {
      assert SmallerAt(a, b, 0) <==> StringLess(a, b);
      assert forall n: nat :: SmallerAt(a, b, n) && n > 0 ==> a[..n][0] == b[..n][0];
    } else if b != [] {
      StringLessExactly(a[1..], b[1..]);
      forall n: nat
        ensures SmallerAt(a[1..], b[1..], n) <==> SmallerAt(a, b, n + 1)
      {
        if n < |a| && n + 1 < |b| {
          assert a[..n + 1] == [a[0]] + a[1..][..n] && b[..n + 1] == [b[0]] + b[1..][..n];
          assert a[..n + 1][1..] == a[1..][..n] && b[..n + 1][1..] == b[1..][..n];
        }
      }
      assert !SmallerAt(a, b, 0);
      forall n: nat | SmallerAt(a, b, n)
        ensures SmallerAt(a[1..], b[1..], n - 1)
      {
        assert n == n - 1 + 1;
      }
    }
  }

  predicate ErrorLess(a: NativeError, b: NativeError) {
    StringLess(a.domain, b.domain) || (a.domain == b.domain && a.code < b.code)
  }

  predicate Retryable(a: Attempt) {
    && a.nativeExit == Some(68) && a.cleanupConfirmed && a.outputBounded && a.evidenceComplete
    && "connection-lost" in a.observations
    && (forall o | o in a.observations :: o == "connection-lost" || o == "cloudkit-unexpected-response")
    && LOST in a.nativeErrorCodes && (forall e | e in a.nativeErrorCodes :: e == LOST || e == LOST_BELOW)
    && a.httpStatuses == []
  }

  predicate CheckAttempt(a: Attempt, number: int, elapsed: int) {
    && IntegerIn(a.number, 1, 3) && a.number == number
    && IntegerIn(a.startedMs, 0, elapsed) && IntegerIn(a.finishedMs, a.startedMs, elapsed)
    && NativeExit(a.nativeExit)
    && (forall o | o in a.observations :: o in OBSERVATIONS || o == "signature-denied")
    && (forall i, j | 0 <= i < j < |a.observations| :: StringLess(a.observations[i], a.observations[j]))
    && |a.httpStatuses| <= 32 && (forall s | s in a.httpStatuses :: IntegerIn(s, 100, 599))
    && (forall i, j | 0 <= i < j < |a.httpStatuses| :: a.httpStatuses[i] < a.httpStatuses[j])
    && |a.nativeErrorCodes| <= 32
    && (forall e | e in a.nativeErrorCodes :: e.domain in DOMAINS && IntegerIn(e.code, -999999, 999999))
    && (forall i, j | 0 <= i < j < |a.nativeErrorCodes| :: ErrorLess(a.nativeErrorCodes[i], a.nativeErrorCodes[j]))
    && (a.outputBounded || (a.observations == [] && a.httpStatuses == [] && a.nativeErrorCodes == []
                          && !a.evidenceComplete))
    && (a.backoffRequestedMs.None? || (number < 3 && a.backoffRequestedMs == Some(number * 1000)))
  }

  /** One round of the record's loop: the attempt by itself, its reserve, and the one before it. */
  predicate CheckRound(v: Record, i: nat)
    requires i < |v.attempts|
  {
    var a := v.attempts[i];
    && CheckAttempt(a, i + 1, v.elapsedMs)
    && v.budgetMs - a.startedMs >= RESERVE_MS
    && (a.backoffRequestedMs.Some? ==> v.budgetMs - a.finishedMs >= RESERVE_MS + a.backoffRequestedMs.value)
    && (i > 0 ==>
          var previous := v.attempts[i - 1];
          && Retryable(previous) && previous.backoffRequestedMs == Some(i * 1000)
          && a.startedMs >= previous.finishedMs + i * 1000)
  }

  predicate CheckRecord(v: Record) {
    var n := |v.attempts|;
    && NativeExit(v.nativeExit) && IntegerIn(v.budgetMs, 0, 60000) && IntegerIn(v.elapsedMs, 0, v.budgetMs)
    && n <= 3 && (forall i | 0 <= i < n :: CheckRound(v, i))
    && v.nativeExit == (if n > 0 then v.attempts[n - 1].nativeExit else None)
    && v.outputBounded == (n > 0 && forall a | a in v.attempts :: a.outputBounded)
    && (if v.verdict == Validated then
          && v.refusal.None? && n > 0 && v.nativeExit == Some(0) && v.attempts[n - 1].cleanupConfirmed
          && v.outputBounded
          && v.attempts[n - 1].backoffRequestedMs.None?
        else
          && v.refusal.Some?
          && (n == 0 ==> v.refusal.value in {Deadline, Identity, Unconfirmed})
          && (v.refusal.value == Exhausted ==>
                n == 3 && Retryable(v.attempts[2]) && v.attempts[2].backoffRequestedMs.None?))
    && (n > 0 && v.attempts[n - 1].backoffRequestedMs.Some? ==> v.verdict == Refused && Retryable(v.attempts[n - 1]))
  }

  predicate TicketValidated(v: Record) {
    CheckRecord(v) && v.verdict == Validated && v.refusal.None?
  }

  // ----- The check, refusing at the first requirement that is not met

  method IsRetryable(attempt: Attempt) returns (retryable: bool)
    ensures retryable <==> Retryable(attempt)
  {
    var errors := set item <- attempt.nativeErrorCodes :: item;
    var observations := set item <- attempt.observations :: item;
    assert forall e :: e in errors <==> e in attempt.nativeErrorCodes;
    assert forall o :: o in observations <==> o in attempt.observations;
    return attempt.nativeExit == Some(68) && attempt.cleanupConfirmed
        && attempt.outputBounded && attempt.evidenceComplete
        && "connection-lost" in observations
        && observations <= {"connection-lost", "cloudkit-unexpected-response"}
        && NativeError("NSURLErrorDomain", -1005) in errors
        && errors <= {NativeError("NSURLErrorDomain", -1005), NativeError("kCFErrorDomainCFNetwork", -1005)}
        && attempt.httpStatuses == [];
  }

  method RequireAttempt(item: Attempt, number: int, elapsed: int) returns (passed: bool)
    ensures passed <==> CheckAttempt(item, number, elapsed)
  {
    hide StringLess;
    if !IntegerIn(item.number, 1, 3) || item.number != number {
      return false;
    }
    if !IntegerIn(item.startedMs, 0, elapsed) || !IntegerIn(item.finishedMs, item.startedMs, elapsed) {
      return false;
    }
    if item.nativeExit.Some? && !(0 <= item.nativeExit.value <= 255) {
      return false;
    }
    var observations := item.observations;
    if exists o <- observations :: o !in OBSERVATIONS + {"signature-denied"} {
      return false;
    }
    if exists i, j | 0 <= i < j < |observations| :: !StringLess(observations[i], observations[j]) {
      return false;
    }
    var statuses := item.httpStatuses;
    if |statuses| > 32 || exists s <- statuses :: !IntegerIn(s, 100, 599) {
      return false;
    }
    if exists i, j | 0 <= i < j < |statuses| :: statuses[i] >= statuses[j] {
      return false;
    }
    var errors := item.nativeErrorCodes;
    if |errors| > 32 {
      return false;
    }
    for i := 0 to |errors|
      invariant forall k | 0 <= k < i :: errors[k].domain in DOMAINS && -999999 <= errors[k].code <= 999999
    {
      assert errors[i] in item.nativeErrorCodes;
      if errors[i].domain !in DOMAINS || !IntegerIn(errors[i].code, -999999, 999999) {
        return false;
      }
    }
    if exists i, j | 0 <= i < j < |errors| :: !ErrorLess(errors[i], errors[j]) {
      return false;
    }
    if !item.outputBounded && (observations != [] || statuses != [] || errors != [] || item.evidenceComplete) {
      return false;
    }
    var backoff := item.backoffRequestedMs;
    return backoff.None? || (number < 3 && backoff.value == number * 1000);
  }

  method RequireRecord(value: Record) returns (passed: bool)
    ensures passed <==> CheckRecord(value)
  {
    hide CheckAttempt, Retryable;
    var attempts := value.attempts;
    if !NativeExit(value.nativeExit) || !IntegerIn(value.budgetMs, 0, 60000)
       || !IntegerIn(value.elapsedMs, 0, value.budgetMs) || |attempts| > 3 {
      return false;
    }
    for i := 0 to |attempts|
      invariant forall k | 0 <= k < i :: CheckRound(value, k)
    {
      var item := attempts[i];
      assert CheckRound(value, i) ==> CheckAttempt(item, i + 1, value.elapsedMs);
      var passes := RequireAttempt(item, i + 1, value.elapsedMs);
      if !passes {
        return false;
      }
      if value.budgetMs - item.startedMs < 20000 {
        return false;
      }
      if item.backoffRequestedMs.Some? && value.budgetMs - item.finishedMs < 20000 + item.backoffRequestedMs.value {
        return false;
      }
      if i > 0 {
        var previous := attempts[i - 1];
        var retryable := IsRetryable(previous);
        if !retryable || previous.backoffRequestedMs != Some(i * 1000) {
          return false;
        }
        if item.startedMs < previous.finishedMs + previous.backoffRequestedMs.value {
          return false;
        }
      }
      assert CheckRound(value, i);
    }
    hide CheckRound;
    var last := if attempts == [] then None else Some(attempts[|attempts| - 1]);
    if value.nativeExit != (if last.Some? then last.value.nativeExit else None) {
      return false;
    }
    if value.outputBounded != (attempts != [] && forall a <- attempts :: a.outputBounded) {
      return false;
    }
    var retryable := false;
    if last.Some? {
      retryable := IsRetryable(last.value);
    }
    if value.verdict == Validated {
      if value.refusal.Some? || last.None? || value.nativeExit != Some(0) || !last.value.cleanupConfirmed
         || !value.outputBounded || last.value.backoffRequestedMs.Some? {
        return false;
      }
    } else {
      if value.refusal.None? {
        return false;
      }
      if last.None? && value.refusal.value !in {Deadline, Identity, Unconfirmed} {
        return false;
      }
      if value.refusal == Some(Exhausted)
         && (|attempts| != 3 || !retryable || last.value.backoffRequestedMs.Some?) {
        return false;
      }
    }
    if last.Some? && last.value.backoffRequestedMs.Some? {
      return value.verdict == Refused && retryable;
    }
    return true;
  }

  // ----- The timeline

  /** Attempt i + 1 cannot have started before the back-offs before it have passed. */
  lemma {:induction false} StartsAfter(v: Record, i: nat)
    requires CheckRecord(v) && i < |v.attempts|
    ensures v.attempts[i].startedMs >= 500 * i * (i + 1)
  {
    assert CheckRound(v, i);
    if i > 0 {
      StartsAfter(v, i - 1);
      assert CheckRound(v, i - 1);
      assert 500 * i * (i + 1) == 500 * (i - 1) * i + i * 1000;
    }
  }

  lemma {:induction false} Ordered(v: Record, i: nat, j: nat)
    requires CheckRecord(v) && i < j < |v.attempts|
    ensures Retryable(v.attempts[i]) && v.attempts[i].backoffRequestedMs == Some((i + 1) * 1000)
    ensures v.attempts[i].finishedMs + (i + 1) * 1000 <= v.attempts[j].startedMs
    decreases j
  {
    assert CheckRound(v, j) && CheckRound(v, j - 1) && CheckRound(v, i + 1);
    if i < j - 1 {
      Ordered(v, i, j - 1);
    }
  }

  /** An accepted timeline of at least one attempt: attempts lie one after the other with their back-off
      between, all but the last retryable, and the budget covers every back-off and the reserve. */
  lemma Timeline(v: Record)
    requires CheckRecord(v) && v.attempts != []
    ensures var n := |v.attempts|;
      && v.budgetMs >= RESERVE_MS + 500 * n * (n - 1)
      && (v.attempts[n - 1].backoffRequestedMs.Some? ==> v.budgetMs >= RESERVE_MS + 500 * n * (n + 1))
      && (forall i | 0 <= i < n ::
          0 <= v.attempts[i].startedMs <= v.attempts[i].finishedMs <= v.elapsedMs <= v.budgetMs)
      && (forall i, j | 0 <= i < j < n ::
            Retryable(v.attempts[i]) && v.attempts[i].finishedMs + (i + 1) * 1000 <= v.attempts[j].startedMs)
  {
    var n := |v.attempts|;
    StartsAfter(v, n - 1);
    assert CheckRound(v, n - 1);
    assert 500 * n * (n + 1) == 500 * (n - 1) * n + n * 1000;
    forall i | 0 <= i < n
      ensures 0 <= v.attempts[i].startedMs <= v.attempts[i].finishedMs <= v.elapsedMs <= v.budgetMs
    {
      assert CheckRound(v, i);
    }
    forall i, j | 0 <= i < j < n
      ensures Retryable(v.attempts[i]) && v.attempts[i].finishedMs + (i + 1) * 1000 <= v.attempts[j].startedMs
    {
      Ordered(v, i, j);
    }
  }

  /** A record without attempts is accepted whatever its budget: the reserve is not asked of it. */
  lemma NoAttemptsNoReserve()
    ensures var v := Record(None, false, 0, 0, Refused, Some(Deadline), []);
      CheckRecord(v) && v.budgetMs < RESERVE_MS
  {
  }

  predicate CoversReserve(v: Record) {
    var n := |v.attempts|;
    v.budgetMs >= RESERVE_MS + 500 * n * (n - 1)
  }

  /** So the bound holds of every accepted record with n attempts exactly when n is positive. */
  lemma ReserveHolds(n: nat)
    ensures (forall v | CheckRecord(v) && |v.attempts| == n :: CoversReserve(v)) <==> n > 0
  {
    if n == 0 {
      NoAttemptsNoReserve();
      var v := Record(None, false, 0, 0, Refused, Some(Deadline), []);
      assert CheckRecord(v) && |v.attempts| == n && !CoversReserve(v);
    } else {
      forall v | CheckRecord(v) && |v.attempts| == n
        ensures CoversReserve(v)
      {
        Timeline(v);
      }
    }
  }

  /** A validated ticket rests on exactly one success: the last attempt, all before it lost connections. */
  lemma ValidatedOnce(v: Record)
    requires TicketValidated(v)
    ensures var n := |v.attempts|;
      && n > 0 && (forall i | 0 <= i < n :: v.attempts[i].nativeExit == Some(0) <==> i == n - 1)
      && (forall i | 0 <= i < n :: v.attempts[i].cleanupConfirmed && v.attempts[i].outputBounded)
  {
    var n := |v.attempts|;
    forall i | 0 <= i < n - 1
      ensures Retryable(v.attempts[i])
    {
      Ordered(v, i, n - 1);
    }
    assert forall i | 0 <= i < n :: v.attempts[i] in v.attempts;
  }
}
