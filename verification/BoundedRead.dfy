/** Reading one file under the budget (crates/kitrove-agent-skills/src/tree.rs:1166-1190, 1227-1257). */
module BoundedRead {
  import opened Outcome
  import opened Bytes
  import opened CaptureBudget

  const BUFFER_BYTES: nat := 8 * 1024

  datatype ReadError = BudgetExhausted | InputOutput

  /** What the operating system may answer to one read. */
  datatype Answer = Data(bytes: seq<byte>) | Interrupted | Failed

  /** An opened file whose future answers are arbitrary; once they run out the file has ended. */
  class Reader {
    var script: seq<Answer>
    var delivered: seq<byte>
    var ended: bool
    var failed: bool

    constructor (script: seq<Answer>)
      ensures this.script == script && delivered == [] && !ended && !failed
    {
      this.script, delivered, ended, failed := script, [], false, false;
    }

    /** One read call of at most `size` bytes; the ghost arguments record what it may not exceed. */
    method Read(size: nat, ghost allowance: nat, ghost outstanding: nat) returns (a: Answer)
      requires 0 < size <= BUFFER_BYTES && size <= allowance && size <= outstanding
      modifies this
      ensures a.Data? ==> |a.bytes| <= size && delivered == old(delivered) + a.bytes && ended == (a.bytes == [])
      ensures !a.Data? ==> delivered == old(delivered) && ended == old(ended)
      ensures failed == (old(failed) || a.Failed?)
      ensures a == NextAnswer(old(script), size)
      ensures script == if old(script) == [] then [] else old(script)[1..]
    {
      if script == [] {
        ended := true;
        return Data([]);
      }
      a := script[0];
      script := script[1..];
      if a.Data? {
        a := Data(a.bytes[..Min(|a.bytes|, size)]);
        delivered := delivered + a.bytes;
        ended := a.bytes == [];
      } else if a.Failed? {
        failed := true;
      }
    }
  }

  /** The answer to a read of at most `size` bytes. */
  function NextAnswer(script: seq<Answer>, size: nat): Answer {
    if script == [] then Data([])
    else
      match script[0]
      case Data(bytes) => Data(bytes[..Min(|bytes|, size)])
      case other => other
  }

  /** What reading up to `want` bytes comes to when `left` may still be charged. */
  function Delivery(script: seq<Answer>, want: nat, left: nat): (r: Result<seq<byte>, ReadError>)
    ensures r.Ok? ==> |r.value| <= want && |r.value| <= left
    decreases |script|
  {
    if want == 0 then Ok([])
    else if left == 0 then Err(BudgetExhausted)
    else
      match NextAnswer(script, Min(Min(want, BUFFER_BYTES), left))
      case Data(chunk) =>
        if chunk == [] then Ok([])
        else
          var rest :- Delivery(script[1..], want - |chunk|, left - |chunk|);
          Ok(chunk + rest)
      case Interrupted => Delivery(script[1..], want, left)
      case Failed => Err(InputOutput)
  }

  /** A budget that covers what is wanted does not show in what is read. */
  lemma {:induction false} EnoughLeft(script: seq<Answer>, want: nat, left: nat)
    requires want <= left
    ensures Delivery(script, want, left) == Delivery(script, want, want)
    decreases |script|
  {
    if want > 0 && script != [] {
      match NextAnswer(script, Min(want, BUFFER_BYTES))
      case Data(chunk) =>
        if chunk != [] {
          EnoughLeft(script[1..], want - |chunk|, left - |chunk|);
        }
      case Interrupted =>
        EnoughLeft(script[1..], want, left);
      case Failed =>
    }
  }

  /** A result with what was read before it. */
  function After(bytes: seq<byte>, r: Result<seq<byte>, ReadError>): Result<seq<byte>, ReadError> {
    match r
    case Ok(rest) => Ok(bytes + rest)
    case Err(e) => Err(e)
  }

  lemma AfterStep(bytes: seq<byte>, script: seq<Answer>, want: nat, left: nat)
    requires want > 0 && left > 0
    ensures var a := NextAnswer(script, Min(Min(want, BUFFER_BYTES), left));
      After(bytes, Delivery(script, want, left))
      == match a
         case Data(chunk) =>
           if chunk == [] then Ok(bytes)
           else After(bytes + chunk, Delivery(script[1..], want - |chunk|, left - |chunk|))
         case Interrupted => After(bytes, Delivery(script[1..], want, left))
         case Failed => Err(InputOutput)
  {
    match NextAnswer(script, Min(Min(want, BUFFER_BYTES), left))
    case Data(chunk) =>
      if chunk == [] {
        assert bytes + [] == bytes;
      } else {
        var rest := Delivery(script[1..], want - |chunk|, left - |chunk|);
        assert rest.Ok? ==> bytes + (chunk + rest.value) == bytes + chunk + rest.value;
      }
    case Interrupted =>
    case Failed =>
  }

  lemma DeliveryEnds(script: seq<Answer>, want: nat, left: nat)
    ensures want == 0 ==> Delivery(script, want, left) == Ok([])
    ensures want > 0 && left == 0 ==> Delivery(script, want, left) == Err(BudgetExhausted)
  {
  }

  /** Reads up to `expectedBytes`, through short and interrupted reads. Every byte taken from the reader
      is charged to the budget, on every path, and no read asks for more than remains of either. */
  method ReadBounded(reader: Reader, expectedBytes: nat, budget: ScanBudget) returns (r: Result<seq<byte>, ReadError>)
    requires budget.Valid() && !reader.failed
    modifies reader, budget`bytesRead
    ensures budget.Valid() && old(reader.delivered) <= reader.delivered
    ensures r == Delivery(old(reader.script), expectedBytes, old(budget.RemainingBytes()))
    ensures budget.bytesRead - old(budget.bytesRead) == |reader.delivered| - |old(reader.delivered)| <= expectedBytes
    ensures r.Ok? ==> reader.delivered == old(reader.delivered) + r.value
                      && !reader.failed && (|r.value| == expectedBytes || reader.ended)
    ensures r == Err(BudgetExhausted) ==>
      budget.RemainingBytes() == 0 && |reader.delivered| - |old(reader.delivered)| < expectedBytes
    ensures r == Err(InputOutput) <==> reader.failed
  {
    hide Delivery;
    var bytes: seq<byte> := [];
    ghost var all := Delivery(reader.script, expectedBytes, budget.RemainingBytes());
    assert all.Ok? ==> [] + all.value == all.value;
    while |bytes| < expectedBytes
      invariant budget.Valid() && !reader.failed && |bytes| <= expectedBytes
      invariant reader.delivered == old(reader.delivered) + bytes
      invariant budget.bytesRead - old(budget.bytesRead) == |bytes|
      invariant After(bytes, Delivery(reader.script, expectedBytes - |bytes|, budget.RemainingBytes())) == all
      decreases |reader.script|
    {
      ghost var script := reader.script;
      var remaining := expectedBytes - |bytes|;
      var requested := Min(remaining, BUFFER_BYTES);
      var allowance := Min(requested, budget.RemainingBytes());
      if allowance == 0 {
        DeliveryEnds(script, remaining, budget.RemainingBytes());
        return Err(BudgetExhausted);
      }
      AfterStep(bytes, script, remaining, budget.RemainingBytes());
      var answer := reader.Read(Min(allowance, BUFFER_BYTES), budget.RemainingBytes(), remaining);
      match answer
      case Data(chunk) =>
        if chunk == [] {
          assert reader.delivered == old(reader.delivered) + bytes && all == Ok(bytes);
          break;
        }
        var charged := budget.TryChargeBytes(|chunk|);
        if !charged {
          return Err(BudgetExhausted);
        }
        bytes := bytes + chunk;
      case Interrupted =>
        continue;
      case Failed =>
        return Err(InputOutput);
    }
    DeliveryEnds(reader.script, expectedBytes - |bytes|, budget.RemainingBytes());
    assert bytes + [] == bytes;
    return Ok(bytes);
  }
}
