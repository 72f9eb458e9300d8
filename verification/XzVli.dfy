/** Variable-length integers of the XZ index and block headers.
    The .xz File Format, section 1.2: seven bits a byte, low bits first, minimal, at most nine bytes. */
module XzVli {
  import opened Outcome
  import opened Bytes
  import opened ArchiveFile

  const VLI_LIMIT: nat := 0x8000_0000_0000_0000

  /** The minimal encoding. */
  function Encode(v: nat): (e: seq<byte>)
    ensures e != []
  {
    if v < 128 then [v] else [128 + v % 128] + Encode(v / 128)
  }

  function Power128(i: nat): (p: nat)
    ensures p > 0
  {
    if i == 0 then 1 else 128 * Power128(i - 1)
  }

  /** The value that starts at `position` when `index` bytes of the integer were read before it. */
  function Rest(data: seq<byte>, position: nat, index: nat): Result<(nat, nat), ArchiveError>
    requires index <= 9
    decreases 9 - index
  {
    if index == 9 || position >= |data| then Err(BadIndexCount)
    else
      var b := data[position];
      if b < 128 then
        if index > 0 && b == 0 then Err(BadIndexCount) else Ok((b, position + 1))
      else
        var (high, end) :- Rest(data, position + 1, index + 1);
        Ok((b % 128 + 128 * high, end))
  }

  function ReadVli(data: seq<byte>, position: nat): Result<(nat, nat), ArchiveError> {
    Rest(data, position, 0)
  }

  /** A result once the low bits `value`, of weight below `weight`, are put back under it. */
  function Under(value: nat, weight: nat, r: Result<(nat, nat), ArchiveError>): Result<(nat, nat), ArchiveError> {
    match r
    case Ok((high, end)) => Ok((value + weight * high, end))
    case Err(e) => Err(e)
  }

  /** Where reading ends: without a byte, after nine, or at a byte below 128. */
  lemma RestEnds(data: seq<byte>, position: nat, index: nat)
    requires index <= 9
    ensures index == 9 || position >= |data| ==> Rest(data, position, index) == Err(BadIndexCount)
    ensures index < 9 && position < |data| && data[position] < 128 ==>
              Rest(data, position, index)
              == if index > 0 && data[position] == 0 then Err(BadIndexCount) else Ok((data[position], position + 1))
  {
  }

  /** A value below 128 is its own encoding; otherwise the low bits come first. */
  lemma EncodedStep(data: seq<byte>, position: nat, v: nat)
    requires At(data, position, Encode(v))
    ensures position < |data|
    ensures v < 128 ==> data[position] == v && |Encode(v)| == 1
    ensures v >= 128 ==> data[position] == 128 + v % 128 && |Encode(v)| == 1 + |Encode(v / 128)|
                         && At(data, position + 1, Encode(v / 128))
  {
    assert data[position] == data[position..position + |Encode(v)|][0] == Encode(v)[0];
    if v >= 128 {
      AtConcat(data, position, [data[position]], Encode(v / 128));
    }
  }

  lemma PowerStep(v: nat, i: nat)
    requires 128 <= v < Power128(i)
    ensures i > 0 && v / 128 < Power128(i - 1)
  {
  }

  lemma RestStep(data: seq<byte>, position: nat, index: nat)
    requires index < 9 && position < |data| && data[position] >= 128
    ensures Rest(data, position, index) == Under(data[position] % 128, 128, Rest(data, position + 1, index + 1))
  {
  }

  /** Decoding a minimal encoding gives the value back, whatever follows it. */
  lemma {:induction false} EncodedIsRead(data: seq<byte>, position: nat, index: nat, v: nat)
    requires index <= 9 && At(data, position, Encode(v))
    requires v < Power128(9 - index)
    requires index > 0 ==> v > 0
    ensures Rest(data, position, index) == Ok((v, position + |Encode(v)|))
    decreases v
  {
    hide At, Encode, Rest;
    EncodedStep(data, position, v);
    RestEnds(data, position, index);
    if v >= 128 {
      hide Power128;
      PowerStep(v, 9 - index);
      EncodedIsRead(data, position + 1, index + 1, v / 128);
      RestStep(data, position, index);
    }
  }

  /** Whatever is accepted is the minimal encoding of the value returned. */
  lemma {:induction false} ReadIsEncoded(data: seq<byte>, position: nat, index: nat)
    requires index <= 9 && Rest(data, position, index).Ok?
    ensures var (v, end) := Rest(data, position, index).value;
      && v < Power128(9 - index)
      && (index > 0 ==> v > 0)
      && At(data, position, Encode(v))
      && end == position + |Encode(v)|
    decreases 9 - index
  {
    var b := data[position];
    if b >= 128 {
      ReadIsEncoded(data, position + 1, index + 1);
      var (high, _) := Rest(data, position + 1, index + 1).value;
      var v := b % 128 + 128 * high;
      assert v / 128 == high && v % 128 == b % 128;
      AtConcat(data, position, [128 + v % 128], Encode(high));
      assert Power128(9 - index) == 128 * Power128(9 - (index + 1));
    } else {
      assert Power128(9 - index) == 128 * Power128(8 - index);
    }
  }

  lemma Limit()
    ensures Power128(9) == VLI_LIMIT
  {
    assert Power128(3) == 128 * 128 * 128;
    assert Power128(6) == 128 * 128 * 128 * Power128(3);
    assert Power128(9) == 128 * 128 * 128 * Power128(6);
  }

  /** `ReadVli` accepts exactly the minimal encodings of the values below 2^63. */
  lemma ReadVliExactly(data: seq<byte>, position: nat, v: nat, end: nat)
    ensures ReadVli(data, position) == Ok((v, end))
       <==> v < VLI_LIMIT && At(data, position, Encode(v)) && end == position + |Encode(v)|
  {
    Limit();
    if ReadVli(data, position).Ok? {
      ReadIsEncoded(data, position, 0);
    }
    if v < VLI_LIMIT && At(data, position, Encode(v)) {
      EncodedIsRead(data, position, 0, v);
    }
  }

  lemma UnderStep(data: seq<byte>, position: nat, index: nat, value: nat)
    requires index < 9 && position < |data| && data[position] >= 128
    ensures Under(value, Power128(index), Rest(data, position, index))
         == Under(value + data[position] % 128 * Power128(index), Power128(index + 1),
                 Rest(data, position + 1, index + 1))
  {
    var low, weight, rest := data[position] % 128, Power128(index), Rest(data, position + 1, index + 1);
    if rest.Ok? {
      Distribute(weight, low, rest.value.0);
    }
  }

  lemma Distribute(weight: nat, low: nat, high: nat)
    ensures weight * (low + 128 * high) == low * weight + 128 * weight * high
  {
  }

  lemma UnderStart(data: seq<byte>, start: nat)
    ensures Under(0, Power128(0), Rest(data, start, 0)) == ReadVli(data, start)
  {
    hide Rest;
  }

  method ReadXzVli(data: seq<byte>, start: nat) returns (r: Result<(nat, nat), ArchiveError>)
    ensures r == ReadVli(data, start)
  {
    hide Rest, Power128;
    var value: nat, position: nat := 0, start;
    UnderStart(data, start);
    for index := 0 to 9
      invariant Under(value, Power128(index), Rest(data, position, index)) == ReadVli(data, start)
    {
      RestEnds(data, position, index);
      if position >= |data| {
        return Err(BadIndexCount);
      }
      var b := data[position];
      if b < 128 {
        if index > 0 && b == 0 {
          return Err(BadIndexCount);
        }
        return Ok((value + Power128(index) * b, position + 1));
      }
      UnderStep(data, position, index, value);
      value, position := value + b % 128 * Power128(index), position + 1;
    }
    RestEnds(data, position, 9);
    return Err(BadIndexCount);
  }
}
