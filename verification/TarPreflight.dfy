/** The TAR preflight and the decompressor's output bound
    (scripts/verify_release_archives.py:427-432 and 596-696), step by step over the stream. */
module TarPreflight {
  import opened Outcome
  import opened Bytes
  import opened ArchiveFile
  import opened TarFormat
  import opened TarParse

  const COPY_BUFFER_BYTES: nat := 1024 * 1024

  method DiscardExact(file: ByteFile, size: nat) returns (r: Result<(), ArchiveError>)
    requires file.pos <= |file.data|
    modifies file
    ensures r == if old(file.pos) + size <= |file.data| then Ok(()) else Err(Truncated)
    ensures r.Ok? ==> file.pos == old(file.pos) + size
  {
    var remaining := size;
    while remaining > 0
      invariant 0 <= remaining <= size && file.pos == old(file.pos) + (size - remaining) <= |file.data|
    {
      var chunk := file.Read(Min(remaining, COPY_BUFFER_BYTES));
      if chunk == [] {
        return Err(Truncated);
      }
      remaining := remaining - |chunk|;
    }
    return Ok(());
  }

  method DiscardZeroes(file: ByteFile, size: nat) returns (r: Result<(), ArchiveError>)
    requires file.pos <= |file.data|
    modifies file
    ensures r == PaddingAt(file.data, old(file.pos), size)
    ensures r.Ok? ==> file.pos == old(file.pos) + size <= |file.data|
  {
    var remaining := size;
    var start := file.pos;
    while remaining > 0
      invariant 0 <= remaining <= size && file.pos == start + (size - remaining) <= |file.data|
      invariant AllZero(file.data[start..file.pos])
    {
      var chunk := file.Read(Min(remaining, COPY_BUFFER_BYTES));
      if chunk == [] {
        return Err(Truncated);
      }
      assert file.data[start..file.pos] == file.data[start..file.pos - |chunk|] + chunk;
      ZeroParts(file.data[start..file.pos - |chunk|], chunk);
      if !AllZero(chunk) {
        var whole := file.data[start..Min(start + size, |file.data|)];
        assert whole == file.data[start..file.pos] + file.data[file.pos..Min(start + size, |file.data|)];
        ZeroParts(file.data[start..file.pos], file.data[file.pos..Min(start + size, |file.data|)]);
        return Err(NonzeroPadding);
      }
      remaining := remaining - |chunk|;
    }
    return Ok(());
  }

  method RequireZeroRest(file: ByteFile) returns (r: Result<(), ArchiveError>)
    requires file.pos <= |file.data|
    modifies file
    ensures r == if AllZero(file.data[old(file.pos)..]) then Ok(()) else Err(TrailingData)
  {
    var start := file.pos;
    assert AllZero(file.data[start..start]) && AllZero(file.data[|file.data|..]);
    hide AllZero;
    var trailing := file.Read(COPY_BUFFER_BYTES);
    while trailing != []
      invariant start <= file.pos <= |file.data| && |trailing| <= file.pos - start
      invariant trailing == file.data[file.pos - |trailing|..file.pos]
      invariant trailing == [] <==> file.pos - |trailing| >= |file.data|
      invariant AllZero(file.data[start..file.pos - |trailing|])
      decreases |file.data| - file.pos + |trailing|
    {
      var seen := file.data[start..file.pos - |trailing|];
      assert file.data[start..] == seen + trailing + file.data[file.pos..];
      ZeroParts(seen + trailing, file.data[file.pos..]);
      ZeroParts(seen, trailing);
      if !AllZero(trailing) {
        return Err(TrailingData);
      }
      assert file.data[start..file.pos] == seen + trailing;
      trailing := file.Read(COPY_BUFFER_BYTES);
    }
    return Ok(());
  }

  method PreflightTar(file: ByteFile, strictApplication: bool) returns (r: Result<(), ArchiveError>)
    requires file.pos == 0
    modifies file
    ensures r.Verdict() == ArchiveAt(file.data, 0, strictApplication, NO_TOTALS).Verdict()
  {
    hide ArchiveAt, EndAt, HeaderSize, PaddingAt, AllZero;
    var totals, zeroBlocks := NO_TOTALS, 0;
    while true
      invariant file.pos <= |file.data| && 0 <= zeroBlocks < 2
      invariant ArchiveAt(file.data, 0, strictApplication, NO_TOTALS).Verdict()
             == if zeroBlocks == 0 then ArchiveAt(file.data, file.pos, strictApplication, totals).Verdict()
                else EndAt(file.data, file.pos).Verdict()
      decreases |file.data| - file.pos
    {
      ArchiveStep(file.data, file.pos, strictApplication, totals);
      EndStep(file.data, file.pos);
      var block := file.ReadExact(BLOCK);
      if block.Err? {
        return Err(block.error);
      }
      var header := block.value;
      if AllZero(header) {
        zeroBlocks := zeroBlocks + 1;
        if zeroBlocks == 2 {
          r := RequireZeroRest(file);
          return;
        }
        continue;
      }
      if zeroBlocks > 0 {
        return Err(IncompleteEnd);
      }
      if totals.entries + 1 > MAX_ENTRIES {
        return Err(EntryLimit);
      }
      var size := HeaderSize(header, strictApplication);
      if size.Err? {
        return Err(size.error);
      }
      totals := Charge(totals, header, size.value);
      if totals.metadata > MAX_METADATA_TOTAL_BYTES {
        return Err(MetadataTotalLimit);
      }
      if totals.expanded > MAX_EXPANDED_BYTES {
        return Err(ExpandedLimit);
      }
      var payload := DiscardExact(file, size.value);
      if payload.Err? {
        return Err(payload.error);
      }
      var padding := DiscardZeroes(file, Padding(size.value));
      if padding.Err? {
        return Err(padding.error);
      }
    }
  }

  /** One turn of the member loop, before any zero block. */
  lemma ArchiveStep(d: seq<byte>, pos: nat, strict: bool, t: Totals)
    requires pos <= |d|
    ensures ArchiveAt(d, pos, strict, t).Verdict()
      == if pos + BLOCK > |d| then Some(Truncated)
         else
           var header := d[pos..pos + BLOCK];
           if AllZero(header) then EndAt(d, pos + BLOCK).Verdict()
           else if t.entries + 1 > MAX_ENTRIES then Some(EntryLimit)
           else if HeaderSize(header, strict).Err? then HeaderSize(header, strict).Verdict()
           else
             var size := HeaderSize(header, strict).value;
             var end := pos + BLOCK + size;
             if LimitOf(Charge(t, header, size)).Err? then LimitOf(Charge(t, header, size)).Verdict()
             else if end > |d| then Some(Truncated)
             else if PaddingAt(d, end, Padding(size)).Err? then PaddingAt(d, end, Padding(size)).Verdict()
             else ArchiveAt(d, end + Padding(size), strict, Charge(t, header, size)).Verdict()
  {
    hide HeaderSize, LimitOf, PaddingAt, AllZero;
  }

  /** One turn of the loop after the first zero block. */
  lemma EndStep(d: seq<byte>, pos: nat)
    requires pos <= |d|
    ensures EndAt(d, pos).Verdict()
      == if pos + BLOCK > |d| then Some(Truncated)
         else if !AllZero(d[pos..pos + BLOCK]) then Some(IncompleteEnd)
         else if !AllZero(d[pos + BLOCK..]) then Some(TrailingData)
         else None
  {
    hide AllZero;
  }

  /** The preflight accepts exactly the streams of well-formed members within the limits. */
  lemma PreflightTarExactly(d: seq<byte>, strict: bool)
    ensures ArchiveAt(d, 0, strict, NO_TOTALS).Ok?
       <==> exists a: Archive :: ArchiveOk(a, strict) && d == ArchiveBytes(a)
  {
    hide ArchiveAt, ArchiveOk, ArchiveBytes;
    if ArchiveAt(d, 0, strict, NO_TOTALS).Ok? {
      ArchiveExactly(d, strict, ArchiveAt(d, 0, strict, NO_TOTALS).value);
    }
    forall a: Archive | ArchiveOk(a, strict) && d == ArchiveBytes(a)
      ensures ArchiveAt(d, 0, strict, NO_TOTALS).Ok?
    {
      ArchiveExactly(d, strict, a);
    }
  }

  // ----- The decompressor's bounded output

  class Output {
    var written: seq<byte>

    constructor ()
      ensures written == []
    {
      written := [];
    }

    method WriteBounded(chunk: seq<byte>, total: nat) returns (r: Result<nat, ArchiveError>)
      modifies this
      ensures r == if total + |chunk| > MAX_TAR_STREAM_BYTES then Err(TarStreamLimit) else Ok(total + |chunk|)
      ensures written == if r.Ok? then old(written) + chunk else old(written)
    {
      var total' := total + |chunk|;
      if total' > MAX_TAR_STREAM_BYTES {
        return Err(TarStreamLimit);
      }
      written := written + chunk;
      return Ok(total');
    }
  }

  /** One answer of the decoder: what it yields, and whether the compressed stream has ended. */
  datatype Decoded = Decoded(chunk: seq<byte>, eof: bool)

  /** How many answers there are up to the end of the stream. */
  function UpToEnd(answers: seq<Decoded>): (n: nat)
    ensures n <= |answers|
    ensures forall i | 0 <= i < n - 1 :: !answers[i].eof
    ensures n < |answers| ==> n > 0 && answers[n - 1].eof
  {
    if answers == [] then 0 else if answers[0].eof then 1 else 1 + UpToEnd(answers[1..])
  }

  predicate Ends(answers: seq<Decoded>) {
    var n := UpToEnd(answers);
    n > 0 && answers[n - 1].eof
  }

  function Yield(answers: seq<Decoded>): seq<byte> {
    if answers == [] then [] else Yield(answers[..|answers| - 1]) + answers[|answers| - 1].chunk
  }

  /** Writes what the decoder yields, up to the end of its stream; `trailing` is whether compressed data follows
      it. The output is never more than the bound, nor anything but what the decoder yielded. */
  method Decompress(answers: seq<Decoded>, trailing: bool, output: Output) returns (r: Result<nat, ArchiveError>)
    requires output.written == []
    modifies output
    ensures var all := Yield(answers[..UpToEnd(answers)]);
      && r == (if |all| > MAX_TAR_STREAM_BYTES then Err(TarStreamLimit)
               else if !Ends(answers) then Err(TruncatedCompressedData)
               else if trailing then Err(TrailingCompressedData)
               else Ok(|all|))
      && output.written <= all && |output.written| <= MAX_TAR_STREAM_BYTES
      && (|all| <= MAX_TAR_STREAM_BYTES ==> output.written == all)
  {
    hide Yield, UpToEnd;
    var total, n := 0, UpToEnd(answers);
    YieldMore(answers, 0);
    for i := 0 to |answers|
      invariant i < n || (i == n == |answers| && !Ends(answers))
      invariant output.written == Yield(answers[..i]) && total == |output.written| <= MAX_TAR_STREAM_BYTES
      invariant i > 0 ==> !answers[i - 1].eof
    {
      YieldMore(answers, i);
      YieldGrows(answers, i + 1, n);
      r := output.WriteBounded(answers[i].chunk, total);
      if r.Err? {
        YieldGrows(answers, i, n);
        return;
      }
      total := r.value;
      if answers[i].eof {
        assert n == i + 1;
        if trailing {
          return Err(TrailingCompressedData);
        }
        return Ok(total);
      }
    }
    return Err(TruncatedCompressedData);
  }

  lemma YieldMore(answers: seq<Decoded>, i: nat)
    requires i <= |answers|
    ensures i < |answers| ==> Yield(answers[..i + 1]) == Yield(answers[..i]) + answers[i].chunk
    ensures Yield(answers[..0]) == [] && answers[..|answers|] == answers
  {
    if i < |answers| {
      assert answers[..i + 1][..i] == answers[..i];
    }
  }

  lemma {:induction false} YieldGrows(answers: seq<Decoded>, i: nat, n: nat)
    requires i <= n <= |answers|
    ensures Yield(answers[..i]) <= Yield(answers[..n])
    decreases n
  {
    if i < n {
      YieldGrows(answers, i, n - 1);
      assert answers[..n][..n - 1] == answers[..n - 1];
    }
  }
}
