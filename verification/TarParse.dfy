/** What the TAR preflight reads, as a function over the stream that keeps the members read,
    and the proof that it accepts exactly the archives of TarFormat, each in one way only. */
module TarParse {
  import opened Outcome
  import opened Bytes
  import opened ArchiveFile
  import opened TarFormat

  function LimitOf(t: Totals): Result<(), ArchiveError> {
    if t.metadata > MAX_METADATA_TOTAL_BYTES then Err(MetadataTotalLimit)
    else if t.expanded > MAX_EXPANDED_BYTES then Err(ExpandedLimit)
    else Ok(())
  }

  /** The first nonzero byte decides before the end of the file does. */
  function PaddingAt(d: seq<byte>, pos: nat, size: nat): Result<(), ArchiveError>
    requires pos <= |d|
  {
    if !AllZero(d[pos..Min(pos + size, |d|)]) then Err(NonzeroPadding)
    else if pos + size > |d| then Err(Truncated)
    else Ok(())
  }

  function EndAt(d: seq<byte>, pos: nat): Result<Archive, ArchiveError> {
    var second :- Slice(d, pos, BLOCK);
    if !AllZero(second) then Err(IncompleteEnd)
    else if !AllZero(d[pos + BLOCK..]) then Err(TrailingData)
    else Ok(Archive([], |d| - pos - BLOCK))
  }

  /** The archive that starts at `pos`, after members that came to the totals `t`. */
  function ArchiveAt(d: seq<byte>, pos: nat, strict: bool, t: Totals): Result<Archive, ArchiveError>
    decreases |d| - pos
  {
    var header :- Slice(d, pos, BLOCK);
    if AllZero(header) then EndAt(d, pos + BLOCK)
    else if t.entries + 1 > MAX_ENTRIES then Err(EntryLimit)
    else
      var size :- HeaderSize(header, strict);
      var t' := Charge(t, header, size);
      var _ :- LimitOf(t');
      var end := pos + BLOCK + size;
      if end > |d| then Err(Truncated)
      else
        var _ :- PaddingAt(d, end, Padding(size));
        var rest :- ArchiveAt(d, end + Padding(size), strict, t');
        Ok(Archive([Member(header, d[pos + BLOCK..end])] + rest.members, rest.trailing))
  }

  predicate Room(t: Totals, header: seq<byte>, size: nat)
    requires |header| == BLOCK
  {
    t.entries + 1 <= MAX_ENTRIES && LimitOf(Charge(t, header, size)).Ok?
  }

  lemma EndExactly(d: seq<byte>, pos: nat, a: Archive)
    requires a.members == [] && BLOCK <= pos <= |d| && AllZero(d[pos - BLOCK..pos])
    ensures EndAt(d, pos) == Ok(a)
       <==> At(d, pos - BLOCK, ArchiveBytes(a)) && pos - BLOCK + |ArchiveBytes(a)| == |d|
  {
    var rest := d[pos - BLOCK..];
    assert ArchiveBytes(a) == Zeros(2 * BLOCK + a.trailing);
    hide AllZero, Zeros, ArchiveBytes;
    AllZeroIsZeros(rest);
    if pos + BLOCK <= |d| {
      var first, second, third := d[pos - BLOCK..pos], d[pos..pos + BLOCK], d[pos + BLOCK..];
      assert rest == first + second + third;
      ZeroParts(first + second, third);
      ZeroParts(first, second);
    }
  }

  lemma ZeroParts(s: seq<byte>, t: seq<byte>)
    ensures AllZero(s + t) <==> AllZero(s) && AllZero(t)
  {
    if AllZero(s + t) {
      assert forall i | 0 <= i < |s| :: s[i] == (s + t)[i];
      assert forall i | 0 <= i < |t| :: t[i] == (s + t)[|s| + i];
    }
  }

  lemma MemberAt(d: seq<byte>, pos: nat, m: Member)
    requires |m.header| == BLOCK
    ensures var end := pos + BLOCK + |m.payload|;
      At(d, pos, MemberBytes(m))
      <==> && pos + |MemberBytes(m)| <= |d| && d[pos..pos + BLOCK] == m.header
           && d[pos + BLOCK..end] == m.payload && PaddingAt(d, end, Padding(|m.payload|)).Ok?
  {
    var fill := Zeros(Padding(|m.payload|));
    AtConcat(d, pos, m.header, m.payload + fill);
    AtConcat(d, pos + BLOCK, m.payload, fill);
    if pos + |MemberBytes(m)| <= |d| {
      AllZeroIsZeros(d[pos + BLOCK + |m.payload|..pos + |MemberBytes(m)|]);
    }
  }

  lemma MemberRead(d: seq<byte>, pos: nat, strict: bool, t: Totals) returns (m: Member, rest: Archive)
    requires pos + BLOCK <= |d| && !AllZero(d[pos..pos + BLOCK]) && ArchiveAt(d, pos, strict, t).Ok?
    ensures MemberOk(m, strict) && Room(t, m.header, |m.payload|) && At(d, pos, MemberBytes(m))
    ensures ArchiveAt(d, pos + |MemberBytes(m)|, strict, Charge(t, m.header, |m.payload|)) == Ok(rest)
    ensures ArchiveAt(d, pos, strict, t) == Ok(Archive([m] + rest.members, rest.trailing))
  {
    hide HeaderSize, Zeros, LimitOf, AllZero, At, Padding, MemberBytes, EndAt;
    var header := d[pos..pos + BLOCK];
    var size := HeaderSize(header, strict).value;
    var end := pos + BLOCK + size;
    m := Member(header, d[pos + BLOCK..end]);
    hide MemberOk;
    MemberIs(m, strict);
    MemberAt(d, pos, m);
    MemberLength(m);
    rest := ArchiveAt(d, end + Padding(size), strict, Charge(t, header, size)).value;
  }

  lemma MemberWritten(d: seq<byte>, pos: nat, strict: bool, t: Totals, m: Member, rest: Archive)
    requires MemberOk(m, strict) && Room(t, m.header, |m.payload|) && At(d, pos, MemberBytes(m))
    requires ArchiveAt(d, pos + |MemberBytes(m)|, strict, Charge(t, m.header, |m.payload|)) == Ok(rest)
    ensures ArchiveAt(d, pos, strict, t) == Ok(Archive([m] + rest.members, rest.trailing))
  {
    hide HeaderSize, Zeros, LimitOf, AllZero, PaddingAt, At, Padding, MemberOk;
    MemberIs(m, strict);
    MemberAt(d, pos, m);
    assert Slice(d, pos, BLOCK) == Ok(m.header);
  }

  lemma ArchiveCons(d: seq<byte>, pos: nat, m: Member, rest: Archive)
    ensures ArchiveBytes(Archive([m] + rest.members, rest.trailing)) == MemberBytes(m) + ArchiveBytes(rest)
    ensures At(d, pos, ArchiveBytes(Archive([m] + rest.members, rest.trailing)))
       <==> At(d, pos, MemberBytes(m)) && At(d, pos + |MemberBytes(m)|, ArchiveBytes(rest))
  {
    hide MemberBytes, Zeros, At;
    var ms := [m] + rest.members;
    assert ms[0] == m && ms[1..] == rest.members;
    assert ArchiveBytes(Archive(ms, rest.trailing)) == MemberBytes(m) + ArchiveBytes(rest);
    AtConcat(d, pos, MemberBytes(m), ArchiveBytes(rest));
  }

  lemma {:induction false} ArchiveSound(d: seq<byte>, pos: nat, strict: bool, t: Totals)
    requires Within(t) && ArchiveAt(d, pos, strict, t).Ok?
    ensures var a := ArchiveAt(d, pos, strict, t).value;
      && MembersOk(a.members, strict) && Within(ChargeAll(t, a.members))
      && At(d, pos, ArchiveBytes(a)) && pos + |ArchiveBytes(a)| == |d|
    decreases |d| - pos
  {
    hide HeaderSize, MemberBytes, Zeros, At, ArchiveBytes, ArchiveAt, MembersOk, ChargeAll, AllZero;
    HeaderThere(d, pos, strict, t);
    if AllZero(d[pos..pos + BLOCK]) {
      EndRead(d, pos, strict, t);
    } else {
      var m, rest := MemberRead(d, pos, strict, t);
      MemberLength(m);
      ArchiveSound(d, pos + |MemberBytes(m)|, strict, Charge(t, m.header, |m.payload|));
      ArchiveCons(d, pos, m, rest);
      MembersCons(m, rest.members, strict, t);
    }
  }

  lemma EndRead(d: seq<byte>, pos: nat, strict: bool, t: Totals)
    requires ArchiveAt(d, pos, strict, t).Ok? && pos + BLOCK <= |d| && AllZero(d[pos..pos + BLOCK])
    ensures var a := ArchiveAt(d, pos, strict, t).value;
      && MembersOk(a.members, strict) && ChargeAll(t, a.members) == t
      && At(d, pos, ArchiveBytes(a)) && pos + |ArchiveBytes(a)| == |d|
  {
    hide HeaderSize, Zeros, At, ArchiveBytes;
    EndExactly(d, pos + BLOCK, ArchiveAt(d, pos, strict, t).value);
  }

  lemma MembersCons(m: Member, rest: seq<Member>, strict: bool, t: Totals)
    requires MemberOk(m, strict) && MembersOk(rest, strict)
    ensures MembersOk([m] + rest, strict)
    ensures ChargeAll(t, [m] + rest) == ChargeAll(Charge(t, m.header, |m.payload|), rest)
  {
    hide AllZero, HeaderSize, Charge, MemberOk;
    var ms := [m] + rest;
    assert ms[0] == m && ms[1..] == rest;
    assert forall i | 0 <= i < |rest| :: ms[i + 1] == rest[i];
  }

  lemma HeaderThere(d: seq<byte>, pos: nat, strict: bool, t: Totals)
    requires ArchiveAt(d, pos, strict, t).Ok?
    ensures pos + BLOCK <= |d|
  {
    hide HeaderSize;
  }

  lemma MemberLength(m: Member)
    requires |m.header| == BLOCK
    ensures |MemberBytes(m)| == BLOCK + |m.payload| + Padding(|m.payload|) >= BLOCK
  {
  }

  lemma EndComplete(d: seq<byte>, pos: nat, strict: bool, t: Totals, a: Archive)
    requires a.members == [] && At(d, pos, ArchiveBytes(a)) && pos + |ArchiveBytes(a)| == |d|
    ensures ArchiveAt(d, pos, strict, t) == Ok(a)
  {
    hide HeaderSize, Zeros;
    var zeros := Zeros(2 * BLOCK + a.trailing);
    assert ArchiveBytes(a) == zeros;
    assert d[pos..pos + BLOCK] == d[pos..pos + |zeros|][..BLOCK] == zeros[..BLOCK];
    EndExactly(d, pos + BLOCK, a);
  }

  lemma {:induction false} ArchiveComplete(d: seq<byte>, pos: nat, strict: bool, t: Totals, a: Archive)
    requires At(d, pos, ArchiveBytes(a)) && pos + |ArchiveBytes(a)| == |d|
    requires MembersOk(a.members, strict) && Within(ChargeAll(t, a.members))
    ensures ArchiveAt(d, pos, strict, t) == Ok(a)
    decreases |a.members|
  {
    hide ArchiveAt, HeaderSize, MemberBytes, Zeros, At, ArchiveBytes, MemberOk;
    if a.members == [] {
      EndComplete(d, pos, strict, t, a);
    } else {
      var m, rest := a.members[0], Archive(a.members[1..], a.trailing);
      assert a.members == [m] + rest.members;
      ArchiveCons(d, pos, m, rest);
      MembersAreBlocks(a.members, strict);
      MembersAreBlocks([m] + rest.members, strict);
      ChargesGrow(Charge(t, m.header, |m.payload|), rest.members);
      ArchiveComplete(d, pos + |MemberBytes(m)|, strict, Charge(t, m.header, |m.payload|), rest);
      MemberWritten(d, pos, strict, t, m, rest);
    }
  }

  /** A stream is read as `a` exactly when it is `a`'s bytes and `a` is within the limits. */
  lemma ArchiveExactly(d: seq<byte>, strict: bool, a: Archive)
    ensures ArchiveAt(d, 0, strict, NO_TOTALS) == Ok(a) <==> ArchiveOk(a, strict) && d == ArchiveBytes(a)
  {
    hide ArchiveAt, ArchiveBytes, MembersOk, ArchiveOk;
    ArchiveIs(a, strict);
    if ArchiveAt(d, 0, strict, NO_TOTALS) == Ok(a) {
      ArchiveSound(d, 0, strict, NO_TOTALS);
    }
    if ArchiveOk(a, strict) && d == ArchiveBytes(a) {
      ArchiveComplete(d, 0, strict, NO_TOTALS, a);
    }
  }

  /** The members of a stream, and where each ends, are determined by its bytes. */
  lemma ArchiveUnique(a: Archive, b: Archive, strict: bool)
    requires ArchiveOk(a, strict) && ArchiveOk(b, strict) && ArchiveBytes(a) == ArchiveBytes(b)
    ensures a == b
  {
    hide ArchiveAt, ArchiveBytes, ArchiveOk;
    ArchiveExactly(ArchiveBytes(a), strict, a);
    ArchiveExactly(ArchiveBytes(a), strict, b);
  }
}
