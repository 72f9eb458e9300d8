/** TAR numbers, headers and the archives the preflight is meant to accept
    (scripts/verify_release_archives.py:427-432 and 596-696). */
module TarFormat {
  import opened Outcome
  import opened Bytes
  import opened ArchiveFile

  const BLOCK: nat := 512
  const MAX_ENTRIES: nat := 10_000
  const MAX_ENTRY_BYTES: nat := 128 * 1024 * 1024
  const MAX_EXPANDED_BYTES: nat := 512 * 1024 * 1024
  const MAX_METADATA_BYTES: nat := 1024 * 1024
  const MAX_METADATA_TOTAL_BYTES: nat := 4 * 1024 * 1024
  const MAX_PATH_BYTES: nat := 4096
  const MAX_TAR_STREAM_BYTES: nat := 512 * 1024 * 1024 + 10_000 * 1024

  // ----- Numbers

  const SPACE: byte := 0x20

  predicate Filler(b: byte) {
    b == 0 || b == SPACE
  }

  predicate OctalDigit(b: byte) {
    0x30 <= b <= 0x37
  }

  predicate AllOctal(s: seq<byte>) {
    forall i | 0 <= i < |s| :: OctalDigit(s[i])
  }

  predicate AllFiller(s: seq<byte>) {
    forall i | 0 <= i < |s| :: Filler(s[i])
  }

  function Spaces(n: nat): (s: seq<byte>)
    ensures |s| == n
  {
    seq(n, _ => SPACE)
  }

  function Octal(digits: seq<byte>): nat
    requires AllOctal(digits)
  {
    if digits == [] then 0
    else 8 * Octal(digits[..|digits| - 1]) + (digits[|digits| - 1] - 0x30)
  }

  function StripRight(s: seq<byte>): seq<byte> {
    if s != [] && Filler(s[|s| - 1]) then StripRight(s[..|s| - 1]) else s
  }

  function StripLeft(s: seq<byte>): seq<byte> {
    if s != [] && s[0] == SPACE then StripLeft(s[1..]) else s
  }

  function ParseTarNumber(field: seq<byte>, canonical: bool): Result<nat, ArchiveError> {
    if field != [] && field[0] >= 0x80 then Err(Base256)
    else
      var value := StripLeft(StripRight(field));
      if !AllOctal(value) then Err(BadNumber)
      else
        var lead := |field| - |StripLeft(field)|;
        if canonical && (value == [] || !AllFiller(field[Max(Min(lead + |value|, |field|), 0)..]))
        then Err(NonCanonicalNumber)
        else Ok(Octal(value))
  }

  /** Leading spaces, octal digits, then any mix of spaces and NULs. */
  ghost predicate NumberField(field: seq<byte>, lead: nat, digits: seq<byte>, tail: seq<byte>) {
    field == Spaces(lead) + digits + tail && AllOctal(digits) && AllFiller(tail)
    && (digits == [] && tail != [] ==> tail[0] != SPACE)
  }

  lemma {:induction false} StripRightSplits(s: seq<byte>)
    ensures var v := StripRight(s);
      |v| <= |s| && s[..|v|] == v && AllFiller(s[|v|..]) && (v != [] ==> !Filler(v[|v| - 1]))
    decreases |s|
  {
    if s != [] && Filler(s[|s| - 1]) {
      var t := s[..|s| - 1];
      StripRightSplits(t);
      var v := StripRight(t);
      assert s[..|v|] == t[..|v|];
      assert s[|v|..] == t[|v|..] + [s[|s| - 1]];
    }
  }

  lemma {:induction false} StripLeftSplits(s: seq<byte>)
    ensures var v := StripLeft(s);
      |v| <= |s| && s == Spaces(|s| - |v|) + v && (v != [] ==> v[0] != SPACE)
    decreases |s|
  {
    if s != [] && s[0] == SPACE {
      StripLeftSplits(s[1..]);
      var v := StripLeft(s[1..]);
      assert s == [SPACE] + s[1..];
      assert Spaces(|s| - |v|) == [SPACE] + Spaces(|s| - 1 - |v|);
    }
  }

  lemma {:induction false} StripLeftOf(lead: nat, rest: seq<byte>)
    requires rest == [] || rest[0] != SPACE
    ensures StripLeft(Spaces(lead) + rest) == rest
    decreases lead
  {
    var s := Spaces(lead) + rest;
    if lead == 0 {
      assert s == rest;
    } else {
      assert s[1..] == Spaces(lead - 1) + rest;
      StripLeftOf(lead - 1, rest);
    }
  }

  lemma {:induction false} StripRightOf(rest: seq<byte>, tail: seq<byte>)
    requires AllFiller(tail) && (rest != [] ==> !Filler(rest[|rest| - 1]))
    ensures StripRight(rest + tail) == rest
    decreases |tail|
  {
    var s := rest + tail;
    if tail == [] {
      assert s == rest;
    } else {
      assert s[..|s| - 1] == rest + tail[..|tail| - 1];
      StripRightOf(rest, tail[..|tail| - 1]);
    }
  }

  lemma {:induction false} StripRightSpaces(lead: nat, tail: seq<byte>)
    requires AllFiller(tail)
    ensures StripRight(Spaces(lead) + tail) == []
  {
    var s := Spaces(lead) + tail;
    assert s == [] + s;
    StripRightOf([], s);
  }

  /** A field splits in one way only, and stripping finds the digits of that split. */
  lemma NumberFieldStripped(field: seq<byte>, lead: nat, digits: seq<byte>, tail: seq<byte>)
    requires NumberField(field, lead, digits, tail)
    ensures StripLeft(StripRight(field)) == digits && |StripLeft(field)| == |field| - lead
    ensures field == [] || field[0] < 0x80
  {
    assert field == Spaces(lead) + (digits + tail);
    StripLeftOf(lead, digits + tail);
    if digits == [] {
      assert field == Spaces(lead) + tail;
      StripRightSpaces(lead, tail);
    } else {
      StripRightOf(Spaces(lead) + digits, tail);
      StripLeftOf(lead, digits);
    }
  }

  /** What stripping leaves splits the field, if it is all octal digits. */
  lemma StrippedField(field: seq<byte>) returns (lead: nat, tail: seq<byte>)
    requires AllOctal(StripLeft(StripRight(field)))
    ensures NumberField(field, lead, StripLeft(StripRight(field)), tail)
  {
    hide StripRight, StripLeft;
    var stripped := StripRight(field);
    var digits := StripLeft(stripped);
    StripRightSplits(field);
    StripLeftSplits(stripped);
    if digits != [] {
      lead, tail := |stripped| - |digits|, field[|stripped|..];
    } else {
      StripLeftSplits(field);
      tail := StripLeft(field);
      lead := |field| - |tail|;
      assert stripped == [] by {
        assert stripped == Spaces(|stripped|);
      }
      assert tail == field[lead..];
      assert field == Spaces(lead) + digits + tail;
    }
  }

  /** A number is accepted exactly when its field has that shape, with at least one digit if canonical;
      so the suffix test of the canonical form never decides anything. */
  lemma NumberExactly(field: seq<byte>, canonical: bool, v: nat)
    ensures ParseTarNumber(field, canonical) == Ok(v)
       <==> exists lead: nat, digits, tail ::
              NumberField(field, lead, digits, tail) && (canonical ==> digits != []) && v == Octal(digits)
  {
    if ParseTarNumber(field, canonical) == Ok(v) {
      var stripped := StripRight(field);
      var digits := StripLeft(stripped);
      var lead, tail := StrippedField(field);
      assert NumberField(field, lead, digits, tail);
    }
    forall lead: nat, digits, tail |
      NumberField(field, lead, digits, tail) && (canonical ==> digits != []) && v == Octal(digits)
      ensures ParseTarNumber(field, canonical) == Ok(v)
    {
      NumberFieldStripped(field, lead, digits, tail);
      assert field[lead + |digits|..] == tail;
    }
  }

  // ----- Writing numbers

  function Power8(n: nat): (p: nat)
    ensures p > 0
  {
    if n == 0 then 1 else 8 * Power8(n - 1)
  }

  /** A value in this many octal digits. */
  function OctalText(v: nat, width: nat): (s: seq<byte>)
    ensures |s| == width
  {
    if width == 0 then [] else OctalText(v / 8, width - 1) + ['0' as int + v % 8]
  }

  lemma {:induction false} OctalOfText(v: nat, width: nat)
    requires v < Power8(width)
    ensures AllOctal(OctalText(v, width)) && Octal(OctalText(v, width)) == v
    decreases width
  {
    if width > 0 {
      OctalOfText(v / 8, width - 1);
      var s := OctalText(v, width);
      assert s[..width - 1] == OctalText(v / 8, width - 1);
    }
  }

  lemma {:induction false} TextOfOctal(digits: seq<byte>)
    requires AllOctal(digits)
    ensures Octal(digits) < Power8(|digits|) && OctalText(Octal(digits), |digits|) == digits
    decreases |digits|
  {
    if digits != [] {
      var front, last := digits[..|digits| - 1], digits[|digits| - 1];
      TextOfOctal(front);
      assert Octal(digits) / 8 == Octal(front) && Octal(digits) % 8 == last - 0x30;
      assert digits == front + [last];
    }
  }

  /** A number written in a field: spaces, octal digits, then any mix of spaces and NULs. */
  predicate WrittenAs(field: seq<byte>, v: nat, lead: nat, width: nat, tail: seq<byte>) {
    && field == Spaces(lead) + OctalText(v, width) + tail && v < Power8(width) && AllFiller(tail)
    && (width == 0 && tail != [] ==> tail[0] != SPACE)
  }

  /** In canonical form at least one digit is written. */
  ghost predicate Writes(field: seq<byte>, v: nat, canonical: bool) {
    exists lead: nat, width: nat, tail :: WrittenAs(field, v, lead, width, tail) && (canonical ==> width > 0)
  }

  /** A number is read exactly when it is written there. */
  lemma NumberWritten(field: seq<byte>, canonical: bool, v: nat)
    ensures ParseTarNumber(field, canonical) == Ok(v) <==> Writes(field, v, canonical)
  {
    hide ParseTarNumber, OctalText, Octal, AllOctal, AllFiller;
    NumberExactly(field, canonical, v);
    if ParseTarNumber(field, canonical) == Ok(v) {
      var lead: nat, digits, tail :|
        NumberField(field, lead, digits, tail) && (canonical ==> digits != []) && v == Octal(digits);
      TextOfOctal(digits);
      assert WrittenAs(field, v, lead, |digits|, tail);
    }
    if Writes(field, v, canonical) {
      var lead: nat, width: nat, tail :| WrittenAs(field, v, lead, width, tail) && (canonical ==> width > 0);
      OctalOfText(v, width);
      assert NumberField(field, lead, OctalText(v, width), tail);
    }
  }

  // ----- Headers

  /** Types NUL and "0" to "6". */
  predicate OrdinaryType(t: byte) {
    t == 0 || 0x30 <= t <= 0x36
  }

  /** Types "x" and "g": extended header records. */
  predicate RecordType(t: byte) {
    t == 0x78 || t == 0x67
  }

  /** Types "L" and "K": long names. */
  predicate NameType(t: byte) {
    t == 0x4c || t == 0x4b
  }

  predicate ExtendedType(t: byte) {
    RecordType(t) || NameType(t)
  }

  const USTAR_MAGIC: seq<byte> := [0x75, 0x73, 0x74, 0x61, 0x72, 0, 0x30, 0x30]
  const GNU_MAGIC: seq<byte> := [0x75, 0x73, 0x74, 0x61, 0x72, 0x20, 0x20, 0]

  function Sum(s: seq<byte>): nat {
    if s == [] then 0 else s[0] as int + Sum(s[1..])
  }

  /** The payload size a header announces, after every test on that header alone. */
  function HeaderSize(header: seq<byte>, strict: bool): (r: Result<nat, ArchiveError>)
    requires |header| == BLOCK
    ensures r.Ok? ==> r.value <= MAX_ENTRY_BYTES && (OrdinaryType(header[156]) || ExtendedType(header[156]))
  {
    var t := header[156];
    if !OrdinaryType(t) && !ExtendedType(t) then Err(UnsupportedMember)
    else if strict && (ExtendedType(t) || (header[257..265] != USTAR_MAGIC && header[257..265] != GNU_MAGIC))
    then Err(UnsupportedMetadata)
    else
      var size :- ParseTarNumber(header[124..136], strict);
      var _ :- if strict then StrictNumbers(header) else Ok(());
      if size > MAX_ENTRY_BYTES then Err(MemberSizeLimit)
      else if RecordType(t) && size > MAX_METADATA_BYTES then Err(MetadataSizeLimit)
      else if NameType(t) && size > MAX_PATH_BYTES + 1 then Err(NameSizeLimit)
      else Ok(size)
  }

  function StrictNumbers(header: seq<byte>): Result<(), ArchiveError>
    requires |header| == BLOCK
  {
    var _ :- ParseTarNumber(header[100..108], true);
    var expected :- ParseTarNumber(header[148..156], true);
    if expected != Sum(header[..148]) + 8 * 0x20 + Sum(header[156..]) then Err(BadChecksum) else Ok(())
  }

  // ----- What a header is

  /** The fields of a header, in their order. */
  datatype Fields = Fields(name: seq<byte>, mode: seq<byte>, owners: seq<byte>, size: seq<byte>, time: seq<byte>,
                           checksum: seq<byte>, kind: byte, link: seq<byte>, magic: seq<byte>, rest: seq<byte>)

  predicate Shaped(f: Fields) {
    && |f.name| == 100 && |f.mode| == 8 && |f.owners| == 16 && |f.size| == 12 && |f.time| == 12
    && |f.checksum| == 8 && |f.link| == 100 && |f.magic| == 8 && |f.rest| == 247
  }

  function HeaderBytes(f: Fields): seq<byte> {
    f.name + f.mode + f.owners + f.size + f.time + f.checksum + [f.kind] + f.link + f.magic + f.rest
  }

  /** A kind of member, by the character that stands for it. */
  predicate IsKind(kind: byte, among: string) {
    kind as char in among
  }

  predicate MagicOk(magic: seq<byte>) {
    || magic == ['u' as int, 's' as int, 't' as int, 'a' as int, 'r' as int, 0, '0' as int, '0' as int]
    || magic == ['u' as int, 's' as int, 't' as int, 'a' as int, 'r' as int, ' ' as int, ' ' as int, 0]
  }

  /** The checksum counts itself as spaces. */
  function ChecksumOf(f: Fields): nat {
    Sum(HeaderBytes(f.(checksum := Spaces(8))))
  }

  /** A header that announces a payload of this size: of a listed kind and within its limit; for an application
      archive also an ordinary member whose mode and checksum are canonical numbers. */
  ghost predicate Announces(f: Fields, strict: bool, size: nat) {
    && Shaped(f) && (f.kind == 0 || IsKind(f.kind, "0123456xgLK"))
    && Writes(f.size, size, strict) && size <= MAX_ENTRY_BYTES
    && (IsKind(f.kind, "xg") ==> size <= MAX_METADATA_BYTES) && (IsKind(f.kind, "LK") ==> size <= MAX_PATH_BYTES + 1)
    && (strict ==>
          && !IsKind(f.kind, "xgLK") && MagicOk(f.magic) && (exists mode :: Writes(f.mode, mode, true))
          && Writes(f.checksum, ChecksumOf(f), true))
  }

  function FieldsOf(h: seq<byte>): (f: Fields)
    requires |h| == BLOCK
    ensures Shaped(f)
  {
    Fields(h[..100], h[100..108], h[108..124], h[124..136], h[136..148], h[148..156], h[156], h[157..257], h[257..265],
           h[265..])
  }

  lemma FieldsRoundTrip(h: seq<byte>)
    requires |h| == BLOCK
    ensures HeaderBytes(FieldsOf(h)) == h
  {
  }

  lemma BytesRoundTrip(f: Fields)
    requires Shaped(f)
    ensures |HeaderBytes(f)| == BLOCK && FieldsOf(HeaderBytes(f)) == f
  {
  }

  lemma {:induction false} SumParts(s: seq<byte>, t: seq<byte>)
    ensures Sum(s + t) == Sum(s) + Sum(t)
    decreases |s|
  {
    if s == [] {
      assert s + t == t;
    } else {
      assert (s + t)[1..] == s[1..] + t;
      SumParts(s[1..], t);
    }
  }

  lemma {:induction false} SumSpaces(n: nat)
    ensures Sum(Spaces(n)) == n * 0x20
  {
    if n > 0 {
      assert Spaces(n)[1..] == Spaces(n - 1);
      SumSpaces(n - 1);
    }
  }

  lemma ChecksumIs(h: seq<byte>)
    requires |h| == BLOCK
    ensures ChecksumOf(FieldsOf(h)) == Sum(h[..148]) + 8 * 0x20 + Sum(h[156..])
  {
    var f := FieldsOf(h).(checksum := Spaces(8));
    SumSpaces(8);
    assert HeaderBytes(f) == h[..148] + Spaces(8) + h[156..];
    SumParts(h[..148] + Spaces(8), h[156..]);
    SumParts(h[..148], Spaces(8));
  }

  lemma Kinds(kind: byte)
    ensures OrdinaryType(kind) <==> kind == 0 || IsKind(kind, "0123456")
    ensures RecordType(kind) <==> IsKind(kind, "xg")
    ensures NameType(kind) <==> IsKind(kind, "LK")
    ensures IsKind(kind, "0123456xgLK") <==> IsKind(kind, "0123456") || IsKind(kind, "xg") || IsKind(kind, "LK")
    ensures IsKind(kind, "xgLK") <==> IsKind(kind, "xg") || IsKind(kind, "LK")
    ensures IsKind(kind, "0123456") ==> !IsKind(kind, "xgLK")
  {
  }

  /** A header is accepted with a size exactly when it is made of fields that announce it. */
  lemma HeaderExactly(header: seq<byte>, strict: bool, size: nat)
    requires |header| == BLOCK
    ensures HeaderSize(header, strict) == Ok(size) <==> Announces(FieldsOf(header), strict, size)
  {
    hide ParseTarNumber, Writes, IsKind, Sum, HeaderBytes, OrdinaryType, RecordType, NameType;
    var f := FieldsOf(header);
    Kinds(f.kind);
    ChecksumIs(header);
    forall v: nat
      ensures ParseTarNumber(f.size, strict) == Ok(v) <==> Writes(f.size, v, strict)
      ensures ParseTarNumber(f.mode, true) == Ok(v) <==> Writes(f.mode, v, true)
      ensures ParseTarNumber(f.checksum, true) == Ok(v) <==> Writes(f.checksum, v, true)
    {
      NumberWritten(f.size, strict, v);
      NumberWritten(f.mode, true, v);
      NumberWritten(f.checksum, true, v);
    }
  }

  // ----- Archives

  datatype Member = Member(header: seq<byte>, payload: seq<byte>)

  /** A header made of fields that announce the payload. */
  ghost predicate MemberOk(m: Member, strict: bool) {
    && |m.header| == BLOCK && !AllZero(m.header)
    && exists f :: m.header == HeaderBytes(f) && Announces(f, strict, |m.payload|)
  }

  lemma MemberIs(m: Member, strict: bool)
    ensures MemberOk(m, strict)
       <==> |m.header| == BLOCK && !AllZero(m.header) && HeaderSize(m.header, strict) == Ok(|m.payload|)
  {
    hide Announces, HeaderSize, HeaderBytes, AllZero;
    if |m.header| == BLOCK {
      HeaderExactly(m.header, strict, |m.payload|);
      FieldsRoundTrip(m.header);
      forall f | m.header == HeaderBytes(f) && Announces(f, strict, |m.payload|)
        ensures f == FieldsOf(m.header)
      {
        AnnouncesShaped(f, strict, |m.payload|);
        BytesRoundTrip(f);
      }
    }
  }

  lemma AnnouncesShaped(f: Fields, strict: bool, size: nat)
    requires Announces(f, strict, size)
    ensures Shaped(f)
  {
  }

  /** How many zero bytes fill the payload's last block. */
  function Padding(size: nat): (p: nat)
    ensures p < BLOCK && (size + p) % BLOCK == 0
  {
    (size + 511) / 512 * 512 - size
  }

  function MemberBytes(m: Member): seq<byte> {
    m.header + (m.payload + Zeros(Padding(|m.payload|)))
  }

  datatype Totals = Totals(entries: nat, metadata: nat, expanded: nat)

  const NO_TOTALS := Totals(0, 0, 0)

  predicate Within(t: Totals) {
    t.entries <= MAX_ENTRIES && t.metadata <= MAX_METADATA_TOTAL_BYTES && t.expanded <= MAX_EXPANDED_BYTES
  }

  function Charge(t: Totals, header: seq<byte>, size: nat): Totals
    requires |header| == BLOCK
  {
    Totals(t.entries + 1, t.metadata + (if ExtendedType(header[156]) then size else 0), t.expanded + size)
  }

  ghost predicate MembersOk(ms: seq<Member>, strict: bool) {
    forall i | 0 <= i < |ms| :: MemberOk(ms[i], strict)
  }

  function ChargeAll(t: Totals, ms: seq<Member>): Totals
    requires forall i | 0 <= i < |ms| :: |ms[i].header| == BLOCK
    decreases |ms|
  {
    if ms == [] then t else ChargeAll(Charge(t, ms[0].header, |ms[0].payload|), ms[1..])
  }

  function MembersBytes(ms: seq<Member>): seq<byte> {
    if ms == [] then [] else MemberBytes(ms[0]) + MembersBytes(ms[1..])
  }

  /** An archive's members, and how many zero bytes follow the two zero blocks of the end marker. */
  datatype Archive = Archive(members: seq<Member>, trailing: nat)

  function PayloadBytes(ms: seq<Member>): nat {
    if ms == [] then 0 else |ms[0].payload| + PayloadBytes(ms[1..])
  }

  /** The members that extend others' headers. */
  function Extensions(ms: seq<Member>): seq<Member>
    requires forall i | 0 <= i < |ms| :: |ms[i].header| == BLOCK
  {
    if ms == [] then []
    else (if IsKind(FieldsOf(ms[0].header).kind, "xgLK") then [ms[0]] else []) + Extensions(ms[1..])
  }

  /** Well-formed members, not too many of them, and neither their payloads nor those that extend headers too large
      together. */
  ghost predicate ArchiveOk(a: Archive, strict: bool) {
    && MembersOk(a.members, strict) && |a.members| <= MAX_ENTRIES && PayloadBytes(a.members) <= MAX_EXPANDED_BYTES
    && PayloadBytes(Extensions(a.members)) <= MAX_METADATA_TOTAL_BYTES
  }

  /** Charging members one after another comes to their sums. */
  lemma {:induction false} ChargeAllIs(t: Totals, ms: seq<Member>)
    requires forall i | 0 <= i < |ms| :: |ms[i].header| == BLOCK
    ensures ChargeAll(t, ms)
         == Totals(t.entries + |ms|, t.metadata + PayloadBytes(Extensions(ms)), t.expanded + PayloadBytes(ms))
    decreases |ms|
  {
    hide Charge, IsKind, FieldsOf;
    if ms != [] {
      ChargeIs(t, ms[0].header, |ms[0].payload|);
      ChargeAllIs(Charge(t, ms[0].header, |ms[0].payload|), ms[1..]);
      var rest := Extensions(ms[1..]);
      assert ([ms[0]] + rest)[1..] == rest && [] + rest == rest;
    }
  }

  lemma ChargeIs(t: Totals, header: seq<byte>, size: nat)
    requires |header| == BLOCK
    ensures Charge(t, header, size)
         == Totals(t.entries + 1, t.metadata + (if IsKind(FieldsOf(header).kind, "xgLK") then size else 0),
                   t.expanded + size)
  {
    hide IsKind;
    Kinds(header[156]);
  }

  lemma ArchiveIs(a: Archive, strict: bool)
    ensures ArchiveOk(a, strict) <==> MembersOk(a.members, strict) && Within(ChargeAll(NO_TOTALS, a.members))
  {
    hide MemberOk;
    if MembersOk(a.members, strict) {
      MembersAreBlocks(a.members, strict);
      ChargeAllIs(NO_TOTALS, a.members);
    }
  }

  lemma MembersAreBlocks(ms: seq<Member>, strict: bool)
    requires MembersOk(ms, strict)
    ensures forall i | 0 <= i < |ms| :: |ms[i].header| == BLOCK
  {
  }

  function ArchiveBytes(a: Archive): seq<byte> {
    MembersBytes(a.members) + Zeros(2 * BLOCK + a.trailing)
  }

  lemma {:induction false} ChargesGrow(t: Totals, ms: seq<Member>)
    requires forall i | 0 <= i < |ms| :: |ms[i].header| == BLOCK
    ensures var u := ChargeAll(t, ms);
      t.entries <= u.entries && t.metadata <= u.metadata && t.expanded <= u.expanded
    decreases |ms|
  {
    if ms != [] {
      ChargesGrow(Charge(t, ms[0].header, |ms[0].payload|), ms[1..]);
    }
  }

  lemma {:induction false} MembersLength(t: Totals, ms: seq<Member>)
    requires forall i | 0 <= i < |ms| :: |ms[i].header| == BLOCK
    ensures |MembersBytes(ms)| <= (ChargeAll(t, ms).expanded - t.expanded)
                                 + (BLOCK + BLOCK - 1) * (ChargeAll(t, ms).entries - t.entries)
    decreases |ms|
  {
    if ms != [] {
      MembersLength(Charge(t, ms[0].header, |ms[0].payload|), ms[1..]);
    }
  }

  /** Room for zero bytes after the end marker that the decompressor's bound always leaves. */
  const TRAILING_ROOM: nat := 8976

  /** An archive within the member limits never exceeds the decompressor's bound. */
  lemma ArchiveFits(a: Archive, strict: bool)
    requires ArchiveOk(a, strict) && a.trailing <= TRAILING_ROOM
    ensures |ArchiveBytes(a)| <= MAX_TAR_STREAM_BYTES
  {
    hide MemberOk;
    ArchiveIs(a, strict);
    MembersAreBlocks(a.members, strict);
    MembersLength(NO_TOTALS, a.members);
  }
}
