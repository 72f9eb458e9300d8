/** What the preflight reads, as functions over the archive's bytes that keep the structure read,
    and the proof that they accept exactly the streams of XzFormat, each in one way only. */
module XzParse {
  import opened Outcome
  import opened Bytes
  import opened ArchiveFile
  import Vli = XzVli
  import opened XzFormat

  // ----- LZMA2 chunks

  /** The length of a chunk's head and the size of the data it announces. */
  function HeadAt(d: seq<byte>, pos: nat): (r: Result<(nat, nat), ArchiveError>)
    requires pos < |d| && d[pos] != 0
    ensures r.Ok? ==> r.value.0 >= 3 && pos + r.value.0 <= |d| && 1 <= r.value.1 <= 0x1_0000
  {
    var control := d[pos];
    if control == 1 || control == 2 then
      var size :- Slice(d, pos + 1, 2);
      Ok((3, FromBe16(size) + 1))
    else if control >= 0x80 then
      var _ :- Slice(d, pos + 1, 2);
      var size :- Slice(d, pos + 3, 2);
      var props :- Slice(d, pos + 5, if control >= 0xC0 then 1 else 0);
      Ok((5 + |props|, FromBe16(size) + 1))
    else Err(BadFraming)
  }

  function ChunkAt(d: seq<byte>, pos: nat, payloadEnd: nat): (r: Result<Chunk, ArchiveError>)
    requires pos < |d| && d[pos] != 0
    ensures r.Ok? ==> ChunkOk(r.value)
  {
    var (head, size) :- HeadAt(d, pos);
    var data :- DataAt(d, pos + head, size, payloadEnd);
    Ok(if d[pos] < 0x80 then Copied(d[pos], data)
       else Packed(d[pos], d[pos + 1..pos + 3], d[pos + 5..pos + head], data))
  }

  /** The chunk's data; data running past the file is noticed at the next byte read. */
  function DataAt(d: seq<byte>, pos: nat, size: nat, payloadEnd: nat): (r: Result<seq<byte>, ArchiveError>)
    ensures r.Ok? ==> At(d, pos, r.value) && |r.value| == size && pos + size <= payloadEnd
  {
    if pos + size > payloadEnd then Err(PayloadExceedsRecord)
    else if pos + size > |d| then Err(if pos + size == payloadEnd then NoEndMarker else Truncated)
    else Ok(d[pos..pos + size])
  }

  function ChunksAt(d: seq<byte>, pos: nat, payloadEnd: nat): (r: Result<seq<Chunk>, ArchiveError>)
    ensures r.Ok? ==> ChunksOk(r.value)
    decreases payloadEnd - pos
  {
    if pos >= payloadEnd then Err(NoEndMarker)
    else if pos >= |d| then Err(Truncated)
    else if d[pos] == 0 then
      if pos + 1 == payloadEnd then Ok([]) else Err(ConcealedData)
    else
      var c :- ChunkAt(d, pos, payloadEnd);
      var rest :- ChunksAt(d, pos + |ChunkBytes(c)|, payloadEnd);
      Ok([c] + rest)
  }

  lemma Be16RoundTrip(s: seq<byte>, n: nat)
    requires |s| == 2
    ensures FromBe16(s) == n <==> n < 0x1_0000 && s == Be16(n)
  {
  }

  lemma CopiedExactly(d: seq<byte>, pos: nat, payloadEnd: nat, control: byte, data: seq<byte>)
    requires pos < |d| && d[pos] != 0 && ChunkOk(Copied(control, data))
    ensures ChunkAt(d, pos, payloadEnd) == Ok(Copied(control, data))
       <==> At(d, pos, ChunkBytes(Copied(control, data))) && pos + 3 + |data| <= payloadEnd
  {
    CopiedParts(d, pos, control, data);
    if pos + 3 <= |d| {
      hide Be16, FromBe16;
      Be16RoundTrip(d[pos + 1..pos + 3], |data| - 1);
    }
  }

  lemma CopiedParts(d: seq<byte>, pos: nat, control: byte, data: seq<byte>)
    requires pos < |d| && ChunkOk(Copied(control, data))
    ensures At(d, pos, ChunkBytes(Copied(control, data)))
       <==> d[pos] == control && At(d, pos + 1, Be16(|data| - 1)) && At(d, pos + 3, data)
  {
    var size := Be16(|data| - 1);
    assert ChunkBytes(Copied(control, data)) == [control] + (size + data);
    AtConcat(d, pos, [control], size + data);
    AtConcat(d, pos + 1, size, data);
    assert At(d, pos, [control]) <==> d[pos] == control;
  }

  lemma PackedParts(d: seq<byte>, pos: nat, c: Chunk)
    requires ChunkOk(c) && c.Packed?
    ensures |ChunkBytes(c)| == 5 + |c.props| + |c.data|
    ensures At(d, pos, ChunkBytes(c))
       <==> At(d, pos, [c.control]) && At(d, pos + 1, c.expanded) && At(d, pos + 3, Be16(|c.data| - 1))
            && At(d, pos + 5, c.props) && At(d, pos + 5 + |c.props|, c.data)
  {
    var size := Be16(|c.data| - 1);
    assert ChunkBytes(c) == [c.control] + (c.expanded + (size + (c.props + c.data)));
    hide At;
    AtConcat(d, pos, [c.control], c.expanded + (size + (c.props + c.data)));
    AtConcat(d, pos + 1, c.expanded, size + (c.props + c.data));
    AtConcat(d, pos + 3, size, c.props + c.data);
    AtConcat(d, pos + 5, c.props, c.data);
  }

  lemma PackedExactly(d: seq<byte>, pos: nat, payloadEnd: nat, c: Chunk)
    requires pos < |d| && d[pos] != 0 && ChunkOk(c) && c.Packed?
    ensures ChunkAt(d, pos, payloadEnd) == Ok(c)
       <==> At(d, pos, ChunkBytes(c)) && pos + |ChunkBytes(c)| <= payloadEnd
  {
    PackedParts(d, pos, c);
    hide ChunkBytes;
    assert At(d, pos, [c.control]) <==> d[pos] == c.control;
    if At(d, pos, [c.control]) && pos + 5 <= |d| {
      Be16RoundTrip(d[pos + 3..pos + 5], |c.data| - 1);
    }
  }

  lemma ChunkExactly(d: seq<byte>, pos: nat, payloadEnd: nat, c: Chunk)
    requires pos < |d| && d[pos] != 0
    ensures ChunkAt(d, pos, payloadEnd) == Ok(c)
       <==> ChunkOk(c) && At(d, pos, ChunkBytes(c)) && pos + |ChunkBytes(c)| <= payloadEnd
  {
    if ChunkOk(c) {
      match c
      case Copied(control, data) => CopiedExactly(d, pos, payloadEnd, control, data);
      case Packed(_, _, _, _) => PackedExactly(d, pos, payloadEnd, c);
    }
  }

  lemma FirstByte(d: seq<byte>, pos: nat, s: seq<byte>)
    requires |s| > 0 && At(d, pos, s)
    ensures pos < |d| && d[pos] == s[0]
  {
    assert d[pos..pos + |s|][0] == d[pos];
  }

  /** The chunks read are `cs` exactly when `cs` and one end marker tile the payload. */
  lemma {:induction false} ChunksExactly(d: seq<byte>, pos: nat, payloadEnd: nat, cs: seq<Chunk>)
    ensures ChunksAt(d, pos, payloadEnd) == Ok(cs)
       <==> ChunksOk(cs) && At(d, pos, PayloadBytes(cs)) && pos + |PayloadBytes(cs)| == payloadEnd
    decreases |cs|
  {
    if ChunksOk(cs) && At(d, pos, PayloadBytes(cs)) {
      FirstByte(d, pos, PayloadBytes(cs));
    }
    if cs == [] {
      if pos < |d| && d[pos] == 0 {
        assert At(d, pos, [0]);
      }
    } else {
      MoreChunks(d, pos, payloadEnd, cs[0], cs[1..]);
      assert cs == [cs[0]] + cs[1..];
    }
  }

  lemma {:induction false} MoreChunks(d: seq<byte>, pos: nat, payloadEnd: nat, c: Chunk, rest: seq<Chunk>)
    ensures ChunksAt(d, pos, payloadEnd) == Ok([c] + rest)
       <==> ChunkOk(c) && ChunksOk(rest) && At(d, pos, ChunkBytes(c) + PayloadBytes(rest))
            && pos + |ChunkBytes(c) + PayloadBytes(rest)| == payloadEnd
    decreases |rest| + 1, 0
  {
    hide ChunkAt, ChunksAt, ChunkBytes, PayloadBytes, At;
    SomeChunks(d, pos, payloadEnd);
    if pos < payloadEnd && pos < |d| && d[pos] != 0 {
      ChunkExactly(d, pos, payloadEnd, c);
      FirstChunk(d, pos, payloadEnd, c, rest);
    }
    if ChunkOk(c) {
      ChunksExactly(d, pos + |ChunkBytes(c)|, payloadEnd, rest);
      if ChunksOk(rest) {
        AtConcat(d, pos, ChunkBytes(c), PayloadBytes(rest));
        if At(d, pos, ChunkBytes(c)) {
          FirstByte(d, pos, ChunkBytes(c));
        }
      }
    }
  }

  lemma SomeChunks(d: seq<byte>, pos: nat, payloadEnd: nat)
    ensures ChunksAt(d, pos, payloadEnd).Ok? && ChunksAt(d, pos, payloadEnd).value != []
        ==> pos < payloadEnd && pos < |d| && d[pos] != 0
  {
    hide ChunkAt;
  }

  lemma FirstChunk(d: seq<byte>, pos: nat, payloadEnd: nat, c: Chunk, rest: seq<Chunk>)
    requires pos < payloadEnd && pos < |d| && d[pos] != 0
    ensures ChunksAt(d, pos, payloadEnd) == Ok([c] + rest)
       <==> ChunkAt(d, pos, payloadEnd) == Ok(c)
            && ChunksAt(d, pos + |ChunkBytes(c)|, payloadEnd) == Ok(rest)
  {
    hide ChunkAt, ChunkOk, ChunkBytes;
    var read := ChunkAt(d, pos, payloadEnd);
    if read.Ok? {
      var more := ChunksAt(d, pos + |ChunkBytes(read.value)|, payloadEnd);
      if more.Ok? {
        ConsExactly(read.value, more.value, c, rest);
      }
    }
  }

  // ----- Block header

  function OptionAt(body: seq<byte>, pos: nat, present: bool): Result<(Option<nat>, nat), ArchiveError> {
    if present then
      var (v, end) :- Vli.ReadVli(body, pos);
      Ok((Some(v), end))
    else Ok((None, pos))
  }

  function FilterAt(body: seq<byte>, pos: nat): (r: Result<(Filter, nat), ArchiveError>) {
    var (id, p1) :- Vli.ReadVli(body, pos);
    var (size, p2) :- Vli.ReadVli(body, p1);
    if p2 + size > |body| then Err(PropertiesExceedHeader)
    else Ok((Filter(id, body[p2..p2 + size]), p2 + size))
  }

  function LastFilter(f: Filter): (r: Result<(), ArchiveError>)
    ensures r.Ok? <==> LastFilterOk(f)
  {
    if f.id != LZMA2 || |f.props| != 1 || f.props[0] > 40 then Err(NotLzma2)
    else if DictionarySize(f.props[0]).value > MAX_DICTIONARY_BYTES then Err(DictionaryLimit)
    else Ok(())
  }

  function FiltersAt(body: seq<byte>, pos: nat, count: nat): Result<(seq<Filter>, nat), ArchiveError>
    requires count > 0
    decreases count
  {
    var (f, next) :- FilterAt(body, pos);
    if count == 1 then
      var _ :- LastFilter(f);
      Ok(([f], next))
    else
      var (rest, end) :- FiltersAt(body, next, count - 1);
      Ok(([f] + rest, end))
  }

  /** The fields after the size byte and the flags byte, and where they end. */
  function FieldsAt(body: seq<byte>): (r: Result<(Fields, nat), ArchiveError>)
    requires |body| >= 2
  {
    var flags := body[1];
    if flags / 4 % 16 != 0 then Err(ReservedFlags)
    else
      var (compressed, p1) :- OptionAt(body, 2, flags / 64 % 2 == 1);
      var (expanded, p2) :- OptionAt(body, p1, flags / 128 == 1);
      var (filters, end) :- FiltersAt(body, p2, flags % 4 + 1);
      Ok((Fields(compressed, expanded, filters), end))
  }

  function HeaderAt(d: seq<byte>, start: nat, unpadded: nat): Result<Header, ArchiveError> {
    var first :- Slice(d, start, 1);
    var size := (first[0] as int + 1) * 4;
    if first[0] == 0 then Err(ReservedHeaderSize)
    else if size > unpadded then Err(HeaderExceedsRecord)
    else
      var header :- Slice(d, start, size);
      var body := header[..size - 4];
      var (fields, end) :- FieldsAt(body);
      if end <= |body| && !AllZero(body[end..]) then Err(HeaderPadding)
      else Ok(Header(fields, Max(|body| - end, 0), header[size - 4..]))
  }

  lemma OptionExactly(body: seq<byte>, pos: nat, o: Option<nat>, end: nat)
    ensures OptionAt(body, pos, o.Some?) == Ok((o, end))
       <==> OptionOk(o) && (o.Some? ==> At(body, pos, OptionBytes(o))) && end == pos + |OptionBytes(o)|
  {
    if o.Some? {
      Vli.ReadVliExactly(body, pos, o.value, end);
    }
  }

  lemma FilterExactly(body: seq<byte>, pos: nat, f: Filter, end: nat)
    ensures FilterAt(body, pos) == Ok((f, end))
       <==> f.id < Vli.VLI_LIMIT && |f.props| < Vli.VLI_LIMIT
            && At(body, pos, FilterBytes(f)) && end == pos + |FilterBytes(f)|
  {
    hide Vli.ReadVli, Vli.Encode;
    var id, size := Vli.Encode(f.id), Vli.Encode(|f.props|);
    assert FilterBytes(f) == id + (size + f.props);
    AtConcat(body, pos, id, size + f.props);
    AtConcat(body, pos + |id|, size, f.props);
    Vli.ReadVliExactly(body, pos, f.id, pos + |id|);
    Vli.ReadVliExactly(body, pos + |id|, |f.props|, pos + |id| + |size|);
    if FilterAt(body, pos) == Ok((f, end)) {
      var (v, p1) := Vli.ReadVli(body, pos).value;
      Vli.ReadVliExactly(body, pos, v, p1);
      var (w, p2) := Vli.ReadVli(body, p1).value;
      Vli.ReadVliExactly(body, p1, w, p2);
    }
  }

  lemma FirstFilter(body: seq<byte>, pos: nat, count: nat, f: Filter, rest: seq<Filter>, end: nat)
    requires count > 0
    ensures FiltersAt(body, pos, count) == Ok(([f] + rest, end))
       <==> var read := FilterAt(body, pos);
            && read.Ok? && read.value.0 == f
            && if count == 1 then rest == [] && LastFilterOk(f) && end == read.value.1
               else FiltersAt(body, read.value.1, count - 1) == Ok((rest, end))
  {
    hide FilterAt, LastFilter;
    var read := FilterAt(body, pos);
    if read.Ok? {
      var (g, p) := read.value;
      if count == 1 {
        ConsExactly(g, [], f, rest);
        assert [g] + [] == [g];
      } else if FiltersAt(body, p, count - 1).Ok? {
        ConsExactly(g, FiltersAt(body, p, count - 1).value.0, f, rest);
      }
    }
  }

  lemma FiltersOkCons(f: Filter, rest: seq<Filter>)
    ensures FiltersOk([f] + rest)
       <==> f.id < Vli.VLI_LIMIT && |f.props| < Vli.VLI_LIMIT
            && if rest == [] then LastFilterOk(f) else FiltersOk(rest)
  {
    hide LastFilterOk;
    var fs := [f] + rest;
    assert fs[0] == f && fs[1..] == rest;
    assert forall i | 0 <= i < |rest| :: rest[i] == fs[i + 1];
  }

  lemma {:induction false} FiltersExactly(body: seq<byte>, pos: nat, count: nat, fs: seq<Filter>, end: nat)
    requires count > 0
    ensures FiltersAt(body, pos, count) == Ok((fs, end))
       <==> |fs| == count && FiltersOk(fs)
            && At(body, pos, FiltersBytes(fs)) && end == pos + |FiltersBytes(fs)|
    decreases count
  {
    hide FilterAt, FilterBytes, LastFilterOk, FiltersAt, FiltersOk;
    if fs == [] {
      NoFilters(body, pos, count);
      return;
    }
    var f, rest := fs[0], fs[1..];
    assert fs == [f] + rest;
    FirstFilter(body, pos, count, f, rest, end);
    FiltersOkCons(f, rest);
    AtConcat(body, pos, FilterBytes(f), FiltersBytes(rest));
    FilterExactly(body, pos, f, pos + |FilterBytes(f)|);
    if FilterAt(body, pos).Ok? {
      var (g, p) := FilterAt(body, pos).value;
      FilterExactly(body, pos, g, p);
    }
    if count > 1 {
      FiltersExactly(body, pos + |FilterBytes(f)|, count - 1, rest, end);
    }
  }

  lemma NoFilters(body: seq<byte>, pos: nat, count: nat)
    requires count > 0
    ensures FiltersAt(body, pos, count).Ok? ==> FiltersAt(body, pos, count).value.0 != []
    ensures !FiltersOk([])
  {
    hide FilterAt, LastFilter;
  }

  lemma FlagBits(flags: byte, f: Fields)
    requires 1 <= |f.filters| <= 4
    ensures flags == Flags(f)
       <==> flags / 4 % 16 == 0 && flags % 4 + 1 == |f.filters|
            && (flags / 64 % 2 == 1) == f.compressed.Some? && (flags / 128 == 1) == f.expanded.Some?
  {
  }

  lemma OptionStands(body: seq<byte>, pos: nat, o: Option<nat>, end: nat)
    requires OptionAt(body, pos, o.Some?) == Ok((o, end)) && end <= |body|
    ensures At(body, pos, OptionBytes(o)) && OptionOk(o) && end == pos + |OptionBytes(o)|
  {
    hide Vli.ReadVli, Vli.Encode;
    OptionExactly(body, pos, o, end);
  }

  lemma FieldsSound(body: seq<byte>, f: Fields, end: nat)
    requires |body| >= 2 && FieldsAt(body) == Ok((f, end))
    ensures FieldsOk(f) && body[1] == Flags(f) && At(body, 2, FieldsBytes(f)) && end == 2 + |FieldsBytes(f)|
  {
    hide FiltersAt, FiltersBytes, LastFilterOk, FiltersOk, Vli.ReadVli, Vli.Encode, Flags, At,
      OptionBytes, OptionAt, OptionOk;
    var flags := body[1];
    var (c, p) := OptionAt(body, 2, flags / 64 % 2 == 1).value;
    var (e, p') := OptionAt(body, p, flags / 128 == 1).value;
    OptionIs(body, 2, flags / 64 % 2 == 1);
    OptionIs(body, p, flags / 128 == 1);
    FiltersExactly(body, p', flags % 4 + 1, f.filters, end);
    var filters := FiltersAt(body, p', flags % 4 + 1);
    assert filters.Ok? && filters.value.0 == f.filters && filters.value.1 == end;
    AtBound(body, p', FiltersBytes(f.filters));
    OptionStands(body, p, e, p');
    OptionStands(body, 2, c, p);
    FlagBits(flags, f);
    assert FieldsBytes(f) == OptionBytes(c) + (OptionBytes(e) + FiltersBytes(f.filters));
    AtConcat(body, 2, OptionBytes(c), OptionBytes(e) + FiltersBytes(f.filters));
    AtConcat(body, p, OptionBytes(e), FiltersBytes(f.filters));
  }

  lemma OptionIs(body: seq<byte>, pos: nat, present: bool)
    ensures OptionAt(body, pos, present).Ok? ==>
              OptionAt(body, pos, present).value.0.Some? == present && OptionAt(body, pos, present).value.1 >= pos
  {
    hide Vli.ReadVli;
    if OptionAt(body, pos, present).Ok? {
      var (o, end) := OptionAt(body, pos, present).value;
      OptionExactly(body, pos, o, end);
    }
  }

  lemma FieldsComplete(body: seq<byte>, f: Fields)
    requires |body| >= 2 && FieldsOk(f) && body[1] == Flags(f) && At(body, 2, FieldsBytes(f))
    ensures FieldsAt(body) == Ok((f, 2 + |FieldsBytes(f)|))
  {
    hide FiltersAt, FiltersBytes, Vli.ReadVli, Vli.Encode, Flags, At;
    var c, e, fs := OptionBytes(f.compressed), OptionBytes(f.expanded), FiltersBytes(f.filters);
    AtConcat(body, 2, c, e + fs);
    AtConcat(body, 2 + |c|, e, fs);
    FlagBits(body[1], f);
    OptionExactly(body, 2, f.compressed, 2 + |c|);
    OptionExactly(body, 2 + |c|, f.expanded, 2 + |c| + |e|);
    FiltersExactly(body, 2 + |c| + |e|, body[1] % 4 + 1, f.filters, 2 + |FieldsBytes(f)|);
  }

  /** A header is read exactly when it stands there, whole, within the size its record lists. */
  lemma HeaderExactly(d: seq<byte>, start: nat, unpadded: nat, h: Header)
    ensures HeaderAt(d, start, unpadded) == Ok(h)
       <==> HeaderOk(h) && At(d, start, HeaderBytes(h)) && HeaderSize(h) <= unpadded
  {
    if HeaderAt(d, start, unpadded) == Ok(h) {
      HeaderSound(d, start, unpadded, h);
    }
    if HeaderOk(h) && At(d, start, HeaderBytes(h)) && HeaderSize(h) <= unpadded {
      HeaderComplete(d, start, unpadded, h);
    }
  }

  /** What an accepted header was read as. */
  lemma HeaderRead(d: seq<byte>, start: nat, unpadded: nat, h: Header) returns (header: seq<byte>, end: nat)
    requires HeaderAt(d, start, unpadded) == Ok(h)
    ensures start + |header| <= |d| && header == d[start..start + |header|] && |header| <= unpadded
    ensures 8 <= |header| == (header[0] as int + 1) * 4
    ensures FieldsAt(header[..|header| - 4]) == Ok((h.fields, end))
    ensures end <= |header| - 4 ==> AllZero(header[end..|header| - 4])
    ensures h == Header(h.fields, Max(|header| - 4 - end, 0), header[|header| - 4..])
  {
    hide FieldsAt, AllZero;
    var size := (d[start] as int + 1) * 4;
    assert Slice(d, start, 1).value[0] == d[start];
    header := d[start..start + size];
    end := FieldsAt(header[..size - 4]).value.1;
    assert end <= size - 4 ==> header[..size - 4][end..] == header[end..size - 4];
  }

  lemma HeaderSound(d: seq<byte>, start: nat, unpadded: nat, h: Header)
    requires HeaderAt(d, start, unpadded) == Ok(h)
    ensures HeaderOk(h) && At(d, start, HeaderBytes(h)) && HeaderSize(h) <= unpadded
  {
    hide HeaderAt, FieldsAt, FieldsBytes, OptionOk, LastFilterOk, Flags, Zeros, HeaderBytes, AllZero;
    var header, end := HeaderRead(d, start, unpadded, h);
    var body := header[..|header| - 4];
    FieldsSound(body, h.fields, end);
    AtIs(body, 2, FieldsBytes(h.fields));
    assert body[2..end] == header[2..end] && body[1] == header[1];
    AllZeroIsZeros(header[end..|header| - 4]);
    assert header[..2] == [HeaderSize(h) / 4 - 1, Flags(h.fields)];
    HeaderAssembled(header, h, end);
  }

  lemma HeaderAssembled(header: seq<byte>, h: Header, end: nat)
    requires HeaderOk(h) && |header| == HeaderSize(h) && end == 2 + |FieldsBytes(h.fields)| <= |header| - 4
    requires header[..2] == [HeaderSize(h) / 4 - 1, Flags(h.fields)]
    requires header[2..end] == FieldsBytes(h.fields)
    requires header[end..|header| - 4] == Zeros(h.padding) && header[|header| - 4..] == h.crc
    ensures header == HeaderBytes(h)
  {
    hide FieldsBytes, FieldsOk, Flags, Zeros;
    assert header == header[..2] + (header[2..end] + (header[end..|header| - 4] + header[|header| - 4..]));
  }

  lemma HeaderComplete(d: seq<byte>, start: nat, unpadded: nat, h: Header)
    requires HeaderOk(h) && At(d, start, HeaderBytes(h)) && HeaderSize(h) <= unpadded
    ensures HeaderAt(d, start, unpadded) == Ok(h)
  {
    hide FieldsAt, FieldsOk, FieldsBytes, Flags;
    var header, size := HeaderBytes(h), HeaderSize(h);
    FirstByte(d, start, header);
    assert d[start..start + size] == header;
    var body, fields := header[..size - 4], FieldsBytes(h.fields);
    assert body == header[..2] + (fields + Zeros(h.padding));
    assert body[2..2 + |fields|] == fields;
    assert body[2 + |fields|..] == Zeros(h.padding);
    FieldsComplete(body, h.fields);
    assert header[size - 4..] == h.crc;
  }

  // ----- Blocks, index and stream

  function CoreAt(d: seq<byte>, start: nat, unpadded: nat): (r: Result<Core, ArchiveError>) {
    var h :- HeaderAt(d, start, unpadded);
    var chunks :- ChunksAt(d, start + HeaderSize(h), Max(start + unpadded - 8, 0));
    Ok(Core(h, chunks))
  }

  lemma CoreExactly(d: seq<byte>, start: nat, unpadded: nat, c: Core)
    ensures CoreAt(d, start, unpadded) == Ok(c)
       <==> CoreOk(c) && At(d, start, CoreBytes(c)) && unpadded == Unpadded(c)
  {
    hide HeaderAt, ChunksAt, HeaderOk, ChunksOk, At;
    HeaderExactly(d, start, unpadded, c.header);
    if HeaderOk(c.header) {
      ChunksExactly(d, start + HeaderSize(c.header), Max(start + unpadded - 8, 0), c.chunks);
      if ChunksOk(c.chunks) {
        AtConcat(d, start, HeaderBytes(c.header), PayloadBytes(c.chunks));
      }
    }
  }

  datatype Listing = Listing(records: seq<Record>, position: nat, blockPosition: nat)

  /** The blocks an index lists, each checked where the one before it ends. */
  function RecordsAt(d: seq<byte>, index: seq<byte>, count: nat, position: nat, blockPosition: nat)
    : Result<Listing, ArchiveError>
  {
    if count == 0 then Ok(Listing([], position, blockPosition))
    else
      var (unpadded, p1) :- Vli.ReadVli(index, position);
      var (listed, p2) :- Vli.ReadVli(index, p1);
      var core :- CoreAt(d, blockPosition, unpadded);
      var rest :- RecordsAt(d, index, count - 1, p2, blockPosition + RoundUp4(unpadded));
      Ok(rest.(records := [Record(core, listed)] + rest.records))
  }

  /** The cores stand one after another, each rounded up to four bytes, from `bp` on. */
  predicate CoresStand(d: seq<byte>, bp: nat, rs: seq<Record>)
    requires RecordsOk(rs)
    decreases |rs|
  {
    rs == [] || (At(d, bp, CoreBytes(rs[0].core)) && CoresStand(d, bp + RoundUp4(Unpadded(rs[0].core)), rs[1..]))
  }

  function End(bp: nat, rs: seq<Record>): (e: nat)
    requires RecordsOk(rs)
    ensures e >= bp
    decreases |rs|
  {
    if rs == [] then bp else End(bp + RoundUp4(Unpadded(rs[0].core)), rs[1..])
  }

  lemma RecordsOkCons(r: Record, rest: seq<Record>)
    ensures RecordsOk([r] + rest) <==> RecordOk(r) && RecordsOk(rest)
  {
    hide RecordOk;
    var rs := [r] + rest;
    assert rs[0] == r && forall i | 0 <= i < |rest| :: rs[i + 1] == rest[i];
  }

  lemma {:induction false} RecordsSound(d: seq<byte>, index: seq<byte>, count: nat, position: nat, bp: nat)
    requires position <= |index| && RecordsAt(d, index, count, position, bp).Ok?
    ensures var l := RecordsAt(d, index, count, position, bp).value;
      && |l.records| == count && RecordsOk(l.records)
      && At(index, position, RecordsBytes(l.records)) && l.position == position + |RecordsBytes(l.records)|
      && CoresStand(d, bp, l.records) && l.blockPosition == End(bp, l.records)
    decreases count
  {
    hide Vli.ReadVli, Vli.Encode, CoreAt, CoreBytes, CoreOk, At;
    assert At(index, position, []) by {
      AtEmpty(index, position);
    }
    if count > 0 {
      var (unpadded, p1) := Vli.ReadVli(index, position).value;
      Vli.ReadVliExactly(index, position, unpadded, p1);
      var (listed, p2) := Vli.ReadVli(index, p1).value;
      Vli.ReadVliExactly(index, p1, listed, p2);
      var core := CoreAt(d, bp, unpadded).value;
      CoreExactly(d, bp, unpadded, core);
      AtBound(index, p1, Vli.Encode(listed));
      RecordsSound(d, index, count - 1, p2, bp + RoundUp4(unpadded));
      var rest := RecordsAt(d, index, count - 1, p2, bp + RoundUp4(unpadded)).value.records;
      RecordsOkCons(Record(core, listed), rest);
      RecordBytesAt(index, position, Record(core, listed), rest);
    }
  }

  lemma AtEmpty(d: seq<byte>, pos: nat)
    ensures At(d, pos, []) <==> pos <= |d|
  {
  }

  lemma AtIs(d: seq<byte>, pos: nat, s: seq<byte>)
    requires At(d, pos, s)
    ensures pos + |s| <= |d| && d[pos..pos + |s|] == s
  {
  }

  lemma AtSlice(d: seq<byte>, lo: nat, hi: nat)
    requires lo <= hi <= |d|
    ensures At(d, lo, d[lo..hi])
  {
  }

  lemma AtBound(d: seq<byte>, pos: nat, s: seq<byte>)
    requires At(d, pos, s)
    ensures pos + |s| <= |d|
  {
  }

  lemma RecordBytesAt(index: seq<byte>, position: nat, r: Record, rest: seq<Record>)
    requires RecordsOk([r] + rest) && RecordsOk(rest) && RecordOk(r)
    ensures var (u, l) := (Vli.Encode(Unpadded(r.core)), Vli.Encode(r.listed));
      && |RecordsBytes([r] + rest)| == |u| + |l| + |RecordsBytes(rest)|
      && (At(index, position, RecordsBytes([r] + rest))
         <==> At(index, position, u) && At(index, position + |u|, l)
              && At(index, position + |u| + |l|, RecordsBytes(rest)))
  {
    hide At, CoreBytes;
    var (u, l) := (Vli.Encode(Unpadded(r.core)), Vli.Encode(r.listed));
    var rs := [r] + rest;
    assert rs[0] == r && rs[1..] == rest;
    assert RecordsBytes(rs) == u + l + RecordsBytes(rest);
    AtConcat(index, position, u + l, RecordsBytes(rest));
    AtConcat(index, position, u, l);
  }

  lemma {:induction false} RecordsComplete(d: seq<byte>, index: seq<byte>, position: nat, bp: nat, rs: seq<Record>)
    requires RecordsOk(rs) && At(index, position, RecordsBytes(rs)) && CoresStand(d, bp, rs)
    ensures RecordsAt(d, index, |rs|, position, bp)
         == Ok(Listing(rs, position + |RecordsBytes(rs)|, End(bp, rs)))
    decreases |rs|
  {
    hide Vli.ReadVli, Vli.Encode, CoreAt, CoreBytes, CoreOk, At;
    if rs != [] {
      var r, rest := rs[0], rs[1..];
      assert rs == [r] + rest;
      RecordsOkCons(r, rest);
      RecordBytesAt(index, position, r, rest);
      var (u, l) := (Vli.Encode(Unpadded(r.core)), Vli.Encode(r.listed));
      Vli.ReadVliExactly(index, position, Unpadded(r.core), position + |u|);
      Vli.ReadVliExactly(index, position + |u|, r.listed, position + |u| + |l|);
      CoreExactly(d, bp, Unpadded(r.core), r.core);
      RecordsComplete(d, index, position + |u| + |l|, bp + RoundUp4(Unpadded(r.core)), rest);
    }
  }

  /** One record: its core ends within its block, and the blocks of the rest begin where that ends. */
  lemma EndStep(bp: nat, rs: seq<Record>)
    requires RecordsOk(rs) && rs != []
    ensures RecordOk(rs[0]) && RecordsOk(rs[1..])
    ensures var next := bp + RoundUp4(Unpadded(rs[0].core));
      bp + |CoreBytes(rs[0].core)| <= next <= End(next, rs[1..]) == End(bp, rs)
  {
    hide CoreBytes, CoreOk, RoundUp4;
  }

  /** The whole block of a record: its core with the bytes up to the next block. */
  function WholeBlock(d: seq<byte>, bp: nat, r: Record): (b: Block)
    requires RecordOk(r)
    ensures b.record == r
    ensures bp + RoundUp4(Unpadded(r.core)) <= |d| ==> BlockOk(b)
  {
    hide CoreBytes, CoreOk;
    var next := bp + RoundUp4(Unpadded(r.core));
    Block(r, if next <= |d| then d[bp + |CoreBytes(r.core)|..next] else [])
  }

  function BlocksIn(d: seq<byte>, bp: nat, rs: seq<Record>): (bs: seq<Block>)
    requires RecordsOk(rs)
    decreases |rs|
  {
    hide CoreBytes, CoreOk, RoundUp4;
    if rs == [] then []
    else [WholeBlock(d, bp, rs[0])] + BlocksIn(d, bp + RoundUp4(Unpadded(rs[0].core)), rs[1..])
  }

  lemma {:induction false} BlocksInOk(d: seq<byte>, bp: nat, rs: seq<Record>)
    requires RecordsOk(rs) && End(bp, rs) <= |d|
    ensures BlocksOk(BlocksIn(d, bp, rs)) && Records(BlocksIn(d, bp, rs)) == rs
    decreases |rs|
  {
    hide CoreBytes, CoreOk, RoundUp4, End, WholeBlock, BlocksIn, BlocksOk, Records;
    if rs == [] {
      NoBlocksIn(d, bp);
    } else {
      var next := bp + RoundUp4(Unpadded(rs[0].core));
      BlocksInStep(d, bp, rs);
      BlocksInOk(d, next, rs[1..]);
      OneBlockMore(WholeBlock(d, bp, rs[0]), BlocksIn(d, next, rs[1..]));
      assert rs == [rs[0]] + rs[1..];
    }
  }

  lemma NoBlocksIn(d: seq<byte>, bp: nat)
    ensures BlocksOk(BlocksIn(d, bp, [])) && Records(BlocksIn(d, bp, [])) == []
  {
  }

  lemma OneBlockMore(b: Block, rest: seq<Block>)
    requires BlockOk(b) && BlocksOk(rest)
    ensures BlocksOk([b] + rest) && Records([b] + rest) == [b.record] + Records(rest)
  {
    hide BlockOk;
    assert ([b] + rest)[1..] == rest;
  }

  lemma {:induction false} BlocksStand(d: seq<byte>, bp: nat, rs: seq<Record>)
    requires RecordsOk(rs) && End(bp, rs) <= |d| && CoresStand(d, bp, rs)
    ensures BlocksOk(BlocksIn(d, bp, rs))
    ensures At(d, bp, BlocksBytes(BlocksIn(d, bp, rs))) && bp + |BlocksBytes(BlocksIn(d, bp, rs))| == End(bp, rs)
    decreases |rs|
  {
    hide CoreBytes, CoreOk, RoundUp4, End, RecordsOk, At, BlocksIn, WholeBlock, BlocksBytes, CoresStand, BlocksOk;
    BlocksInOk(d, bp, rs);
    if rs == [] {
      NoBlocks(d, bp);
      AtEmpty(d, bp);
    } else {
      BlocksInStep(d, bp, rs);
      CoresStandStep(d, bp, rs);
      BlocksStand(d, bp + RoundUp4(Unpadded(rs[0].core)), rs[1..]);
      WholeStands(d, bp, rs[0]);
      var bs := BlocksIn(d, bp, rs);
      BlocksBytesStep(bs);
      AtConcat(d, bp, CoreBytes(rs[0].core) + bs[0].trailer, BlocksBytes(bs[1..]));
    }
  }

  lemma WholeStands(d: seq<byte>, bp: nat, r: Record)
    requires RecordOk(r) && bp + RoundUp4(Unpadded(r.core)) <= |d| && At(d, bp, CoreBytes(r.core))
    ensures var whole := CoreBytes(r.core) + WholeBlock(d, bp, r).trailer;
      At(d, bp, whole) && |whole| == RoundUp4(Unpadded(r.core))
  {
    hide CoreBytes, CoreOk, At;
    var core := CoreBytes(r.core);
    AtConcat(d, bp, core, WholeBlock(d, bp, r).trailer);
    AtSlice(d, bp + |core|, bp + RoundUp4(Unpadded(r.core)));
  }

  lemma BlocksBytesStep(bs: seq<Block>)
    requires BlocksOk(bs) && bs != []
    ensures CoreOk(bs[0].record.core) && BlocksOk(bs[1..])
    ensures BlocksBytes(bs) == CoreBytes(bs[0].record.core) + bs[0].trailer + BlocksBytes(bs[1..])
  {
    hide CoreBytes, CoreOk;
    assert BlockOk(bs[0]);
  }

  /** One block: its core and trailer stand, and the rest of the blocks after them. */
  lemma StandingStep(d: seq<byte>, bp: nat, bs: seq<Block>)
    requires BlocksOk(bs) && bs != [] && At(d, bp, BlocksBytes(bs))
    ensures CoreOk(bs[0].record.core)
    ensures var (core, next) := (CoreBytes(bs[0].record.core), bp + RoundUp4(Unpadded(bs[0].record.core)));
      && BlockOk(bs[0]) && BlocksOk(bs[1..]) && At(d, bp, core) && At(d, bp + |core|, bs[0].trailer)
      && next == bp + |core| + |bs[0].trailer| && At(d, next, BlocksBytes(bs[1..]))
      && |BlocksBytes(bs)| == |core| + |bs[0].trailer| + |BlocksBytes(bs[1..])|
  {
    hide CoreBytes, CoreOk, At;
    var b, rest := bs[0], bs[1..];
    assert BlockOk(b);
    var core := CoreBytes(b.record.core);
    AtConcat(d, bp, core + b.trailer, BlocksBytes(rest));
    AtConcat(d, bp, core, b.trailer);
  }

  lemma RecordsStep(bs: seq<Block>)
    requires BlocksOk(bs) && bs != []
    ensures RecordsOk(Records(bs)) && BlocksOk(bs[1..])
    ensures Records(bs)[0] == bs[0].record && Records(bs)[1..] == Records(bs[1..])
  {
    hide CoreBytes, CoreOk;
  }

  /** The first block and the rest of them. */
  lemma BlocksInStep(d: seq<byte>, bp: nat, rs: seq<Record>)
    requires RecordsOk(rs) && rs != [] && End(bp, rs) <= |d|
    ensures RecordOk(rs[0]) && RecordsOk(rs[1..])
    ensures var next := bp + RoundUp4(Unpadded(rs[0].core));
      && next <= End(next, rs[1..]) == End(bp, rs)
      && BlocksIn(d, bp, rs) == [WholeBlock(d, bp, rs[0])] + BlocksIn(d, next, rs[1..])
  {
    hide CoreBytes, CoreOk, RoundUp4, End, RecordsOk, RecordOk, Unpadded, WholeBlock;
    EndStep(bp, rs);
  }

  lemma WholeBlockIs(d: seq<byte>, bp: nat, b: Block)
    requires BlockOk(b) && bp + RoundUp4(Unpadded(b.record.core)) <= |d|
    requires At(d, bp + |CoreBytes(b.record.core)|, b.trailer)
    ensures WholeBlock(d, bp, b.record) == b
  {
    hide CoreBytes, CoreOk;
  }

  lemma CoresStandStep(d: seq<byte>, bp: nat, rs: seq<Record>)
    requires RecordsOk(rs) && rs != [] && RecordOk(rs[0]) && RecordsOk(rs[1..])
    ensures CoresStand(d, bp, rs)
       <==> At(d, bp, CoreBytes(rs[0].core)) && CoresStand(d, bp + RoundUp4(Unpadded(rs[0].core)), rs[1..])
  {
    hide CoreBytes, RoundUp4, Unpadded, At;
  }

  lemma NoBlocks(d: seq<byte>, bp: nat)
    ensures Records([]) == [] && BlocksBytes([]) == [] && CoresStand(d, bp, []) && End(bp, []) == bp
    ensures BlocksIn(d, bp, []) == []
  {
  }

  lemma {:induction false} StandingRecords(d: seq<byte>, bp: nat, bs: seq<Block>)
    requires BlocksOk(bs) && At(d, bp, BlocksBytes(bs))
    ensures CoresStand(d, bp, Records(bs)) && End(bp, Records(bs)) == bp + |BlocksBytes(bs)| <= |d|
    decreases |bs|
  {
    hide *;
    AtBound(d, bp, BlocksBytes(bs));
    if bs == [] {
      NoBlocks(d, bp);
    } else {
      StandingStep(d, bp, bs);
      RecordsStep(bs);
      StandingRecords(d, bp + RoundUp4(Unpadded(bs[0].record.core)), bs[1..]);
      EndStep(bp, Records(bs));
      CoresStandStep(d, bp, Records(bs));
    }
  }

  lemma {:induction false} StandingBlocks(d: seq<byte>, bp: nat, bs: seq<Block>)
    requires BlocksOk(bs) && At(d, bp, BlocksBytes(bs))
    ensures CoresStand(d, bp, Records(bs)) && End(bp, Records(bs)) == bp + |BlocksBytes(bs)| <= |d|
    ensures BlocksIn(d, bp, Records(bs)) == bs
    decreases |bs|
  {
    hide *;
    StandingRecords(d, bp, bs);
    if bs == [] {
      NoBlocks(d, bp);
    } else {
      StandingStep(d, bp, bs);
      RecordsStep(bs);
      WholeBlockIs(d, bp, bs[0]);
      StandingBlocks(d, bp + RoundUp4(Unpadded(bs[0].record.core)), bs[1..]);
      BlocksInStep(d, bp, Records(bs));
      assert bs == [bs[0]] + bs[1..];
    }
  }

  predicate Envelope(header: seq<byte>, footer: seq<byte>)
    requires |header| == 12 && |footer| == 12
  {
    header[..8] == STREAM_MAGIC && footer[8..] == FOOTER_MAGIC
  }

  function StreamIn(d: seq<byte>): Result<Stream, ArchiveError> {
    var size := |d|;
    if size < 24 then Err(Truncated)
    else
      var (header, footer) := (d[..12], d[size - 12..]);
      var indexSize := (FromLe32(footer[4..8]) + 1) * 4;
      if !Envelope(header, footer) then Err(BadEnvelope)
      else if indexSize > MAX_INDEX_BYTES || indexSize > size - 24 then Err(IndexLimit)
      else
        var index := d[size - 12 - indexSize..size - 12];
        IndexIn(d, header[8..], index, footer[..4])
  }

  function IndexIn(d: seq<byte>, headerCrc: seq<byte>, index: seq<byte>, footerCrc: seq<byte>)
    : Result<Stream, ArchiveError>
    requires 4 <= |index| <= |d| - 24
  {
    if index[0] != 0 then Err(BadIndex)
    else
      var (count, position) :- Vli.ReadVli(index, 1);
      if count > MAX_BLOCKS then Err(BlockLimit)
      else
        var l :- RecordsAt(d, index, count, position, 12);
        Vli.ReadVliExactly(index, 1, count, position);
        RecordsSound(d, index, count, position, 12);
        if l.blockPosition != |d| - 12 - |index| || l.position > |index| - 4
           || !AllZero(index[l.position..|index| - 4]) then Err(IndexDoesNotSpan)
        else Ok(Stream(headerCrc, BlocksIn(d, 12, l.records), |index| - 4 - l.position,
                       index[|index| - 4..], footerCrc))
  }

  /** What an accepted index was read as. */
  lemma IndexRead(d: seq<byte>, headerCrc: seq<byte>, index: seq<byte>, footerCrc: seq<byte>)
    returns (count: nat, position: nat, l: Listing)
    requires 4 <= |index| <= |d| - 24 && IndexIn(d, headerCrc, index, footerCrc).Ok?
    ensures index[0] == 0 && Vli.ReadVli(index, 1) == Ok((count, position)) && count <= MAX_BLOCKS
    ensures At(index, 1, Vli.Encode(count)) && position == 1 + |Vli.Encode(count)| <= |index|
    ensures RecordsAt(d, index, count, position, 12) == Ok(l) && l.blockPosition == |d| - 12 - |index|
    ensures position <= l.position <= |index| - 4 && AllZero(index[l.position..|index| - 4])
    ensures RecordsOk(l.records) && End(12, l.records) == l.blockPosition && |l.records| == count
    ensures CoresStand(d, 12, l.records) && At(index, position, RecordsBytes(l.records))
    ensures l.position == position + |RecordsBytes(l.records)|
    ensures IndexIn(d, headerCrc, index, footerCrc)
         == Ok(Stream(headerCrc, BlocksIn(d, 12, l.records), |index| - 4 - l.position, index[|index| - 4..], footerCrc))
  {
    hide Vli.ReadVli, Vli.Encode, RecordsAt, RecordsBytes, RecordOk, CoresStand, At, BlocksIn, AllZero;
    count, position := Vli.ReadVli(index, 1).value.0, Vli.ReadVli(index, 1).value.1;
    Vli.ReadVliExactly(index, 1, count, position);
    AtBound(index, 1, Vli.Encode(count));
    RecordsSound(d, index, count, position, 12);
    l := RecordsAt(d, index, count, position, 12).value;
  }

  lemma IndexSound(d: seq<byte>, headerCrc: seq<byte>, index: seq<byte>, footerCrc: seq<byte>)
    requires 4 <= |index| <= |d| - 24 && IndexIn(d, headerCrc, index, footerCrc).Ok?
    ensures var s := IndexIn(d, headerCrc, index, footerCrc).value;
      && s.headerCrc == headerCrc && s.footerCrc == footerCrc && |s.indexCrc| == 4
      && BlocksOk(s.blocks) && |s.blocks| <= MAX_BLOCKS
      && index == IndexBytes(s)
      && 12 + |BlocksBytes(s.blocks)| == |d| - 12 - |index| && At(d, 12, BlocksBytes(s.blocks))
  {
    hide Vli.ReadVli, Vli.Encode, RecordsAt, RecordsBytes, BlocksBytes, RecordOk, CoresStand, IndexIn, BlocksIn,
      At, End,
      BlockOk, CoreOk, CoreBytes, BlocksOk, RecordsOk, Records;
    var count, position, l := IndexRead(d, headerCrc, index, footerCrc);
    BlocksInOk(d, 12, l.records);
    BlocksStand(d, 12, l.records);
    var zeros := index[l.position..|index| - 4];
    AllZeroIsZeros(zeros);
    AtIs(index, 1, Vli.Encode(count));
    AtIs(index, position, RecordsBytes(l.records));
    SplitIndex(index, position, l.position);
  }

  lemma SplitIndex(index: seq<byte>, p: nat, q: nat)
    requires 1 <= p <= q <= |index| - 4 && index[0] == 0
    ensures index == [0] + index[1..p] + index[p..q] + index[q..|index| - 4] + index[|index| - 4..]
  {
    assert index[..1] == [0];
  }

  lemma IndexAssembled(s: Stream)
    requires BlocksOk(s.blocks)
    ensures IndexBytes(s) == [0] + (Vli.Encode(|s.blocks|) + (RecordsBytes(Records(s.blocks))
                             + (Zeros(s.indexPadding) + s.indexCrc)))
  {
    hide Vli.Encode, RecordsBytes, Records, BlocksOk, Zeros;
  }

  /** Where the parts of an assembled index stand. */
  lemma IndexParts(s: Stream)
    requires StreamOk(s)
    ensures var index, count, records := IndexBytes(s), Vli.Encode(|s.blocks|), RecordsBytes(Records(s.blocks));
      var end := 1 + |count| + |records|;
      && |index| == end + s.indexPadding + 4 && index[0] == 0
      && At(index, 1, count) && At(index, 1 + |count|, records)
      && index[end..|index| - 4] == Zeros(s.indexPadding) && index[|index| - 4..] == s.indexCrc
  {
    hide Vli.Encode, RecordsBytes, BlocksBytes, BlockOk, RecordOk, Records, IndexBytes, At;
    var index, count, records := IndexBytes(s), Vli.Encode(|s.blocks|), RecordsBytes(Records(s.blocks));
    var tail := Zeros(s.indexPadding) + s.indexCrc;
    var end := 1 + |count| + |records|;
    IndexAssembled(s);
    assert At(index, 0, index) by {
      AtSlice(index, 0, |index|);
      assert index[0..|index|] == index;
    }
    AtConcat(index, 0, [0], count + (records + tail));
    AtConcat(index, 1, count, records + tail);
    AtConcat(index, 1 + |count|, records, tail);
    AtConcat(index, end, Zeros(s.indexPadding), s.indexCrc);
    AtIs(index, end, Zeros(s.indexPadding));
    AtIs(index, end + s.indexPadding, s.indexCrc);
  }

  lemma IndexComplete(d: seq<byte>, s: Stream)
    requires StreamOk(s) && 24 + |BlocksBytes(s.blocks)| + |IndexBytes(s)| == |d|
    requires At(d, 12, BlocksBytes(s.blocks))
    ensures |IndexBytes(s)| >= 4 && IndexIn(d, s.headerCrc, IndexBytes(s), s.footerCrc) == Ok(s)
  {
    hide Vli.ReadVli, Vli.Encode, RecordsAt, RecordsBytes, BlocksBytes, RecordOk, CoresStand, IndexBytes, At, BlockOk,
      BlocksOk, RecordsOk, BlocksIn, End, Records;
    IndexParts(s);
    var index, p, rs := IndexBytes(s), 1 + |Vli.Encode(|s.blocks|)|, Records(s.blocks);
    Vli.ReadVliExactly(index, 1, |s.blocks|, p);
    StandingBlocks(d, 12, s.blocks);
    RecordsComplete(d, index, p, 12, rs);
  }

  /** What an accepted stream was read as. */
  lemma StreamRead(d: seq<byte>, s: Stream) returns (header: seq<byte>, index: seq<byte>, footer: seq<byte>)
    requires StreamIn(d) == Ok(s)
    ensures |header| == 12 == |footer| && Envelope(header, footer)
    ensures 4 <= |index| <= MAX_INDEX_BYTES && |index| <= |d| - 24 && |index| == (FromLe32(footer[4..8]) + 1) * 4
    ensures d == header + d[12..|d| - 12 - |index|] + index + footer
    ensures IndexIn(d, header[8..], index, footer[..4]) == Ok(s)
  {
    hide IndexIn, FromLe32;
    var n := |d|;
    var indexSize := (FromLe32(d[n - 12..][4..8]) + 1) * 4;
    header, index, footer := d[..12], d[n - 12 - indexSize..n - 12], d[n - 12..];
  }

  lemma StreamSound(d: seq<byte>, s: Stream)
    requires StreamIn(d) == Ok(s)
    ensures StreamOk(s) && d == StreamBytes(s)
  {
    hide StreamIn, IndexIn, IndexBytes, BlocksBytes, BlocksOk, FromLe32, Le32, At;
    var header, index, footer := StreamRead(d, s);
    IndexSound(d, header[8..], index, footer[..4]);
    AtIs(d, 12, BlocksBytes(s.blocks));
    Le32RoundTrip(footer[4..8], |index| / 4 - 1);
    assert header == STREAM_MAGIC + s.headerCrc;
    assert footer == footer[..4] + footer[4..8] + footer[8..];
  }

  /** The preflight accepts exactly the assembled streams, and each in one way only. */
  lemma StreamExactly(d: seq<byte>, s: Stream)
    ensures StreamIn(d) == Ok(s) <==> StreamOk(s) && d == StreamBytes(s)
  {
    hide StreamIn, StreamOk, StreamBytes;
    if StreamIn(d) == Ok(s) {
      StreamSound(d, s);
    }
    if StreamOk(s) && d == StreamBytes(s) {
      StreamComplete(s);
    }
  }

  lemma IndexLength(s: Stream)
    requires StreamOk(s)
    ensures |IndexBytes(s)| >= 4
  {
  }

  lemma FooterParts(footer: seq<byte>, s: Stream)
    requires StreamOk(s) && footer == FooterBytes(s)
    ensures |footer| == 12 && footer[..4] == s.footerCrc && footer[8..] == FOOTER_MAGIC
    ensures (FromLe32(footer[4..8]) + 1) * 4 == |IndexBytes(s)|
  {
    IndexLength(s);
    hide IndexBytes, BlocksOk;
    var length := Le32(|IndexBytes(s)| / 4 - 1);
    assert footer[4..8] == length;
    Le32RoundTrip(length, |IndexBytes(s)| / 4 - 1);
  }

  lemma StreamComplete(s: Stream)
    requires StreamOk(s)
    ensures StreamIn(StreamBytes(s)) == Ok(s)
  {
    hide IndexIn, IndexBytes, BlocksBytes, BlocksOk, FooterBytes, FromLe32, StreamOk;
    Sizes(s);
    var blocks, index, footer := BlocksBytes(s.blocks), IndexBytes(s), FooterBytes(s);
    FooterParts(footer, s);
    var d := STREAM_MAGIC + s.headerCrc + blocks + index + footer;
    var n := |d|;
    assert d[..12][..8] == STREAM_MAGIC && d[..12][8..] == s.headerCrc;
    assert d[n - 12..] == footer;
    assert d[n - 12 - |index|..n - 12] == index;
    assert d[12..12 + |blocks|] == blocks;
    IndexComplete(d, s);
  }

  lemma Sizes(s: Stream)
    requires StreamOk(s)
    ensures |s.headerCrc| == 4 && |s.footerCrc| == 4 && BlocksOk(s.blocks)
    ensures |IndexBytes(s)| <= MAX_INDEX_BYTES
  {
    hide IndexBytes, BlocksOk;
  }
}
