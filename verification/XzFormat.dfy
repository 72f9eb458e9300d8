/** The streams the XZ preflight is meant to accept, written as an encoder.
    The .xz File Format, sections 2.1 (envelope), 3.1 (block header), 4 (index), 5.3.1 (LZMA2). */
module XzFormat {
  import opened Outcome
  import opened Bytes
  import opened ArchiveFile
  import Vli = XzVli

  const MAX_BLOCKS: nat := 1024
  const MAX_INDEX_BYTES: nat := 32 * 1024
  const MAX_DICTIONARY_BYTES: nat := 64 * 1024 * 1024
  const LZMA2: nat := 0x21

  const STREAM_MAGIC: seq<byte> := [0xfd, 0x37, 0x7a, 0x58, 0x5a, 0, 0, 4]
  const FOOTER_MAGIC: seq<byte> := [0, 4, 0x59, 0x5a]

  function Power2(n: nat): (p: nat)
    ensures p > 0
  {
    if n == 0 then 1 else 2 * Power2(n - 1)
  }

  function DictionarySize(property: nat): (r: Result<nat, ArchiveError>)
    ensures r.Ok? <==> property <= 40
  {
    if property > 40 then Err(NotLzma2)
    else if property == 40 then Ok(0xffff_ffff)
    else Ok((2 + property % 2) * Power2(property / 2 + 11))
  }

  function Be16(n: nat): seq<byte>
    requires n < 0x1_0000
  {
    [n / 256, n % 256]
  }

  function FromBe16(s: seq<byte>): nat
    requires |s| == 2
  {
    var (high: int, low: int) := (s[0], s[1]);
    256 * high + low
  }

  function Le32(n: nat): seq<byte>
    requires n < 0x1_0000_0000
  {
    [n % 256, n / 256 % 256, n / 256 / 256 % 256, n / 256 / 256 / 256]
  }

  function FromLe32(s: seq<byte>): nat
    requires |s| == 4
  {
    var (b0: int, b1: int, b2: int, b3: int) := (s[0], s[1], s[2], s[3]);
    b0 + 256 * (b1 + 256 * (b2 + 256 * b3))
  }

  lemma Le32RoundTrip(s: seq<byte>, n: nat)
    requires |s| == 4
    ensures FromLe32(s) < 0x1_0000_0000
    ensures FromLe32(s) == n <==> n < 0x1_0000_0000 && s == Le32(n)
  {
    var q3: nat := s[3];
    var q2: nat := s[2] + 256 * q3;
    var q1: nat := s[1] + 256 * q2;
    LowByte(s[0], q1, n);
    LowByte(s[1], q2, n / 256);
    LowByte(s[2], q3, n / 256 / 256);
    if n < 0x1_0000_0000 && s == Le32(n) {
      assert s[3] == n / 256 / 256 / 256;
    }
    if FromLe32(s) == n {
      assert s == [s[0], s[1], s[2], s[3]];
    }
  }

  lemma LowByte(low: byte, high: nat, n: nat)
    ensures low + 256 * high == n <==> low == n % 256 && high == n / 256
  {
  }

  function RoundUp4(n: nat): (r: nat)
    ensures n <= r < n + 4 && r % 4 == 0
  {
    (n + 3) / 4 * 4
  }

  // ----- LZMA2 chunks

  datatype Chunk =
    | Copied(control: byte, data: seq<byte>)
    | Packed(control: byte, expanded: seq<byte>, props: seq<byte>, data: seq<byte>)

  predicate ChunkOk(c: Chunk) {
    && 1 <= |c.data| <= 0x1_0000
    && match c
       case Copied(control, _) => control == 1 || control == 2
       case Packed(control, expanded, props, _) =>
         control >= 0x80 && |expanded| == 2 && |props| == if control >= 0xC0 then 1 else 0
  }

  function ChunkHead(c: Chunk): (h: seq<byte>)
    requires ChunkOk(c)
    ensures h != [] && h[0] == c.control
  {
    match c
    case Copied(control, data) => [control] + Be16(|data| - 1)
    case Packed(control, expanded, props, data) => [control] + expanded + Be16(|data| - 1) + props
  }

  function ChunkBytes(c: Chunk): (s: seq<byte>)
    requires ChunkOk(c)
    ensures |s| > 0 && s[0] == c.control
  {
    ChunkHead(c) + c.data
  }

  predicate ChunksOk(cs: seq<Chunk>) {
    forall i | 0 <= i < |cs| :: ChunkOk(cs[i])
  }

  /** The chunks tile the payload, and the end marker is its last byte. */
  function PayloadBytes(cs: seq<Chunk>): (s: seq<byte>)
    requires ChunksOk(cs)
    ensures |s| > 0
  {
    if cs == [] then [0] else ChunkBytes(cs[0]) + PayloadBytes(cs[1..])
  }

  // ----- Block headers

  datatype Filter = Filter(id: nat, props: seq<byte>)

  predicate LastFilterOk(f: Filter) {
    && f.id == LZMA2 && |f.props| == 1
    && var size := DictionarySize(f.props[0]);
       size.Ok? && size.value <= MAX_DICTIONARY_BYTES
  }

  predicate FiltersOk(fs: seq<Filter>) {
    && 1 <= |fs|
    && (forall i | 0 <= i < |fs| :: fs[i].id < Vli.VLI_LIMIT && |fs[i].props| < Vli.VLI_LIMIT)
    && LastFilterOk(fs[|fs| - 1])
  }

  function FilterBytes(f: Filter): seq<byte> {
    Vli.Encode(f.id) + Vli.Encode(|f.props|) + f.props
  }

  function FiltersBytes(fs: seq<Filter>): seq<byte> {
    if fs == [] then [] else FilterBytes(fs[0]) + FiltersBytes(fs[1..])
  }

  function OptionBytes(o: Option<nat>): seq<byte> {
    if o.Some? then Vli.Encode(o.value) else []
  }

  /** The optional sizes and the filter chain of a block. */
  datatype Fields = Fields(compressed: Option<nat>, expanded: Option<nat>, filters: seq<Filter>)

  predicate OptionOk(o: Option<nat>) {
    o.Some? ==> o.value < Vli.VLI_LIMIT
  }

  predicate FieldsOk(f: Fields) {
    OptionOk(f.compressed) && OptionOk(f.expanded) && FiltersOk(f.filters) && |f.filters| <= 4
  }

  function FieldsBytes(f: Fields): seq<byte> {
    OptionBytes(f.compressed) + (OptionBytes(f.expanded) + FiltersBytes(f.filters))
  }

  function Flags(f: Fields): byte
    requires 1 <= |f.filters| <= 4
  {
    |f.filters| - 1 + (if f.compressed.Some? then 0x40 else 0) + (if f.expanded.Some? then 0x80 else 0)
  }

  datatype Header = Header(fields: Fields, padding: nat, crc: seq<byte>)

  function HeaderSize(h: Header): nat {
    2 + |FieldsBytes(h.fields)| + h.padding + 4
  }

  predicate HeaderOk(h: Header) {
    FieldsOk(h.fields) && |h.crc| == 4 && HeaderSize(h) % 4 == 0 && 8 <= HeaderSize(h) <= 1024
  }

  function HeaderBytes(h: Header): (s: seq<byte>)
    requires HeaderOk(h)
    ensures |s| == HeaderSize(h)
  {
    [HeaderSize(h) / 4 - 1, Flags(h.fields)] + (FieldsBytes(h.fields) + (Zeros(h.padding) + h.crc))
  }

  // ----- Blocks, index and stream

  /** The part of a block the preflight reads. */
  datatype Core = Core(header: Header, chunks: seq<Chunk>)

  predicate CoreOk(c: Core) {
    HeaderOk(c.header) && ChunksOk(c.chunks)
  }

  function CoreBytes(c: Core): seq<byte>
    requires CoreOk(c)
  {
    HeaderBytes(c.header) + PayloadBytes(c.chunks)
  }

  /** The size the index lists for the block: the core and its eight check bytes. */
  function Unpadded(c: Core): nat
    requires CoreOk(c)
  {
    |CoreBytes(c)| + 8
  }

  datatype Record = Record(core: Core, listed: nat)

  predicate RecordOk(r: Record) {
    CoreOk(r.core) && Unpadded(r.core) < Vli.VLI_LIMIT && r.listed < Vli.VLI_LIMIT
  }

  predicate RecordsOk(rs: seq<Record>) {
    forall i | 0 <= i < |rs| :: RecordOk(rs[i])
  }

  function RecordsBytes(rs: seq<Record>): seq<byte>
    requires RecordsOk(rs)
  {
    if rs == [] then []
    else Vli.Encode(Unpadded(rs[0].core)) + Vli.Encode(rs[0].listed) + RecordsBytes(rs[1..])
  }

  /** A whole block: `trailer` is the check and the padding to a multiple of four. */
  datatype Block = Block(record: Record, trailer: seq<byte>)

  predicate BlockOk(b: Block) {
    && RecordOk(b.record)
    && |CoreBytes(b.record.core)| + |b.trailer| == RoundUp4(Unpadded(b.record.core))
  }

  predicate BlocksOk(bs: seq<Block>) {
    forall i | 0 <= i < |bs| :: BlockOk(bs[i])
  }

  function BlocksBytes(bs: seq<Block>): seq<byte>
    requires BlocksOk(bs)
  {
    if bs == [] then []
    else CoreBytes(bs[0].record.core) + bs[0].trailer + BlocksBytes(bs[1..])
  }

  function Records(bs: seq<Block>): (rs: seq<Record>)
    ensures |rs| == |bs| && (BlocksOk(bs) ==> RecordsOk(rs))
  {
    if bs == [] then [] else [bs[0].record] + Records(bs[1..])
  }

  datatype Stream = Stream(headerCrc: seq<byte>, blocks: seq<Block>, indexPadding: nat,
                           indexCrc: seq<byte>, footerCrc: seq<byte>)

  function IndexBytes(s: Stream): seq<byte>
    requires BlocksOk(s.blocks)
  {
    [0] + Vli.Encode(|s.blocks|) + RecordsBytes(Records(s.blocks)) + Zeros(s.indexPadding) + s.indexCrc
  }

  predicate StreamOk(s: Stream) {
    && |s.headerCrc| == 4 && |s.indexCrc| == 4 && |s.footerCrc| == 4
    && BlocksOk(s.blocks) && |s.blocks| <= MAX_BLOCKS
    && |IndexBytes(s)| % 4 == 0 && |IndexBytes(s)| <= MAX_INDEX_BYTES
  }

  function FooterBytes(s: Stream): seq<byte>
    requires StreamOk(s)
  {
    s.footerCrc + Le32(|IndexBytes(s)| / 4 - 1) + FOOTER_MAGIC
  }

  function StreamBytes(s: Stream): seq<byte>
    requires StreamOk(s)
  {
    STREAM_MAGIC + s.headerCrc + BlocksBytes(s.blocks) + IndexBytes(s) + FooterBytes(s)
  }
}
