/** The XZ preflight (scripts/verify_release_archives.py:457-583), step by step over the file. */
module XzPreflight {
  import opened Outcome
  import opened Bytes
  import opened ArchiveFile
  import Vli = XzVli
  import opened XzFormat
  import opened XzParse

  method XzDictionarySize(property: nat) returns (r: Result<nat, ArchiveError>)
    ensures r == DictionarySize(property)
  {
    if property > 40 {
      return Err(NotLzma2);
    }
    if property == 40 {
      return Ok(0xffff_ffff);
    }
    return Ok((2 + property % 2) * Power2(property / 2 + 11));
  }

  lemma PowerGrows(m: nat, n: nat)
    requires m < n
    ensures 2 * Power2(m) <= Power2(n)
    decreases n - m
  {
    if m + 1 < n {
      PowerGrows(m, n - 1);
    }
  }

  lemma BigPowers()
    ensures Power2(25) == 0x200_0000 && Power2(30) == 0x4000_0000
  {
    assert Power2(5) == 32;
    assert Power2(10) == 32 * Power2(5);
    assert Power2(15) == 32 * Power2(10);
    assert Power2(20) == 32 * Power2(15);
    assert Power2(25) == 32 * Power2(20);
    assert Power2(30) == 32 * Power2(25);
  }

  /** Below 40 a property is two or three times a power of two. */
  lemma DictionaryParts(p: nat)
    requires p < 40
    ensures var x := Power2(p / 2 + 11);
      DictionarySize(p).value == if p % 2 == 0 then 2 * x else 3 * x
  {
    ThreeHalves(p % 2, Power2(p / 2 + 11));
  }

  /** A larger property always names a larger dictionary, so the limit cuts the range once. */
  lemma DictionaryGrows(p: nat, q: nat)
    requires p < q <= 40
    ensures DictionarySize(p).value < DictionarySize(q).value
  {
    DictionaryParts(p);
    var i, j := p / 2 + 11, q / 2 + 11;
    assert DictionarySize(40).value == 0xffff_ffff;
    if q == 40 {
      hide DictionarySize, Power2;
      BigPowers();
      if i < 30 {
        PowerGrows(i, 30);
      }
    } else {
      DictionaryParts(q);
      hide DictionarySize, Power2;
      assert Power2(i) > 0;
      if i < j {
        PowerGrows(i, j);
      }
    }
  }

  lemma ThreeHalves(bit: nat, x: nat)
    requires bit < 2
    ensures (2 + bit) * x == if bit == 0 then 2 * x else 3 * x
  {
  }

  lemma DictionaryLimitProperty(p: nat)
    requires p <= 40
    ensures DictionarySize(p).value <= MAX_DICTIONARY_BYTES <==> p <= 28
  {
    BigPowers();
    if p < 28 {
      DictionaryGrows(p, 28);
    } else if p > 28 {
      DictionaryGrows(28, p);
    }
  }

  /** What the filter loop keeps: the end of the chain, or its error. */
  function ChainEnd(r: Result<(seq<Filter>, nat), ArchiveError>): Result<nat, ArchiveError> {
    match r
    case Ok((_, end)) => Ok(end)
    case Err(e) => Err(e)
  }

  lemma FilterStep(body: seq<byte>, pos: nat, count: nat)
    requires count > 0
    ensures ChainEnd(FiltersAt(body, pos, count))
         == var f := FilterAt(body, pos);
            if f.Err? then Err(f.error)
            else if count > 1 then ChainEnd(FiltersAt(body, f.value.1, count - 1))
            else if LastFilter(f.value.0).Err? then Err(LastFilter(f.value.0).error)
            else Ok(f.value.1)
  {
    hide FilterAt, LastFilter;
  }

  method PreflightFilters(body: seq<byte>, start: nat, filters: nat) returns (r: Result<nat, ArchiveError>)
    requires filters > 0
    ensures r == ChainEnd(FiltersAt(body, start, filters))
  {
    hide FiltersAt, ChainEnd, Vli.ReadVli, DictionarySize;
    var position: nat := start;
    for index := 0 to filters
      invariant ChainEnd(FiltersAt(body, start, filters))
             == if index == filters then Ok(position) else ChainEnd(FiltersAt(body, position, filters - index))
    {
      FilterStep(body, position, filters - index);
      var id := Vli.ReadXzVli(body, position);
      if id.Err? {
        return Err(id.error);
      }
      var size := Vli.ReadXzVli(body, id.value.1);
      if size.Err? {
        return Err(size.error);
      }
      position := size.value.1;
      var propertiesEnd := position + size.value.0;
      if propertiesEnd > |body| {
        return Err(PropertiesExceedHeader);
      }
      var properties := body[position..propertiesEnd];
      position := propertiesEnd;
      if index + 1 == filters {
        if id.value.0 != LZMA2 || |properties| != 1 || properties[0] > 40 {
          return Err(NotLzma2);
        }
        var dictionary := XzDictionarySize(properties[0]);
        if dictionary.value > MAX_DICTIONARY_BYTES {
          return Err(DictionaryLimit);
        }
      }
    }
    return Ok(position);
  }

  /** How reading chunks ends: without an error, or with this one. */
  function ChunksEnd(d: seq<byte>, pos: nat, payloadEnd: nat): Option<ArchiveError> {
    ChunksAt(d, pos, payloadEnd).Verdict()
  }

  /** One turn of the chunk loop. */
  lemma ChunkStep(d: seq<byte>, pos: nat, payloadEnd: nat)
    ensures pos >= payloadEnd ==> ChunksEnd(d, pos, payloadEnd) == Some(NoEndMarker)
    ensures pos < payloadEnd && pos >= |d| ==> ChunksEnd(d, pos, payloadEnd) == Some(Truncated)
    ensures pos < payloadEnd && pos < |d| && d[pos] == 0 ==>
              ChunksEnd(d, pos, payloadEnd) == if pos + 1 == payloadEnd then None else Some(ConcealedData)
    ensures pos < payloadEnd && pos < |d| && d[pos] != 0 ==>
              ChunksEnd(d, pos, payloadEnd)
              == var h := HeadAt(d, pos);
                 if h.Err? then Some(h.error)
                 else if pos + h.value.0 + h.value.1 > payloadEnd then Some(PayloadExceedsRecord)
                 else ChunksEnd(d, pos + h.value.0 + h.value.1, payloadEnd)
  {
    hide HeadAt;
    if pos < payloadEnd && pos < |d| && d[pos] != 0 {
      var chunk := ChunkAt(d, pos, payloadEnd);
      if chunk.Ok? {
        ChunkLength(d, pos, payloadEnd);
      }
    }
  }

  lemma ChunkLength(d: seq<byte>, pos: nat, payloadEnd: nat)
    requires pos < |d| && d[pos] != 0 && ChunkAt(d, pos, payloadEnd).Ok?
    ensures |ChunkBytes(ChunkAt(d, pos, payloadEnd).value)| == HeadAt(d, pos).value.0 + HeadAt(d, pos).value.1
  {
  }

  /** Reads what follows a chunk's control byte, up to its data, and returns how long the data is. */
  method ReadChunkHead(file: ByteFile, control: byte) returns (r: Result<nat, ArchiveError>)
    requires 0 < file.pos <= |file.data| && control == file.data[file.pos - 1] != 0
    modifies file
    ensures var h := HeadAt(file.data, old(file.pos) - 1);
      && r.Verdict() == h.Verdict()
      && (r.Ok? ==> r.value == h.value.1 && file.pos == old(file.pos) - 1 + h.value.0)
  {
    var size;
    if control in {1, 2} {
      size := file.ReadExact(2);
    } else if control >= 0x80 {
      var expanded := file.ReadExact(2);
      if expanded.Err? {
        return Err(expanded.error);
      }
      size := file.ReadExact(2);
      if size.Ok? && control >= 0xC0 {
        var props := file.ReadExact(1);
        if props.Err? {
          return Err(props.error);
        }
      }
    } else {
      return Err(BadFraming);
    }
    if size.Err? {
      return Err(size.error);
    }
    return Ok(FromBe16(size.value) + 1);
  }

  method PreflightChunks(file: ByteFile, payloadEnd: nat) returns (r: Result<(), ArchiveError>)
    modifies file
    ensures r.Verdict() == ChunksAt(file.data, old(file.pos), payloadEnd).Verdict()
  {
    hide ChunksAt, HeadAt;
    while file.pos < payloadEnd
      invariant ChunksEnd(file.data, old(file.pos), payloadEnd) == ChunksEnd(file.data, file.pos, payloadEnd)
      decreases payloadEnd - file.pos
    {
      ChunkStep(file.data, file.pos, payloadEnd);
      hide ChunksEnd;
      var control := file.ReadExact(1);
      if control.Err? {
        return Err(control.error);
      }
      if control.value[0] == 0 {
        if file.pos != payloadEnd {
          return Err(ConcealedData);
        }
        return Ok(());
      }
      var payloadSize := ReadChunkHead(file, control.value[0]);
      if payloadSize.Err? {
        return Err(payloadSize.error);
      }
      if file.pos + payloadSize.value > payloadEnd {
        return Err(PayloadExceedsRecord);
      }
      file.Seek(file.pos + payloadSize.value);
    }
    ChunkStep(file.data, file.pos, payloadEnd);
    return Err(NoEndMarker);
  }

  method PreflightHeaderFields(body: seq<byte>) returns (r: Result<nat, ArchiveError>)
    requires |body| >= 2
    ensures r.Verdict() == FieldsAt(body).Verdict()
    ensures r.Ok? ==> r.value == FieldsAt(body).value.1
  {
    hide FiltersAt, Vli.ReadVli;
    var flags := body[1];
    if flags / 4 % 16 != 0 {
      return Err(ReservedFlags);
    }
    var position: nat := 2;
    if flags / 64 % 2 == 1 {
      var size := Vli.ReadXzVli(body, position);
      if size.Err? {
        return Err(size.error);
      }
      position := size.value.1;
    }
    if flags / 128 == 1 {
      var size := Vli.ReadXzVli(body, position);
      if size.Err? {
        return Err(size.error);
      }
      position := size.value.1;
    }
    r := PreflightFilters(body, position, flags % 4 + 1);
  }

  method PreflightXzBlock(file: ByteFile, blockStart: nat, unpaddedSize: nat) returns (r: Result<(), ArchiveError>)
    modifies file
    ensures r.Verdict() == CoreAt(file.data, blockStart, unpaddedSize).Verdict()
  {
    hide FieldsAt, ChunksAt;
    file.Seek(blockStart);
    var encodedSize := file.ReadExact(1);
    if encodedSize.Err? {
      return Err(encodedSize.error);
    }
    if encodedSize.value[0] == 0 {
      return Err(ReservedHeaderSize);
    }
    var headerSize := (encodedSize.value[0] as int + 1) * 4;
    if headerSize > unpaddedSize {
      return Err(HeaderExceedsRecord);
    }
    file.Seek(blockStart);
    var header := file.ReadExact(headerSize);
    if header.Err? {
      return Err(header.error);
    }
    var body := header.value[..headerSize - 4];
    var position := PreflightHeaderFields(body);
    if position.Err? {
      return Err(position.error);
    }
    if position.value <= |body| && !AllZero(body[position.value..]) {
      return Err(HeaderPadding);
    }
    HeaderLength(file.data, blockStart, unpaddedSize);
    file.Seek(blockStart + headerSize);
    r := PreflightChunks(file, blockStart + unpaddedSize - 8);
  }

  lemma HeaderLength(d: seq<byte>, start: nat, unpadded: nat)
    requires HeaderAt(d, start, unpadded).Ok?
    ensures start < |d| && HeaderSize(HeaderAt(d, start, unpadded).value) == (d[start] as int + 1) * 4
  {
    hide FieldsAt, FieldsBytes;
    var h := HeaderAt(d, start, unpadded).value;
    var size := (d[start] as int + 1) * 4;
    assert Slice(d, start, 1).value[0] == d[start];
    var body := d[start..start + size][..size - 4];
    assert FieldsAt(body).Ok?;
    FieldsSound(body, FieldsAt(body).value.0, FieldsAt(body).value.1);
  }

  method PreflightXz(file: ByteFile) returns (r: Result<(), ArchiveError>)
    modifies file
    ensures r.Verdict() == StreamIn(file.data).Verdict()
  {
    hide RecordsAt, Vli.ReadVli, CoreAt;
    var size := |file.data|;
    if size < 24 {
      return Err(Truncated);
    }
    file.Seek(0);
    var header := file.ReadExact(12);
    file.Seek(size - 12);
    var footer := file.ReadExact(12);
    assert footer.value == file.data[size - 12..] && header.value == file.data[..12];
    if !Envelope(header.value, footer.value) {
      return Err(BadEnvelope);
    }
    var indexSize := (FromLe32(footer.value[4..8]) + 1) * 4;
    if indexSize > MAX_INDEX_BYTES || indexSize > size - 24 {
      return Err(IndexLimit);
    }
    var indexStart := size - 12 - indexSize;
    file.Seek(indexStart);
    var indexBytes := file.ReadExact(indexSize);
    var index := indexBytes.value;
    if index[0] != 0 {
      return Err(BadIndex);
    }
    var blocks := Vli.ReadXzVli(index, 1);
    if blocks.Err? {
      return Err(blocks.error);
    }
    if blocks.value.0 > MAX_BLOCKS {
      return Err(BlockLimit);
    }
    var first: nat, position: nat, blockPosition: nat := blocks.value.1, blocks.value.1, 12;
    for i := 0 to blocks.value.0
      invariant Ends(RecordsAt(file.data, index, blocks.value.0, first, 12))
             == Ends(RecordsAt(file.data, index, blocks.value.0 - i, position, blockPosition))
    {
      RecordStep(file.data, index, blocks.value.0 - i, position, blockPosition);
      var unpaddedSize := Vli.ReadXzVli(index, position);
      if unpaddedSize.Err? {
        return Err(unpaddedSize.error);
      }
      var listed := Vli.ReadXzVli(index, unpaddedSize.value.1);
      if listed.Err? {
        return Err(listed.error);
      }
      position := listed.value.1;
      var block := PreflightXzBlock(file, blockPosition, unpaddedSize.value.0);
      if block.Err? {
        return Err(block.error);
      }
      blockPosition := blockPosition + RoundUp4(unpaddedSize.value.0);
    }
    NoRecords(file.data, index, position, blockPosition);
    if blockPosition != indexStart || position > |index| - 4 || !AllZero(index[position..|index| - 4]) {
      return Err(IndexDoesNotSpan);
    }
    return Ok(());
  }

  /** What the block loop keeps: both positions, or the error. */
  function Ends(r: Result<Listing, ArchiveError>): Result<(nat, nat), ArchiveError> {
    match r
    case Ok(l) => Ok((l.position, l.blockPosition))
    case Err(e) => Err(e)
  }

  lemma NoRecords(d: seq<byte>, index: seq<byte>, position: nat, bp: nat)
    ensures RecordsAt(d, index, 0, position, bp) == Ok(Listing([], position, bp))
  {
  }

  lemma RecordStep(d: seq<byte>, index: seq<byte>, count: nat, position: nat, bp: nat)
    requires count > 0
    ensures Ends(RecordsAt(d, index, count, position, bp))
         == var u := Vli.ReadVli(index, position);
            if u.Err? then Err(u.error)
            else
              var l := Vli.ReadVli(index, u.value.1);
              if l.Err? then Err(l.error)
              else if CoreAt(d, bp, u.value.0).Err? then Err(CoreAt(d, bp, u.value.0).error)
              else Ends(RecordsAt(d, index, count - 1, l.value.1, bp + RoundUp4(u.value.0)))
  {
    hide Vli.ReadVli, CoreAt;
  }

  /** The preflight accepts a file exactly when it is an assembled stream within the limits. */
  lemma PreflightXzExactly(d: seq<byte>)
    ensures StreamIn(d).Ok? <==> exists s: Stream :: StreamOk(s) && d == StreamBytes(s)
  {
    hide StreamIn, StreamOk, StreamBytes;
    if StreamIn(d).Ok? {
      StreamExactly(d, StreamIn(d).value);
    }
    forall s: Stream | StreamOk(s) && d == StreamBytes(s)
      ensures StreamIn(d).Ok?
    {
      StreamExactly(d, s);
    }
  }

  /** No two well-formed streams have the same bytes. */
  lemma StreamUnique(s: Stream, t: Stream)
    requires StreamOk(s) && StreamOk(t) && StreamBytes(s) == StreamBytes(t)
    ensures s == t
  {
    hide StreamIn, StreamOk, StreamBytes;
    StreamExactly(StreamBytes(s), s);
    StreamExactly(StreamBytes(s), t);
  }
}
