/** A seekable archive file whose reads may come back short (scripts/verify_release_archives.py). */
module ArchiveFile {
  import opened Outcome
  import opened Bytes

  datatype ArchiveError =
    | Truncated
    | BadEnvelope
    | IndexLimit
    | BadIndex
    | BadIndexCount
    | BlockLimit
    | ReservedHeaderSize
    | HeaderExceedsRecord
    | ReservedFlags
    | PropertiesExceedHeader
    | NotLzma2
    | DictionaryLimit
    | HeaderPadding
    | ConcealedData
    | BadFraming
    | PayloadExceedsRecord
    | NoEndMarker
    | IndexDoesNotSpan
    | TrailingData
    | IncompleteEnd
    | EntryLimit
    | UnsupportedMember
    | UnsupportedMetadata
    | Base256
    | BadNumber
    | NonCanonicalNumber
    | BadChecksum
    | MemberSizeLimit
    | MetadataSizeLimit
    | NameSizeLimit
    | MetadataTotalLimit
    | ExpandedLimit
    | NonzeroPadding
    | TarStreamLimit
    | TrailingCompressedData
    | TruncatedCompressedData

  /** What reading exactly `size` bytes at `pos` gives. */
  function Slice(d: seq<byte>, pos: nat, size: nat): (r: Result<seq<byte>, ArchiveError>)
    ensures r.Ok? && size > 0 ==> At(d, pos, r.value) && |r.value| == size
  {
    if size == 0 then Ok([])
    else if pos + size <= |d| then Ok(d[pos..pos + size])
    else Err(Truncated)
  }

  class ByteFile {
    const data: seq<byte>
    var pos: nat

    constructor (d: seq<byte>)
      ensures data == d && pos == 0
    {
      data := d;
      pos := 0;
    }

    method Seek(p: nat)
      modifies this
      ensures pos == p
    {
      pos := p;
    }

    /** One read call: any nonempty part of what was asked for, or nothing at the end of the file. */
    method Read(size: nat) returns (chunk: seq<byte>)
      requires size > 0
      modifies this
      ensures chunk != [] ==> |chunk| <= size && At(data, old(pos), chunk)
      ensures chunk == [] <==> old(pos) >= |data|
      ensures pos == old(pos) + |chunk|
    {
      if pos >= |data| {
        return [];
      }
      var n: nat :| 1 <= n <= size && n <= |data| - pos by {
        assert 1 <= 1 <= size && 1 <= |data| - pos;
      }
      chunk := data[pos..pos + n];
      pos := pos + n;
    }

    method ReadExact(size: nat) returns (r: Result<seq<byte>, ArchiveError>)
      modifies this
      ensures r == Slice(data, old(pos), size)
      ensures r.Ok? ==> pos == old(pos) + size
    {
      var chunks: seq<byte> := [];
      while |chunks| < size
        invariant pos == old(pos) + |chunks|
        invariant |chunks| <= size
        invariant chunks != [] ==> pos <= |data|
        invariant chunks == [] || chunks == data[old(pos)..pos]
        decreases size - |chunks|
      {
        var chunk := Read(size - |chunks|);
        if chunk == [] {
          return Err(Truncated);
        }
        chunks := chunks + chunk;
      }
      return Ok(chunks);
    }
  }
}
