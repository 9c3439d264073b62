/**
 * The 96-byte DBPF header (s4lt/core/header.py): magic "DBPF", major and
 * minor version, entry count, index position and index size, all unsigned
 * 32-bit little-endian words at fixed offsets.
 */
module Header {
  import opened Bytes
  import opened Wrappers
  import opened Exceptions

  const HEADER_SIZE: nat := 96
  const MAGIC: seq<byte> := [0x44, 0x42, 0x50, 0x46]   // "DBPF"

  const MAJOR_OFFSET: nat := 4
  const MINOR_OFFSET: nat := 8
  const ENTRY_COUNT_OFFSET: nat := 36
  const INDEX_SIZE_OFFSET: nat := 44
  const INDEX_POSITION_OFFSET: nat := 64

  datatype DBPFHeader = DBPFHeader(
    magic: seq<byte>,
    versionMajor: nat,
    versionMinor: nat,
    entryCount: nat,
    indexPosition: nat,
    indexSize: nat)
  {
    function Version(): (nat, nat)
    {
      (versionMajor, versionMinor)
    }
  }

  /**
   * parse_header on the bytes file.read(96) returned: too few bytes or a wrong
   * magic is InvalidMagicError, a major version other than 2 is
   * UnsupportedVersionError, otherwise the fields at their offsets.
   */
  function ParseHeader(data: seq<byte>): (r: Result<DBPFHeader, Error>)
    ensures r == Failure(InvalidMagicError) <==> |data| < HEADER_SIZE || data[..4] != MAGIC
    ensures r == Failure(UnsupportedVersionError) <==>
      |data| >= HEADER_SIZE && data[..4] == MAGIC && U32At(data, MAJOR_OFFSET) != 2
    ensures r.Success? ==> r.value.magic == MAGIC && r.value.versionMajor == 2
    ensures r.Success? ==>
      r.value.versionMinor == U32At(data, MINOR_OFFSET) &&
      r.value.entryCount == U32At(data, ENTRY_COUNT_OFFSET) &&
      r.value.indexSize == U32At(data, INDEX_SIZE_OFFSET) &&
      r.value.indexPosition == U32At(data, INDEX_POSITION_OFFSET)
    ensures r.Success? ==>
      r.value.entryCount < U32_LIMIT && r.value.indexPosition < U32_LIMIT &&
      r.value.indexSize < U32_LIMIT && r.value.versionMinor < U32_LIMIT
  {
    if |data| < HEADER_SIZE then Failure(InvalidMagicError)
    else if data[..4] != MAGIC then Failure(InvalidMagicError)
    else if U32At(data, MAJOR_OFFSET) != 2 then Failure(UnsupportedVersionError)
    else
      U32AtBound(data, MINOR_OFFSET);
      U32AtBound(data, ENTRY_COUNT_OFFSET);
      U32AtBound(data, INDEX_POSITION_OFFSET);
      U32AtBound(data, INDEX_SIZE_OFFSET);
      Success(DBPFHeader(
        data[..4],
        2,
        U32At(data, MINOR_OFFSET),
        U32At(data, ENTRY_COUNT_OFFSET),
        U32At(data, INDEX_POSITION_OFFSET),
        U32At(data, INDEX_SIZE_OFFSET)))
  }

  /**
   * Only the magic, the two version words and the three index words are read:
   * two blocks of at least 96 bytes that agree on them parse to the same result.
   */
  lemma ParseHeaderReadsOnlyFields(a: seq<byte>, b: seq<byte>)
    requires |a| >= HEADER_SIZE && |b| >= HEADER_SIZE
    requires a[..12] == b[..12] && a[36..40] == b[36..40] && a[44..48] == b[44..48] && a[64..68] == b[64..68]
    ensures ParseHeader(a) == ParseHeader(b)
  {
    assert a[..4] == a[..12][..4] && b[..4] == b[..12][..4];
    assert a[4..8] == a[..12][4..8] && b[4..8] == b[..12][4..8];
    assert a[8..12] == a[..12][8..12] && b[8..12] == b[..12][8..12];
  }
}
