/**
 * One resource of an open package (s4lt/core/resource.py): an index entry, the
 * package's shared file, and a cache that the first successful extraction
 * fills and that later extractions return without touching the file.
 */
module Resources {
  import opened Bytes
  import opened Wrappers
  import opened Exceptions
  import opened Files
  import opened Index
  import opened Compression
  import opened Types

  /** What extract computes from the file contents: the stored bytes, decoded. */
  function ExtractSpec(data: seq<byte>, entry: IndexEntry, z: Deflate): (r: Result<seq<byte>, Error>)
    ensures r.Failure? ==> r.error == CompressionError
  {
    Decompress(ReadAt(data, entry.offset, entry.compressedSize), entry.compressionType, entry.uncompressedSize, z)
  }

  /** An uncompressed entry extracts to exactly its stored slice of the file. */
  lemma ExtractUncompressed(data: seq<byte>, entry: IndexEntry, z: Deflate)
    requires entry.compressionType == COMPRESSION_NONE
    requires entry.offset + entry.compressedSize <= |data|
    ensures ExtractSpec(data, entry, z) == Success(data[entry.offset..entry.offset + entry.compressedSize])
    ensures !entry.IsCompressed()
  {
  }

  /** A truncated file gives the bytes up to its end, never an error, for an uncompressed entry. */
  lemma ExtractTruncated(data: seq<byte>, entry: IndexEntry, z: Deflate)
    requires entry.compressionType == COMPRESSION_NONE
    requires entry.offset + entry.compressedSize > |data|
    ensures ExtractSpec(data, entry, z) == Success(if entry.offset < |data| then data[entry.offset..] else [])
  {
    var r := ReadAt(data, entry.offset, entry.compressedSize);
    assert ExtractSpec(data, entry, z) == Success(r);
  }

  class Resource {
    const entry: IndexEntry
    const file: BinaryFile
    var cachedData: Option<seq<byte>>

    constructor (entry: IndexEntry, file: BinaryFile)
      ensures this.entry == entry && this.file == file && cachedData == None
    {
      this.entry := entry;
      this.file := file;
      cachedData := None;
    }

    // The accessors read the corresponding field of the index entry.

    function TypeId(): nat { entry.typeId }
    function GroupId(): nat { entry.groupId }
    function InstanceId(): nat { entry.instanceId }
    function CompressedSize(): nat { entry.compressedSize }
    function UncompressedSize(): nat { entry.uncompressedSize }
    function CompressionType(): nat { entry.compressionType }
    function Offset(): nat { entry.offset }

    /** is_compressed: the entry names a codec other than "none". */
    predicate IsCompressed()
      ensures IsCompressed() <==> CompressionType() != COMPRESSION_NONE
    {
      entry.IsCompressed()
    }

    /** type_name: the registry name of the type id, or its 16-character fallback name. */
    function TypeName(): (r: string)
      ensures entry.typeId in RESOURCE_TYPES ==> r == RESOURCE_TYPES[entry.typeId] && !HasUnknownPrefix(r)
      ensures entry.typeId !in RESOURCE_TYPES && entry.typeId < U32_LIMIT ==> HasUnknownPrefix(r) && |r| == 16
    {
      if entry.typeId in RESOURCE_TYPES then
        KnownTypeName(entry.typeId);
        GetTypeName(entry.typeId)
      else if entry.typeId < U32_LIMIT then
        UnknownTypeName(entry.typeId);
        GetTypeName(entry.typeId)
      else
        GetTypeName(entry.typeId)
    }

    /**
     * extract: the cached bytes if there are any; otherwise seek to the entry's
     * offset, read compressedSize bytes (fewer at end of file) and decode them,
     * keeping the result in the cache only when decoding succeeds. A closed file
     * raises ValueError.
     */
    method Extract(z: Deflate) returns (r: Result<seq<byte>, Error>)
      modifies this`cachedData, file`pos
      ensures old(cachedData).Some? ==>
        r == Success(old(cachedData).value) && cachedData == old(cachedData) && file.pos == old(file.pos)
      ensures old(cachedData).None? && file.closed ==>
        r == Failure(ValueError) && cachedData == None && file.pos == old(file.pos)
      ensures old(cachedData).None? && !file.closed ==>
        r == ExtractSpec(file.data, entry, z) &&
        cachedData == (if r.Success? then Some(r.value) else None) &&
        file.pos == entry.offset + |ReadAt(file.data, entry.offset, entry.compressedSize)|
    {
      if cachedData.Some? {
        return Success(cachedData.value);
      }
      if file.closed {
        return Failure(ValueError);
      }
      file.Seek(entry.offset);
      var compressed := file.Read(entry.compressedSize);
      r := Decompress(compressed, entry.compressionType, entry.uncompressedSize, z);
      if r.Success? {
        cachedData := Some(r.value);
      }
    }
  }
}
