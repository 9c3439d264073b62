/**
 * Writing a package (s4lt/core/writer.py): the 96-byte header, then every
 * resource's stored bytes in input order, then an index with no constant
 * fields. Offsets are running sums of the stored lengths from the end of the
 * header. An existing target is first copied to "<path>.bak" unless that
 * backup already exists.
 */
module Writer {
  import opened Bytes
  import opened Wrappers
  import opened Exceptions
  import opened Files
  import opened Header
  import opened Index
  import opened Compression
  import opened Paths
  import opened Resources
  import opened Packages

  /** One resource dict handed to write_package. */
  datatype ResourceRecord = ResourceRecord(typeId: nat, groupId: nat, instanceId: nat, data: seq<byte>, compress: bool)

  /** The bytes written for a resource: zlib output when compress is set, else the data. */
  function Stored(res: ResourceRecord, z: Deflate): seq<byte>
  {
    if res.compress then CompressZlib(res.data, z) else res.data
  }

  function Codec(res: ResourceRecord): nat
  {
    if res.compress then COMPRESSION_ZLIB else COMPRESSION_NONE
  }

  /** The stored chunks of rs, back to back. */
  function Chunks(rs: seq<ResourceRecord>, z: Deflate): seq<byte>
  {
    if rs == [] then [] else Chunks(rs[..|rs| - 1], z) + Stored(rs[|rs| - 1], z)
  }

  /** The index entries write_package computes: offsets run on from the header. */
  function Layout(rs: seq<ResourceRecord>, z: Deflate): (es: seq<IndexEntry>)
    ensures |es| == |rs|
  {
    if rs == [] then []
    else
      var init := rs[..|rs| - 1];
      var res := rs[|rs| - 1];
      Layout(init, z) + [IndexEntry(res.typeId, res.groupId, res.instanceId, HEADER_SIZE + |Chunks(init, z)|,
                                    |Stored(res, z)|, |res.data|, Codec(res))]
  }

  // ------------------------------------------------------------ the header

  /** "DBPF" read as a little-endian word. */
  const MAGIC_WORD: nat := 0x4650_4244

  lemma MagicWord()
    ensures Enc(MAGIC_WORD, 4) == MAGIC
  {
  }

  /** The 24 words of the header _build_header packs; word k sits at byte 4k. */
  function HeaderWords(entryCount: nat, indexPosition: nat, indexSize: nat): (ws: seq<nat>)
    ensures |ws| == 24
  {
    seq(24, _ => 0)[0 := MAGIC_WORD][1 := 2][2 := 1][9 := entryCount][11 := indexSize][16 := indexPosition]
  }

  function HeaderBytes(entryCount: nat, indexPosition: nat, indexSize: nat): (r: seq<byte>)
    ensures |r| == HEADER_SIZE
  {
    Words(HeaderWords(entryCount, indexPosition, indexSize))
  }

  /** Slice assignment buf[off:off + len(b)] = b. */
  method Put(buf: array<byte>, off: nat, b: seq<byte>)
    requires off + |b| <= buf.Length
    modifies buf
    ensures buf[..] == old(buf[..])[..off] + b + old(buf[..])[off + |b|..]
  {
    ghost var s := buf[..];
    var i := 0;
    while i < |b|
      invariant 0 <= i <= |b|
      invariant forall k :: 0 <= k < buf.Length ==> buf[k] == if off <= k < off + i then b[k - off] else s[k]
    {
      buf[off + i] := b[i];
      i := i + 1;
    }
    Spliced(s, buf[..], off, b);
  }

  /** struct.pack_into("<I", buf, 4 * k, x) over a buffer of words, for an x that fits. */
  method PackWord(buf: array<byte>, k: nat, x: nat, ghost ws: seq<nat>)
    requires k < |ws| && buf[..] == Words(ws) && x < U32_LIMIT
    modifies buf
    ensures buf[..] == Words(ws[k := x])
  {
    Put(buf, 4 * k, Enc(x, 4));
    WordsUpdate(ws, k, x);
  }

  /** _build_header: a struct.error when a value does not fit in 32 bits. */
  method BuildHeader(entryCount: nat, indexPosition: nat, indexSize: nat) returns (r: Result<seq<byte>, Error>)
    ensures entryCount < U32_LIMIT && indexPosition < U32_LIMIT && indexSize < U32_LIMIT ==>
      r == Success(HeaderBytes(entryCount, indexPosition, indexSize))
    ensures entryCount >= U32_LIMIT || indexPosition >= U32_LIMIT || indexSize >= U32_LIMIT ==> r == Failure(StructError)
  {
    var header := new byte[HEADER_SIZE](_ => 0);
    ghost var ws: seq<nat> := seq(24, _ => 0);
    WordsZeros(24);
    assert header[..] == Words(ws);
    Put(header, 0, MAGIC);
    MagicWord();
    WordsUpdate(ws, 0, MAGIC_WORD);
    ws := ws[0 := MAGIC_WORD];
    PackWord(header, 1, 2, ws);
    ws := ws[1 := 2];
    PackWord(header, 2, 1, ws);
    ws := ws[2 := 1];
    if entryCount >= U32_LIMIT {
      return Failure(StructError);
    }
    PackWord(header, 9, entryCount, ws);
    ws := ws[9 := entryCount];
    if indexSize >= U32_LIMIT {
      return Failure(StructError);
    }
    PackWord(header, 11, indexSize, ws);
    ws := ws[11 := indexSize];
    if indexPosition >= U32_LIMIT {
      return Failure(StructError);
    }
    PackWord(header, 16, indexPosition, ws);
    ws := ws[16 := indexPosition];
    assert ws == HeaderWords(entryCount, indexPosition, indexSize);
    return Success(header[..]);
  }

  /** Word j of a packed header sits at byte 4j. */
  lemma {:induction false} HeaderWord(h: seq<byte>, ws: seq<nat>, j: nat)
    requires |ws| == 24 && h == Words(ws) && j < 24 && ws[j] < U32_LIMIT
    ensures h[4 * j..4 * j + 4] == Enc(ws[j], 4) && U32At(h, 4 * j) == ws[j]
  {
    assert h[0..4 * |ws|] == h;
    WordAt(h, 0, ws, j);
  }

  /** Words 0, 1 and 2 of a built header: the magic and version 2.1. */
  lemma {:induction false} HeaderStart(h: seq<byte>, ws: seq<nat>)
    requires |ws| == 24 && ws[0] == MAGIC_WORD && ws[1] == 2 && ws[2] == 1 && h == Words(ws)
    ensures h[..4] == MAGIC && U32At(h, 4) == 2 && U32At(h, 8) == 1
  {
    HeaderWord(h, ws, 0);
    MagicWord();
    HeaderWord(h, ws, 1);
    HeaderWord(h, ws, 2);
  }

  /** Words 9, 11 and 16 of a built header: entry count, index size, index position. */
  lemma {:induction false} HeaderFields(h: seq<byte>, ws: seq<nat>)
    requires |ws| == 24 && ws[9] < U32_LIMIT && ws[11] < U32_LIMIT && ws[16] < U32_LIMIT && h == Words(ws)
    ensures U32At(h, 36) == ws[9] && U32At(h, 44) == ws[11] && U32At(h, 64) == ws[16]
  {
    HeaderWord(h, ws, 9);
    HeaderWord(h, ws, 11);
    HeaderWord(h, ws, 16);
  }

  /** Parsing a built header gives back its fields and version (2, 1). */
  lemma HeaderRoundTrip(entryCount: nat, indexPosition: nat, indexSize: nat)
    requires entryCount < U32_LIMIT && indexPosition < U32_LIMIT && indexSize < U32_LIMIT
    ensures ParseHeader(HeaderBytes(entryCount, indexPosition, indexSize)) ==
      Success(DBPFHeader(MAGIC, 2, 1, entryCount, indexPosition, indexSize))
  {
    var ws := HeaderWords(entryCount, indexPosition, indexSize);
    var h := HeaderBytes(entryCount, indexPosition, indexSize);
    HeaderStart(h, ws);
    HeaderFields(h, ws);
  }

  // ------------------------------------------------------------ the index

  function InstanceHi(id: nat): nat { (id / U32_LIMIT) % U32_LIMIT }
  function InstanceLo(id: nat): nat { id % U32_LIMIT }

  /** A 64-bit instance id is its two halves recombined. */
  lemma InstanceHalves(id: nat)
    requires id < U64_LIMIT
    ensures CombineInstance(InstanceHi(id), InstanceLo(id)) == id
  {
  }

  /** The entry fits the struct formats: "<I" words and a "<H" compression code. */
  predicate Packable(e: IndexEntry)
  {
    e.typeId < U32_LIMIT && e.groupId < U32_LIMIT && e.offset < U32_LIMIT && e.compressedSize < U32_LIMIT &&
    e.uncompressedSize < U32_LIMIT && e.compressionType < U16_LIMIT
  }

  /** The entry is packable and reads back unchanged: bit 31 of its size clear, its instance within 64 bits. */
  predicate Fits(e: IndexEntry)
  {
    Packable(e) && e.compressedSize < SIZE_MASK && e.instanceId < U64_LIMIT
  }

  predicate AllFit(es: seq<IndexEntry>)
  {
    forall i :: 0 <= i < |es| ==> Fits(es[i])
  }

  /** The seven "<I" words of a record. */
  function RecordWords(e: IndexEntry): (ws: seq<nat>)
    ensures |ws| == 7
  {
    [e.typeId, e.groupId, InstanceHi(e.instanceId), InstanceLo(e.instanceId), e.offset, e.compressedSize,
     e.uncompressedSize]
  }

  /** One 32-byte index record: seven words, the "<H" compression code and two padding bytes. */
  function RecordBytes(e: IndexEntry): (r: seq<byte>)
    ensures |r| == 32
  {
    Words(RecordWords(e)) + Enc(e.compressionType, 2) + Enc(0, 2)
  }

  function RecordsBytes(es: seq<IndexEntry>): (r: seq<byte>)
    ensures |r| == 32 * |es|
  {
    if es == [] then [] else RecordsBytes(es[..|es| - 1]) + RecordBytes(es[|es| - 1])
  }

  /** The index table _build_index emits: a zero flags word, then the records. */
  function IndexBytes(es: seq<IndexEntry>): (r: seq<byte>)
    ensures |r| == 4 + 32 * |es|
  {
    Enc(0, 4) + RecordsBytes(es)
  }

  /** Every entry fits the struct formats. */
  predicate AllPackable(es: seq<IndexEntry>)
  {
    forall i :: 0 <= i < |es| ==> Packable(es[i])
  }

  /** _build_index: a struct.error when some entry does not fit its formats. */
  method BuildIndex(es: seq<IndexEntry>) returns (r: Result<seq<byte>, Error>)
    ensures AllPackable(es) ==> r == Success(IndexBytes(es))
    ensures !AllPackable(es) ==> r == Failure(StructError)
  {
    var index := Enc(0, 4);
    var i := 0;
    while i < |es|
      invariant 0 <= i <= |es|
      invariant AllPackable(es[..i])
      invariant index == Enc(0, 4) + RecordsBytes(es[..i])
    {
      var e := es[i];
      if !Packable(e) {
        return Failure(StructError);
      }
      var record := PackRecord(e);
      RecordsBytesStep(es, i);
      index := index + record;
      i := i + 1;
    }
    assert es[..i] == es;
    return Success(index);
  }

  /** One record: seven "<I" words, then "<HH" of the compression code and 0. */
  method PackRecord(e: IndexEntry) returns (record: seq<byte>)
    requires Packable(e)
    ensures record == RecordBytes(e)
  {
    record := Words([e.typeId, e.groupId, InstanceHi(e.instanceId), InstanceLo(e.instanceId), e.offset,
                     e.compressedSize, e.uncompressedSize]);
    record := record + Enc(e.compressionType, 2) + Enc(0, 2);
  }

  lemma RecordsBytesStep(es: seq<IndexEntry>, i: nat)
    requires i < |es|
    ensures RecordsBytes(es[..i + 1]) == RecordsBytes(es[..i]) + RecordBytes(es[i])
  {
    assert es[..i + 1][..i] == es[..i];
  }

  /** The k-th record sits at 32k in the records. */
  lemma {:induction false} RecordsBytesAt(es: seq<IndexEntry>, k: nat)
    requires k < |es|
    ensures RecordsBytes(es)[32 * k..32 * k + 32] == RecordBytes(es[k])
  {
    var init := es[..|es| - 1];
    if k < |init| {
      RecordsBytesAt(init, k);
      assert RecordsBytes(es)[32 * k..32 * k + 32] == RecordsBytes(init)[32 * k..32 * k + 32];
    }
  }

  /** A record is its seven words, then the compression code. */
  lemma RecordParts(data: seq<byte>, p: nat, e: IndexEntry)
    requires p + 32 <= |data| && data[p..p + 32] == RecordBytes(e)
    ensures data[p..p + 28] == Words(RecordWords(e)) && data[p + 28..p + 30] == Enc(e.compressionType, 2)
  {
    var w := Words(RecordWords(e));
    var c := Enc(e.compressionType, 2);
    SliceOfSlice(data, p, p + 32, 0, 28);
    SliceOfSlice(data, p, p + 32, 28, 30);
    MidOf(w, c, Enc(0, 2));
  }

  lemma RecordIds(data: seq<byte>, p: nat, e: IndexEntry)
    requires Packable(e) && p + 28 <= |data| && data[p..p + 28] == Words(RecordWords(e))
    ensures U32At(data, p) == e.typeId && U32At(data, p + 4) == e.groupId
    ensures U32At(data, p + 8) == InstanceHi(e.instanceId) && U32At(data, p + 12) == InstanceLo(e.instanceId)
  {
    var ws := RecordWords(e);
    WordAt(data, p, ws, 0);
    WordAt(data, p, ws, 1);
    WordAt(data, p, ws, 2);
    WordAt(data, p, ws, 3);
  }

  lemma RecordSizes(data: seq<byte>, p: nat, e: IndexEntry)
    requires Packable(e) && p + 28 <= |data| && data[p..p + 28] == Words(RecordWords(e))
    ensures U32At(data, p + 16) == e.offset && U32At(data, p + 20) == e.compressedSize
    ensures U32At(data, p + 24) == e.uncompressedSize
  {
    var ws := RecordWords(e);
    WordAt(data, p, ws, 4);
    WordAt(data, p, ws, 5);
    WordAt(data, p, ws, 6);
  }

  /** A record read back gives the entry, when its file size has bit 31 clear and its instance fits 64 bits. */
  lemma EntryOfRecord(data: seq<byte>, p: nat, e: IndexEntry)
    requires Packable(e) && e.compressedSize < SIZE_MASK && e.instanceId < U64_LIMIT
    requires p + 32 <= |data| && data[p..p + 32] == RecordBytes(e)
    ensures EntryAt(data, p) == e
  {
    RecordParts(data, p, e);
    RecordIds(data, p, e);
    RecordSizes(data, p, e);
    U16AtOf(data, p + 28, e.compressionType);
    InstanceHalves(e.instanceId);
  }

  /** The k-th record of an index placed at p in data sits at p + 4 + 32k. */
  lemma RecordInIndex(data: seq<byte>, p: nat, es: seq<IndexEntry>, k: nat)
    requires p + 4 + 32 * |es| <= |data| && data[p..p + 4 + 32 * |es|] == IndexBytes(es) && k < |es|
    ensures data[p + 4 + 32 * k..p + 4 + 32 * k + 32] == RecordBytes(es[k])
  {
    var n := |es|;
    var lo := 4 + 32 * k;
    assert lo + 32 <= 4 + 32 * n;
    SliceOfSlice(data, p, p + 4 + 32 * n, lo, lo + 32);
    assert data[p + lo..p + lo + 32] == IndexBytes(es)[lo..lo + 32];
    SliceOfSecond(Enc(0, 4), RecordsBytes(es), 32 * k, 32 * k + 32);
    assert IndexBytes(es)[lo..lo + 32] == RecordsBytes(es)[32 * k..32 * k + 32];
    RecordsBytesAt(es, k);
  }

  lemma RecordRoundTrip(data: seq<byte>, p: nat, es: seq<IndexEntry>, k: nat)
    requires p + 4 + 32 * |es| <= |data| && data[p..p + 4 + 32 * |es|] == IndexBytes(es) && k < |es|
    requires Fits(es[k])
    ensures EntryAt(data, p + 4 + 32 * k) == es[k]
  {
    RecordInIndex(data, p, es, k);
    EntryOfRecord(data, p + 4 + 32 * k, es[k]);
  }

  /**
   * parse_index on a built index, wherever it sits in the file, gives back the
   * entries and stops right after the table, for entries whose file size has
   * bit 31 clear and whose instance id fits 64 bits.
   */
  lemma IndexRoundTrip(data: seq<byte>, p: nat, es: seq<IndexEntry>)
    requires p + 4 + 32 * |es| <= |data| && data[p..p + 4 + 32 * |es|] == IndexBytes(es)
    requires AllFit(es)
    ensures IndexSpec(data, p, |es|) == Success((es, if es == [] then p else p + 4 + 32 * |es|))
  {
    if |es| > 0 {
      IndexRoundTripNonEmpty(data, p, es);
    }
  }

  lemma IndexRoundTripNonEmpty(data: seq<byte>, p: nat, es: seq<IndexEntry>)
    requires p + 4 + 32 * |es| <= |data| && data[p..p + 4 + 32 * |es|] == IndexBytes(es)
    requires AllFit(es) && |es| > 0
    ensures IndexSpec(data, p, |es|) == Success((es, p + 4 + 32 * |es|))
  {
    FlagsOfIndex(data, p, es);
    RecordsOfIndex(data, p, es);
    FlatIndexOf(data, p, es);
  }

  /** A built index starts with a zero flags word. */
  lemma FlagsOfIndex(data: seq<byte>, p: nat, es: seq<IndexEntry>)
    requires p + 4 + 32 * |es| <= |data| && data[p..p + 4 + 32 * |es|] == IndexBytes(es)
    ensures NoConstantFlags(U32At(data, p))
  {
    SliceOfSlice(data, p, p + 4 + 32 * |es|, 0, 4);
    assert IndexBytes(es)[0..4] == Enc(0, 4);
    U32AtOf(data, p, 0);
    assert NoConstantFlags(0);
  }

  /** The records of a built index read back as its entries. */
  lemma RecordsOfIndex(data: seq<byte>, p: nat, es: seq<IndexEntry>)
    requires p + 4 + 32 * |es| <= |data| && data[p..p + 4 + 32 * |es|] == IndexBytes(es)
    requires AllFit(es)
    ensures Records(data, p + 4, |es|) == es
  {
    var recs := Records(data, p + 4, |es|);
    forall k | 0 <= k < |es|
      ensures recs[k] == es[k]
    {
      RecordRoundTrip(data, p, es, k);
    }
  }

  // ------------------------------------------------------------ the layout

  /** Concatenation regrouped: (a + b) + s == a + (b + s), named parts. */
  lemma Regroup3(all: seq<byte>, init: seq<byte>, a: seq<byte>, b: seq<byte>, s: seq<byte>, tail: seq<byte>)
    requires all == init + s && init == a + b && tail == b + s
    ensures all == a + tail
  {
  }

  /** The split of rs at k from the split of rs without its last resource. */
  lemma ChunksSplitStep(rs: seq<ResourceRecord>, z: Deflate, k: nat)
    requires k < |rs|
    requires var init := rs[..|rs| - 1]; Chunks(init, z) == Chunks(init[..k], z) + Chunks(init[k..], z)
    ensures Chunks(rs, z) == Chunks(rs[..k], z) + Chunks(rs[k..], z)
  {
    var init := rs[..|rs| - 1];
    var tail := rs[k..];
    assert init[..k] == rs[..k];
    assert tail[..|tail| - 1] == init[k..];
    assert tail[|tail| - 1] == rs[|rs| - 1];
    Regroup3(Chunks(rs, z), Chunks(init, z), Chunks(rs[..k], z), Chunks(init[k..], z),
             Stored(rs[|rs| - 1], z), Chunks(tail, z));
  }

  lemma {:induction false} ChunksSplit(rs: seq<ResourceRecord>, z: Deflate, k: nat)
    requires k <= |rs|
    ensures Chunks(rs, z) == Chunks(rs[..k], z) + Chunks(rs[k..], z)
    decreases |rs|
  {
    if k < |rs| {
      ChunksSplit(rs[..|rs| - 1], z, k);
      ChunksSplitStep(rs, z, k);
    } else {
      assert rs[..k] == rs;
      assert rs[k..] == [];
    }
  }

  lemma {:induction false} LayoutPrefix(rs: seq<ResourceRecord>, z: Deflate, k: nat)
    requires k <= |rs|
    ensures Layout(rs[..k], z) == Layout(rs, z)[..k]
    decreases |rs|
  {
    if k < |rs| {
      var init := rs[..|rs| - 1];
      assert init[..k] == rs[..k];
      LayoutPrefix(init, z, k);
      assert Layout(init, z)[..k] == Layout(rs, z)[..k];
    } else {
      assert rs[..k] == rs;
    }
  }

  /**
   * The k-th entry records the k-th resource: its ids, its stored length, its
   * data length and its codec, at 96 plus the stored lengths before it.
   */
  lemma {:induction false} LayoutEntry(rs: seq<ResourceRecord>, z: Deflate, k: nat)
    requires k < |rs|
    ensures var e := Layout(rs, z)[k];
      e.typeId == rs[k].typeId && e.groupId == rs[k].groupId && e.instanceId == rs[k].instanceId &&
      e.offset == HEADER_SIZE + |Chunks(rs[..k], z)| && e.compressedSize == |Stored(rs[k], z)| &&
      e.uncompressedSize == |rs[k].data| && e.compressionType == Codec(rs[k])
  {
    LayoutPrefix(rs, z, k + 1);
    assert rs[..k + 1][..k] == rs[..k];
  }

  lemma {:induction false} ChunksOne(res: ResourceRecord, z: Deflate)
    ensures Chunks([res], z) == Stored(res, z)
  {
    assert [res][..0] == [];
  }

  /** The k-th resource's stored bytes sit right after those of the resources before it. */
  lemma {:induction false} ChunkAt(rs: seq<ResourceRecord>, z: Deflate, k: nat)
    requires k < |rs|
    ensures var off := |Chunks(rs[..k], z)|;
      off + |Stored(rs[k], z)| <= |Chunks(rs, z)| && Chunks(rs, z)[off..off + |Stored(rs[k], z)|] == Stored(rs[k], z)
  {
    var a := Chunks(rs[..k], z);
    var s := Stored(rs[k], z);
    var rest := rs[k..];
    var b := Chunks(rest[1..], z);
    ChunksSplit(rs, z, k);
    ChunksSplit(rest, z, 1);
    assert rest[..1] == [rs[k]];
    ChunksOne(rs[k], z);
    assert Chunks(rs, z) == a + (s + b);
    assert a + (s + b) == a + s + b;
    MidOf(a, s, b);
  }

  // ------------------------------------------------------------ the file

  /** The stored data of every record fits the index fields. */
  predicate Writable(rs: seq<ResourceRecord>, z: Deflate)
  {
    var es := Layout(rs, z);
    (forall i :: 0 <= i < |es| ==> Packable(es[i])) &&
    |rs| < U32_LIMIT && HEADER_SIZE + |Chunks(rs, z)| < U32_LIMIT && 4 + 32 * |rs| < U32_LIMIT
  }

  /** Header, data and index for the given data and entries, as f.write emits them. */
  function FileBytes(c: seq<byte>, es: seq<IndexEntry>): (r: seq<byte>)
    ensures |r| == HEADER_SIZE + |c| + 4 + 32 * |es|
  {
    HeaderBytes(|es|, HEADER_SIZE + |c|, 4 + 32 * |es|) + c + IndexBytes(es)
  }

  /** The file write_package produces, or the struct.error it raises first. */
  function PackageBytes(rs: seq<ResourceRecord>, z: Deflate): (r: Result<seq<byte>, Error>)
    ensures r.Failure? ==> r.error == StructError
    ensures r.Success? ==> |r.value| == HEADER_SIZE + |Chunks(rs, z)| + 4 + 32 * |rs|
  {
    if !Writable(rs, z) then Failure(StructError)
    else
      Success(FileBytes(Chunks(rs, z), Layout(rs, z)))
  }

  /** path.with_suffix(path.suffix + ".bak"): the path with ".bak" appended; None (a ValueError) for an empty name. */
  function BackupPath(p: string): (r: Option<string>)
    ensures r.None? <==> Name(p) == []
    ensures r.Some? ==> r.value == p + ".bak"
  {
    if Name(p) == [] then None
    else
      AppendToSuffix(p, ".bak");
      WithSuffix(p, Suffix(Name(p)) + ".bak")
  }

  /** The files after the backup step, or the ValueError with_suffix raises. */
  function Backup(files: map<string, seq<byte>>, path: string, createBackup: bool): Result<map<string, seq<byte>>, Error>
  {
    if createBackup && path in files then
      match BackupPath(path)
      case None => Failure(ValueError)
      case Some(b) => Success(if b in files then files else files[b := files[path]])
    else Success(files)
  }

  /**
   * The backup step copies an existing target to its backup path only if no
   * backup exists; an existing backup, and every other file, is left as it was.
   */
  lemma BackupOnce(files: map<string, seq<byte>>, path: string, createBackup: bool)
    requires Name(path) != []
    ensures var r := Backup(files, path, createBackup);
      var b := path + ".bak";
      r.Success? &&
      (forall q :: q in files ==> q in r.value) &&
      (forall q :: q in r.value && q != b ==> q in files && r.value[q] == files[q]) &&
      (createBackup && path in files && b !in files ==> b in r.value && r.value[b] == files[path]) &&
      (b in files ==> r.value[b] == files[b]) &&
      (!createBackup || path !in files ==> r.value == files)
  {
  }

  /** entries, chunks and offset are what the layout loop holds after the first i resources. */
  ghost predicate LaidOut(rs: seq<ResourceRecord>, z: Deflate, i: nat, entries: seq<IndexEntry>, chunks: seq<seq<byte>>, offset: nat)
  {
    i <= |rs| && |chunks| == i &&
    entries == Layout(rs[..i], z) &&
    offset == HEADER_SIZE + |Chunks(rs[..i], z)| &&
    forall j :: 0 <= j < i ==> chunks[j] == Stored(rs[j], z)
  }

  /** The layout loop of write_package: entries, stored chunks and the running offset. */
  method LayOut(resources: seq<ResourceRecord>, z: Deflate)
    returns (entries: seq<IndexEntry>, dataChunks: seq<seq<byte>>, currentOffset: nat)
    ensures entries == Layout(resources, z)
    ensures |dataChunks| == |resources| && forall j :: 0 <= j < |resources| ==> dataChunks[j] == Stored(resources[j], z)
    ensures currentOffset == HEADER_SIZE + |Chunks(resources, z)|
  {
    entries := [];
    dataChunks := [];
    currentOffset := HEADER_SIZE;
    var i := 0;
    while i < |resources|
      invariant LaidOut(resources, z, i, entries, dataChunks, currentOffset)
    {
      entries, dataChunks, currentOffset := PlaceOne(resources, z, i, entries, dataChunks, currentOffset);
      i := i + 1;
    }
    assert resources[..i] == resources;
  }

  /** One turn of the layout loop: store the resource, record its entry at the running offset, advance. */
  method PlaceOne(rs: seq<ResourceRecord>, z: Deflate, i: nat, entries: seq<IndexEntry>, chunks: seq<seq<byte>>, offset: nat)
    returns (entries': seq<IndexEntry>, chunks': seq<seq<byte>>, offset': nat)
    requires i < |rs| && LaidOut(rs, z, i, entries, chunks, offset)
    ensures LaidOut(rs, z, i + 1, entries', chunks', offset')
  {
    var res := rs[i];
    var compressed, compressionType := StoreOne(res, z);
    LayoutStep(rs, z, i);
    entries' := entries + [IndexEntry(res.typeId, res.groupId, res.instanceId, offset,
                                      |compressed|, |res.data|, compressionType)];
    chunks' := chunks + [compressed];
    offset' := offset + |compressed|;
  }

  /** The stored bytes and the compression code of one resource. */
  method StoreOne(res: ResourceRecord, z: Deflate) returns (compressed: seq<byte>, compressionType: nat)
    ensures compressed == Stored(res, z) && compressionType == Codec(res)
  {
    if res.compress {
      var c := Compress(res.data, COMPRESSION_ZLIB, z);
      compressed := c.value;
      compressionType := COMPRESSION_ZLIB;
    } else {
      compressed := res.data;
      compressionType := COMPRESSION_NONE;
    }
  }

  /** One more resource extends the layout by its entry and the data by its stored chunk. */
  lemma {:induction false} LayoutStep(rs: seq<ResourceRecord>, z: Deflate, i: nat)
    requires i < |rs|
    ensures var res := rs[i];
      Layout(rs[..i + 1], z) == Layout(rs[..i], z) + [IndexEntry(res.typeId, res.groupId, res.instanceId,
        HEADER_SIZE + |Chunks(rs[..i], z)|, |Stored(res, z)|, |res.data|, Codec(res))]
    ensures Chunks(rs[..i + 1], z) == Chunks(rs[..i], z) + Stored(rs[i], z)
  {
    assert rs[..i + 1][..i] == rs[..i];
  }

  /** The backup step of write_package, on the file system. */
  method BackUp(fs: FileSystem, path: string, createBackup: bool) returns (r: Result<(), Error>)
    modifies fs
    ensures var backed := Backup(old(fs.files), path, createBackup);
      (backed.Failure? ==> r == Failure(backed.error) && fs.files == old(fs.files)) &&
      (backed.Success? ==> r == Success(()) && fs.files == backed.value)
  {
    if createBackup && path in fs.files {
      var backupPath := BackupPath(path);
      if backupPath.None? {
        return Failure(ValueError);
      }
      if backupPath.value !in fs.files {
        fs.Copy(path, backupPath.value);
      }
    }
    return Success(());
  }

  /** header followed by the chunks, in order: the bytes written before the index. */
  method JoinChunks(header: seq<byte>, dataChunks: seq<seq<byte>>, ghost rs: seq<ResourceRecord>, z: Deflate)
    returns (contents: seq<byte>)
    requires |dataChunks| == |rs| && forall j :: 0 <= j < |rs| ==> dataChunks[j] == Stored(rs[j], z)
    ensures contents == header + Chunks(rs, z)
  {
    contents := header;
    var k := 0;
    while k < |dataChunks|
      invariant 0 <= k <= |dataChunks|
      invariant contents == header + Chunks(rs[..k], z)
    {
      contents := contents + dataChunks[k];
      assert rs[..k + 1][..k] == rs[..k];
      k := k + 1;
    }
    assert rs[..k] == rs;
  }

  /**
   * The building part of write_package: the layout loop, the index, the
   * header, then header, chunks and index joined in that order.
   */
  method BuildPackage(resources: seq<ResourceRecord>, z: Deflate) returns (r: Result<seq<byte>, Error>)
    ensures r == PackageBytes(resources, z)
  {
    var entries, dataChunks, indexPosition := LayOut(resources, z);
    var indexData := BuildIndex(entries);
    if indexData.Failure? {
      return Failure(indexData.error);
    }
    var indexSize := |indexData.value|;
    var header := BuildHeader(|entries|, indexPosition, indexSize);
    if header.Failure? {
      return Failure(header.error);
    }
    var contents := JoinChunks(header.value, dataChunks, resources, z);
    return Success(contents + indexData.value);
  }

  /**
   * write_package: the backup step, then the build, then one write of the
   * built bytes to the target. A struct.error leaves the target as it was,
   * after the backup step.
   */
  method WritePackage(fs: FileSystem, path: string, resources: seq<ResourceRecord>, createBackup: bool, z: Deflate)
    returns (r: Result<(), Error>)
    modifies fs
    ensures var backed := Backup(old(fs.files), path, createBackup);
      (backed.Failure? ==> r == Failure(backed.error) && fs.files == old(fs.files)) &&
      (backed.Success? ==>
        var bytes := PackageBytes(resources, z);
        (bytes.Failure? ==> r == Failure(bytes.error) && fs.files == backed.value) &&
        (bytes.Success? ==> r == Success(()) && fs.files == backed.value[path := bytes.value]))
  {
    var _ :- BackUp(fs, path, createBackup);
    var contents :- BuildPackage(resources, z);
    fs.WriteFile(path, contents);
    return Success(());
  }

  // ------------------------------------------------------------ round trips

  /** A successful build is header, chunks and index, for records that fit. */
  lemma {:induction false} PackageBytesParts(rs: seq<ResourceRecord>, z: Deflate)
    requires PackageBytes(rs, z).Success?
    ensures Writable(rs, z)
    ensures PackageBytes(rs, z).value == FileBytes(Chunks(rs, z), Layout(rs, z))
  {
  }

  /** Opening header, data and index parses the header, then the index right after the data. */
  lemma OpenParts(h: seq<byte>, c: seq<byte>, es: seq<IndexEntry>, hdr: DBPFHeader)
    requires |h| == HEADER_SIZE && ParseHeader(h) == Success(hdr)
    requires hdr.indexPosition == HEADER_SIZE + |c| && hdr.entryCount == |es|
    requires AllFit(es)
    ensures OpenSpec(h + c + IndexBytes(es)) == Success((hdr, es))
  {
    var data := h + c + IndexBytes(es);
    assert data == h + (c + IndexBytes(es));
    SliceOfFirst(h, c + IndexBytes(es), 0, HEADER_SIZE);
    assert ReadAt(data, 0, HEADER_SIZE) == h;
    SliceOfSecond(h + c, IndexBytes(es), 0, 4 + 32 * |es|);
    assert IndexBytes(es)[0..4 + 32 * |es|] == IndexBytes(es);
    IndexRoundTrip(data, HEADER_SIZE + |c|, es);
  }

  /** Under the struct limits, every laid-out entry also reads back exactly. */
  lemma {:induction false} LayoutFits(rs: seq<ResourceRecord>, z: Deflate)
    requires Writable(rs, z)
    requires forall i :: 0 <= i < |rs| ==> |Stored(rs[i], z)| < SIZE_MASK && rs[i].instanceId < U64_LIMIT
    ensures AllFit(Layout(rs, z))
  {
    var es := Layout(rs, z);
    forall i | 0 <= i < |es|
      ensures Fits(es[i])
    {
      LayoutEntry(rs, z, i);
    }
  }

  /** A built header, any data, then a built index open to that header and those entries. */
  lemma OpenBuilt(c: seq<byte>, es: seq<IndexEntry>, hdr: DBPFHeader)
    requires |es| < U32_LIMIT && HEADER_SIZE + |c| < U32_LIMIT && 4 + 32 * |es| < U32_LIMIT
    requires AllFit(es)
    requires hdr == DBPFHeader(MAGIC, 2, 1, |es|, HEADER_SIZE + |c|, 4 + 32 * |es|)
    ensures OpenSpec(FileBytes(c, es)) == Success((hdr, es))
  {
    var n, p, s := |es|, HEADER_SIZE + |c|, 4 + 32 * |es|;
    var h := HeaderBytes(n, p, s);
    HeaderRoundTrip(n, p, s);
    OpenParts(h, c, es, hdr);
    assert FileBytes(c, es) == h + c + IndexBytes(es);
  }

  /**
   * Opening a written package gives a version 2.1 header with the entry
   * count, index position and index size written, and the laid-out entries,
   * when every stored size has bit 31 clear and every instance fits 64 bits.
   */
  lemma {:induction false} PackageRoundTrip(rs: seq<ResourceRecord>, z: Deflate)
    requires PackageBytes(rs, z).Success?
    requires forall i :: 0 <= i < |rs| ==> |Stored(rs[i], z)| < SIZE_MASK && rs[i].instanceId < U64_LIMIT
    ensures OpenSpec(PackageBytes(rs, z).value) ==
      Success((DBPFHeader(MAGIC, 2, 1, |rs|, HEADER_SIZE + |Chunks(rs, z)|, 4 + 32 * |rs|), Layout(rs, z)))
  {
    var c, es := Chunks(rs, z), Layout(rs, z);
    PackageBytesParts(rs, z);
    LayoutFits(rs, z);
    OpenBuilt(c, es, DBPFHeader(MAGIC, 2, 1, |rs|, HEADER_SIZE + |c|, 4 + 32 * |rs|));
  }

  /** Bytes that sit at off in the middle part of h + c + idx are read back from |h| + off. */
  lemma ReadInMiddle(h: seq<byte>, c: seq<byte>, idx: seq<byte>, off: nat, s: seq<byte>)
    requires off + |s| <= |c| && c[off..off + |s|] == s
    ensures ReadAt(h + c + idx, |h| + off, |s|) == s
  {
    var data := h + c + idx;
    assert data == h + (c + idx);
    SliceOfSecond(h, c + idx, off, off + |s|);
    SliceOfFirst(c, idx, off, off + |s|);
  }

  /** The k-th laid-out entry points at the k-th stored chunk, behind any 96-byte header. */
  lemma {:induction false} StoredAt(h: seq<byte>, rs: seq<ResourceRecord>, z: Deflate, idx: seq<byte>, k: nat)
    requires |h| == HEADER_SIZE && k < |rs|
    ensures var e := Layout(rs, z)[k];
      ReadAt(h + Chunks(rs, z) + idx, e.offset, e.compressedSize) == Stored(rs[k], z)
  {
    LayoutEntry(rs, z, k);
    ChunkAt(rs, z, k);
    ReadInMiddle(h, Chunks(rs, z), idx, |Chunks(rs[..k], z)|, Stored(rs[k], z));
  }

  /** Behind any 96-byte header, every laid-out resource extracts to its data. */
  lemma {:induction false} ExtractParts(h: seq<byte>, rs: seq<ResourceRecord>, z: Deflate, idx: seq<byte>, k: nat)
    requires |h| == HEADER_SIZE && Inverts(z) && k < |rs|
    ensures ExtractSpec(h + Chunks(rs, z) + idx, Layout(rs, z)[k], z) == Success(rs[k].data)
  {
    LayoutEntry(rs, z, k);
    StoredAt(h, rs, z, idx, k);
    CompressRoundTrip(rs[k].data, Codec(rs[k]), |rs[k].data|, z);
  }

  lemma {:induction false} ExtractFromFile(rs: seq<ResourceRecord>, z: Deflate, es: seq<IndexEntry>, k: nat)
    requires Inverts(z) && k < |rs|
    ensures ExtractSpec(FileBytes(Chunks(rs, z), es), Layout(rs, z)[k], z) == Success(rs[k].data)
  {
    var h := HeaderBytes(|es|, HEADER_SIZE + |Chunks(rs, z)|, 4 + 32 * |es|);
    ExtractParts(h, rs, z, IndexBytes(es), k);
  }

  /**
   * Every resource of a written package extracts to the data it was written
   * with, compressed or not, given a zlib whose inflate undoes its deflate.
   */
  lemma {:induction false} ExtractRoundTrip(rs: seq<ResourceRecord>, z: Deflate, k: nat)
    requires Inverts(z) && k < |rs| && PackageBytes(rs, z).Success?
    ensures ExtractSpec(PackageBytes(rs, z).value, Layout(rs, z)[k], z) == Success(rs[k].data)
  {
    PackageBytesParts(rs, z);
    ExtractFromFile(rs, z, Layout(rs, z), k);
  }
}
