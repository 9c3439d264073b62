/**
 * The DBPF index table (s4lt/core/index.py): a flags word, up to four constant
 * words selected by flag bits 0-3, then one record per entry. A record holds
 * the type, group, instance-high and instance-low words (each taken from its
 * constant when that constant is present and non-zero, otherwise read), then
 * offset, stored size (bit 31 masked off), memory size and a compression word
 * whose low 16 bits are the codec.
 *
 * ParseIndex reads the table from a BinaryFile the way parse_index does; the
 * functions IndexSpec, ParseEntries and ParseEntry give the same parse as a
 * function of the file contents and the starting position.
 */
module Index {
  import opened Bytes
  import opened Wrappers
  import opened Exceptions
  import opened Files

  const COMPRESSION_NONE: nat := 0x0000
  const COMPRESSION_ZLIB: nat := 0x5A42
  const COMPRESSION_REFPACK: nat := 0xFFFF
  const COMPRESSION_REFPACK_ALT: nat := 0xFFFE

  const SIZE_MASK: nat := 0x8000_0000   // file_size_raw & 0x7FFFFFFF keeps the value modulo 2^31

  /** A (type_id, group_id, instance_id) key. */
  type Tgi = (nat, nat, nat)

  datatype IndexEntry = IndexEntry(
    typeId: nat,
    groupId: nat,
    instanceId: nat,
    offset: nat,
    compressedSize: nat,
    uncompressedSize: nat,
    compressionType: nat)
  {
    predicate IsCompressed()
    {
      compressionType != COMPRESSION_NONE
    }

    function Tgi(): Tgi
    {
      (typeId, groupId, instanceId)
    }
  }

  /** flags & (1 << bit) != 0, for the four flag bits the index uses. */
  predicate FlagSet(flags: nat, bit: nat)
    requires bit < 4
  {
    (flags / [1, 2, 4, 8][bit]) % 2 == 1
  }

  /** (hi << 32) | lo for a 32-bit lo. */
  function CombineInstance(hi: nat, lo: nat): nat
  {
    hi * U32_LIMIT + lo
  }

  // ------------------------------------------------------------ specification

  /** _read_uint32: four bytes at pos, or CorruptedIndexError on a short read. */
  function ReadU32(data: seq<byte>, pos: nat): (r: Result<(nat, nat), Error>)
    ensures r.Success? <==> pos + 4 <= |data|
    ensures r.Success? ==> r.value == (U32At(data, pos), pos + 4)
    ensures r.Failure? ==> r.error == CorruptedIndexError
  {
    var b := ReadAt(data, pos, 4);
    if |b| < 4 then Failure(CorruptedIndexError) else Success((LE(b), pos + 4))
  }

  /** The bytes an id field takes in a record: none when a non-zero constant supplies it. */
  function Width(c: Option<nat>): nat
  {
    if c.Some? && c.value != 0 then 0 else 4
  }

  /** An id field at p can be had: from its constant, or from a whole word at p. */
  predicate Readable(data: seq<byte>, p: nat, c: Option<nat>)
  {
    Width(c) == 0 || p + 4 <= |data|
  }

  /** The value of an id field at p: the non-zero constant, or the word read there. */
  function FieldValue(data: seq<byte>, p: nat, c: Option<nat>): nat
    requires Readable(data, p, c)
  {
    if Width(c) == 0 then c.value else U32At(data, p)
  }

  /** `constants.get(name) or _read_uint32(file)`. */
  function Field(data: seq<byte>, pos: nat, c: Option<nat>): (r: Result<(nat, nat), Error>)
    ensures r.Success? <==> Readable(data, pos, c)
    ensures r.Success? ==> r.value == (FieldValue(data, pos, c), pos + Width(c))
    ensures r.Failure? ==> r.error == CorruptedIndexError
  {
    if c.Some? && c.value != 0 then Success((c.value, pos)) else ReadU32(data, pos)
  }

  /** The constants loop: one slot per flag bit, read in bit order. */
  function ReadConstants(data: seq<byte>, pos: nat, flags: nat, bit: nat, acc: seq<Option<nat>>)
    : (r: Result<(seq<Option<nat>>, nat), Error>)
    requires bit <= 4 && |acc| == bit
    ensures r.Success? ==> |r.value.0| == 4
    decreases 4 - bit
  {
    if bit == 4 then Success((acc, pos))
    else if FlagSet(flags, bit) then
      var w :- ReadU32(data, pos);
      ReadConstants(data, w.1, flags, bit + 1, acc + [Some(w.0)])
    else
      ReadConstants(data, pos, flags, bit + 1, acc + [None])
  }

  /**
   * One index record read from pos: the four id fields in order (each a
   * non-zero constant or a word), then offset, stored size, memory size and
   * the compression word. The reads run on from one another, and a record
   * that runs past the end of the data is a CorruptedIndexError wherever it
   * is cut short.
   */
  function ParseEntry(data: seq<byte>, pos: nat, consts: seq<Option<nat>>): (r: Result<(IndexEntry, nat), Error>)
    requires |consts| == 4
    ensures r.Failure? ==> r.error == CorruptedIndexError
  {
    var p1 := pos + Width(consts[0]);
    var p2 := p1 + Width(consts[1]);
    var p3 := p2 + Width(consts[2]);
    var p4 := p3 + Width(consts[3]);
    if p4 + 16 > |data| then Failure(CorruptedIndexError)
    else
      Success((IndexEntry(FieldValue(data, pos, consts[0]), FieldValue(data, p1, consts[1]),
                          CombineInstance(FieldValue(data, p2, consts[2]), FieldValue(data, p3, consts[3])),
                          U32At(data, p4), U32At(data, p4 + 4) % SIZE_MASK, U32At(data, p4 + 8), U16At(data, p4 + 12)),
               p4 + 16))
  }

  /** n more records, appended to acc. */
  function ParseEntries(data: seq<byte>, pos: nat, consts: seq<Option<nat>>, n: nat, acc: seq<IndexEntry>)
    : Result<(seq<IndexEntry>, nat), Error>
    requires |consts| == 4
    decreases n
  {
    if n == 0 then Success((acc, pos))
    else
      var e :- ParseEntry(data, pos, consts);
      ParseEntries(data, e.1, consts, n - 1, acc + [e.0])
  }

  /** The rest of parse_index after the flags word: the constants, then the entries. */
  function TableSpec(data: seq<byte>, pos: nat, flags: nat, entryCount: nat): Result<(seq<IndexEntry>, nat), Error>
  {
    var c :- ReadConstants(data, pos, flags, 0, []);
    ParseEntries(data, c.1, c.0, entryCount, [])
  }

  /** parse_index as a function: the entries and the position after the table. */
  function IndexSpec(data: seq<byte>, pos: nat, entryCount: nat): Result<(seq<IndexEntry>, nat), Error>
  {
    if entryCount == 0 then Success(([], pos))
    else
      var f := ReadAt(data, pos, 4);
      if |f| < 4 then Failure(CorruptedIndexError)
      else TableSpec(data, pos + 4, LE(f), entryCount)
  }

  // ------------------------------------------------------------ the reader

  /**
   * A read that ends at pos with result r did what the function s describes:
   * the same value and end position on success, the same error on failure.
   */
  predicate Mirrors<T(==)>(r: Result<T, Error>, pos: nat, s: Result<(T, nat), Error>)
  {
    (s.Success? ==> r == Success(s.value.0) && pos == s.value.1) && (s.Failure? ==> r == Failure(s.error))
  }

  /** _read_uint32. */
  method ReadUint32(file: BinaryFile) returns (r: Result<nat, Error>)
    requires !file.closed
    modifies file`pos
    ensures Mirrors(r, file.pos, ReadU32(file.data, old(file.pos)))
  {
    var b := file.Read(4);
    if |b| < 4 {
      return Failure(CorruptedIndexError);
    }
    return Success(LE(b));
  }

  method ReadField(file: BinaryFile, c: Option<nat>) returns (r: Result<nat, Error>)
    requires !file.closed
    modifies file`pos
    ensures Mirrors(r, file.pos, Field(file.data, old(file.pos), c))
  {
    if c.Some? && c.value != 0 {
      return Success(c.value);
    }
    r := ReadUint32(file);
  }

  /** The body of the per-entry loop. */
  method ReadEntry(file: BinaryFile, consts: seq<Option<nat>>) returns (r: Result<IndexEntry, Error>)
    requires !file.closed && |consts| == 4
    modifies file`pos
    ensures Mirrors(r, file.pos, ParseEntry(file.data, old(file.pos), consts))
  {
    var ids :- ReadIds(file, consts);
    var sizes :- ReadSizes(file);
    return Success(IndexEntry(ids.0, ids.1, CombineInstance(ids.2, ids.3), sizes.0, sizes.1, sizes.2, sizes.3));
  }

  /** The four id fields of a record: type, group, instance high and low words. */
  method ReadIds(file: BinaryFile, consts: seq<Option<nat>>) returns (r: Result<(nat, nat, nat, nat), Error>)
    requires !file.closed && |consts| == 4
    modifies file`pos
    ensures var p1 := old(file.pos) + Width(consts[0]);
      var p2 := p1 + Width(consts[1]);
      var p3 := p2 + Width(consts[2]);
      var p4 := p3 + Width(consts[3]);
      (r.Failure? ==> r.error == CorruptedIndexError && p4 > |file.data|) &&
      (r.Success? ==>
        file.pos == p4 && Readable(file.data, old(file.pos), consts[0]) && Readable(file.data, p1, consts[1]) &&
        Readable(file.data, p2, consts[2]) && Readable(file.data, p3, consts[3]) &&
        r.value == (FieldValue(file.data, old(file.pos), consts[0]), FieldValue(file.data, p1, consts[1]),
                    FieldValue(file.data, p2, consts[2]), FieldValue(file.data, p3, consts[3])))
  {
    var typeId :- ReadField(file, consts[0]);
    var groupId :- ReadField(file, consts[1]);
    var instanceHi :- ReadField(file, consts[2]);
    var instanceLo :- ReadField(file, consts[3]);
    return Success((typeId, groupId, instanceHi, instanceLo));
  }

  /** The fixed 16-byte part of a record: offset, size with bit 31 masked off, size, compression code. */
  method ReadSizes(file: BinaryFile) returns (r: Result<(nat, nat, nat, nat), Error>)
    requires !file.closed
    modifies file`pos
    ensures var p := old(file.pos);
      (r.Failure? ==> r.error == CorruptedIndexError && p + 16 > |file.data|) &&
      (r.Success? ==>
        p + 16 <= |file.data| && file.pos == p + 16 &&
        r.value == (U32At(file.data, p), U32At(file.data, p + 4) % SIZE_MASK, U32At(file.data, p + 8), U16At(file.data, p + 12)))
  {
    var offset :- ReadUint32(file);
    var fileSizeRaw :- ReadUint32(file);
    var compressedSize := fileSizeRaw % SIZE_MASK;
    var uncompressedSize :- ReadUint32(file);
    ghost var cpos := file.pos;
    var compressionData := file.Read(4);
    if |compressionData| < 4 {
      return Failure(CorruptedIndexError);
    }
    assert compressionData[..2] == file.data[cpos..cpos + 2];
    var compressionType := LE(compressionData[..2]);
    return Success((offset, compressedSize, uncompressedSize, compressionType));
  }

  /** The loop over the four flag bits, reading one constant per set bit. */
  method ReadConstantWords(file: BinaryFile, flags: nat) returns (r: Result<seq<Option<nat>>, Error>)
    requires !file.closed
    modifies file`pos
    ensures Mirrors(r, file.pos, ReadConstants(file.data, old(file.pos), flags, 0, []))
  {
    ghost var goal := ReadConstants(file.data, file.pos, flags, 0, []);
    var constants: seq<Option<nat>> := [];
    var bit := 0;
    while bit < 4
      invariant 0 <= bit <= 4 && |constants| == bit
      invariant ReadConstants(file.data, file.pos, flags, bit, constants) == goal
    {
      var c := ReadSlot(file, flags, bit, constants);
      if c.Failure? {
        return Failure(c.error);
      }
      constants := constants + [c.value];
      bit := bit + 1;
    }
    return Success(constants);
  }

  /** One turn of the constants loop: a word when the bit is set, no constant otherwise. */
  method ReadSlot(file: BinaryFile, flags: nat, bit: nat, ghost acc: seq<Option<nat>>) returns (c: Result<Option<nat>, Error>)
    requires !file.closed && bit < 4 && |acc| == bit
    modifies file`pos
    ensures var s := ReadConstants(file.data, old(file.pos), flags, bit, acc);
      (c.Failure? ==> s == Failure(c.error)) &&
      (c.Success? ==> s == ReadConstants(file.data, file.pos, flags, bit + 1, acc + [c.value]))
  {
    ReadConstantsStep(file.data, file.pos, flags, bit, acc);
    if FlagSet(flags, bit) {
      var constData := file.Read(4);
      if |constData| < 4 {
        return Failure(CorruptedIndexError);
      }
      return Success(Some(LE(constData)));
    }
    return Success(None);
  }

  /** One turn of the constants loop, as ReadConstants takes it. */
  lemma ReadConstantsStep(data: seq<byte>, pos: nat, flags: nat, bit: nat, acc: seq<Option<nat>>)
    requires bit < 4 && |acc| == bit
    ensures var r := ReadConstants(data, pos, flags, bit, acc);
      (FlagSet(flags, bit) && pos + 4 > |data| ==> r == Failure(CorruptedIndexError)) &&
      (FlagSet(flags, bit) && pos + 4 <= |data| ==> r == ReadConstants(data, pos + 4, flags, bit + 1, acc + [Some(U32At(data, pos))])) &&
      (!FlagSet(flags, bit) ==> r == ReadConstants(data, pos, flags, bit + 1, acc + [None]))
  {
  }

  /** The loop over the entries, each read by ReadEntry and appended in stream order. */
  method ReadEntries(file: BinaryFile, constants: seq<Option<nat>>, entryCount: nat) returns (r: Result<seq<IndexEntry>, Error>)
    requires !file.closed && |constants| == 4
    modifies file`pos
    ensures Mirrors(r, file.pos, ParseEntries(file.data, old(file.pos), constants, entryCount, []))
  {
    ghost var goal := ParseEntries(file.data, file.pos, constants, entryCount, []);
    var entries: seq<IndexEntry> := [];
    var left := entryCount;
    while left > 0
      invariant ParseEntries(file.data, file.pos, constants, left, entries) == goal
    {
      var e := ReadNext(file, constants, left, entries);
      if e.Failure? {
        return Failure(e.error);
      }
      entries := entries + [e.value];
      left := left - 1;
    }
    ParseEntriesDone(file.data, file.pos, constants, left, entries);
    return Success(entries);
  }

  /** ReadEntry as one turn of the entry loop: what is left of the parse after it. */
  method ReadNext(file: BinaryFile, constants: seq<Option<nat>>, ghost n: nat, ghost entries: seq<IndexEntry>)
    returns (e: Result<IndexEntry, Error>)
    requires !file.closed && |constants| == 4 && n > 0
    modifies file`pos
    ensures var s := ParseEntries(file.data, old(file.pos), constants, n, entries);
      (e.Failure? ==> s == Failure(e.error)) &&
      (e.Success? ==> s == ParseEntries(file.data, file.pos, constants, n - 1, entries + [e.value]))
  {
    ParseEntriesStep(file.data, file.pos, constants, n, entries);
    e := ReadEntry(file, constants);
  }

  lemma {:induction false} ParseEntriesDone(data: seq<byte>, pos: nat, consts: seq<Option<nat>>, n: nat, acc: seq<IndexEntry>)
    requires |consts| == 4 && n == 0
    ensures ParseEntries(data, pos, consts, n, acc) == Success((acc, pos))
  {
  }

  /** One turn of the entry loop, as ParseEntries takes it. */
  lemma ParseEntriesStep(data: seq<byte>, pos: nat, consts: seq<Option<nat>>, n: nat, acc: seq<IndexEntry>)
    requires |consts| == 4 && n > 0
    ensures var e := ParseEntry(data, pos, consts);
      (e.Failure? ==> ParseEntries(data, pos, consts, n, acc) == Failure(e.error)) &&
      (e.Success? ==> ParseEntries(data, pos, consts, n, acc) == ParseEntries(data, e.value.1, consts, n - 1, acc + [e.value.0]))
  {
  }

  /** parse_index: the file is positioned at the start of the table. */
  method ParseIndex(file: BinaryFile, entryCount: nat) returns (r: Result<seq<IndexEntry>, Error>)
    requires !file.closed
    modifies file`pos
    ensures Mirrors(r, file.pos, IndexSpec(file.data, old(file.pos), entryCount))
  {
    if entryCount == 0 {
      EmptyIndex(file.data, file.pos);
      return Success([]);
    }
    ghost var start := file.pos;
    var flagsData := file.Read(4);
    if |flagsData| < 4 {
      ShortIndex(file.data, start, entryCount);
      return Failure(CorruptedIndexError);
    }
    var flags := LE(flagsData);
    assert file.pos == start + 4 && flags == U32At(file.data, start);
    IndexSpecTable(file.data, start, entryCount);
    r := ReadTable(file, flags, entryCount);
  }

  /** The constants and entries after the flags word, read from the file. */
  method ReadTable(file: BinaryFile, flags: nat, entryCount: nat) returns (r: Result<seq<IndexEntry>, Error>)
    requires !file.closed
    modifies file`pos
    ensures Mirrors(r, file.pos, TableSpec(file.data, old(file.pos), flags, entryCount))
  {
    var constants := ReadConstantWords(file, flags);
    if constants.Failure? {
      return Failure(constants.error);
    }
    r := ReadEntries(file, constants.value, entryCount);
  }

  /** A table cut short inside its flags word is corrupted. */
  lemma ShortIndex(data: seq<byte>, pos: nat, entryCount: nat)
    requires entryCount > 0 && |ReadAt(data, pos, 4)| < 4
    ensures IndexSpec(data, pos, entryCount) == Failure(CorruptedIndexError)
  {
  }

  /** A table with a complete flags word: its constants, then its entries. */
  lemma IndexSpecTable(data: seq<byte>, pos: nat, entryCount: nat)
    requires entryCount > 0 && pos + 4 <= |data|
    ensures IndexSpec(data, pos, entryCount) == TableSpec(data, pos + 4, U32At(data, pos), entryCount)
  {
  }

  // ------------------------------------------------------------ properties

  lemma {:induction false} ReadConstantsError(data: seq<byte>, pos: nat, flags: nat, bit: nat, acc: seq<Option<nat>>)
    requires bit <= 4 && |acc| == bit
    ensures ReadConstants(data, pos, flags, bit, acc).Failure? ==>
      ReadConstants(data, pos, flags, bit, acc).error == CorruptedIndexError
    decreases 4 - bit
  {
    if bit < 4 {
      if FlagSet(flags, bit) {
        if pos + 4 <= |data| {
          ReadConstantsError(data, pos + 4, flags, bit + 1, acc + [Some(U32At(data, pos))]);
        }
      } else {
        ReadConstantsError(data, pos, flags, bit + 1, acc + [None]);
      }
    }
  }

  lemma {:induction false} ParseEntriesError(data: seq<byte>, pos: nat, consts: seq<Option<nat>>, n: nat, acc: seq<IndexEntry>)
    requires |consts| == 4
    ensures ParseEntries(data, pos, consts, n, acc).Failure? ==>
      ParseEntries(data, pos, consts, n, acc).error == CorruptedIndexError
    decreases n
  {
    if n > 0 {
      var e := ParseEntry(data, pos, consts);
      if e.Success? {
        ParseEntriesError(data, e.value.1, consts, n - 1, acc + [e.value.0]);
      }
    }
  }

  /** Every way the index can fail to parse is a CorruptedIndexError. */
  lemma IndexErrorIsCorruptedIndex(data: seq<byte>, pos: nat, entryCount: nat)
    ensures IndexSpec(data, pos, entryCount).Failure? ==> IndexSpec(data, pos, entryCount).error == CorruptedIndexError
  {
    if entryCount > 0 && pos + 4 <= |data| {
      var f := ReadAt(data, pos, 4);
      ReadConstantsError(data, pos + 4, LE(f), 0, []);
      var c := ReadConstants(data, pos + 4, LE(f), 0, []);
      if c.Success? {
        ParseEntriesError(data, c.value.1, c.value.0, entryCount, []);
      }
    }
  }

  lemma {:induction false} ParseEntriesLength(data: seq<byte>, pos: nat, consts: seq<Option<nat>>, n: nat, acc: seq<IndexEntry>)
    requires |consts| == 4
    ensures var r := ParseEntries(data, pos, consts, n, acc);
      r.Success? ==> |r.value.0| == |acc| + n && r.value.0[..|acc|] == acc
    decreases n
  {
    if n > 0 {
      var e := ParseEntry(data, pos, consts);
      if e.Success? {
        ParseEntriesLength(data, e.value.1, consts, n - 1, acc + [e.value.0]);
        var r := ParseEntries(data, pos, consts, n, acc);
        if r.Success? {
          assert r.value.0[..|acc|] == (r.value.0[..|acc| + 1])[..|acc|];
        }
      }
    }
  }

  /** A successful parse yields exactly entryCount entries. */
  lemma IndexLength(data: seq<byte>, pos: nat, entryCount: nat)
    ensures IndexSpec(data, pos, entryCount).Success? ==> |IndexSpec(data, pos, entryCount).value.0| == entryCount
  {
    if entryCount > 0 && pos + 4 <= |data| {
      var f := ReadAt(data, pos, 4);
      var c := ReadConstants(data, pos + 4, LE(f), 0, []);
      if c.Success? {
        ParseEntriesLength(data, c.value.1, c.value.0, entryCount, []);
      }
    }
  }

  /** An index with no entries reads nothing and yields no entries. */
  lemma EmptyIndex(data: seq<byte>, pos: nat)
    ensures IndexSpec(data, pos, 0) == Success(([], pos))
  {
  }

  // With flag bits 0-3 clear, every record is 32 bytes at a fixed stride.

  const NO_CONSTANTS: seq<Option<nat>> := [None, None, None, None]

  predicate NoConstantFlags(flags: nat)
  {
    forall bit :: 0 <= bit < 4 ==> !FlagSet(flags, bit)
  }

  /** The record at p when no field is a constant. */
  function EntryAt(data: seq<byte>, p: nat): IndexEntry
    requires p + 32 <= |data|
  {
    IndexEntry(
      U32At(data, p), U32At(data, p + 4), CombineInstance(U32At(data, p + 8), U32At(data, p + 12)),
      U32At(data, p + 16), U32At(data, p + 20) % SIZE_MASK, U32At(data, p + 24), U16At(data, p + 28))
  }

  /** n records at a 32-byte stride from p. */
  function Records(data: seq<byte>, p: nat, n: nat): (r: seq<IndexEntry>)
    requires p + 32 * n <= |data|
    ensures |r| == n
  {
    seq(n, k requires 0 <= k < n => EntryAt(data, p + 32 * k))
  }

  lemma {:induction false} ReadConstantsNone(data: seq<byte>, pos: nat, flags: nat)
    requires NoConstantFlags(flags)
    ensures ReadConstants(data, pos, flags, 0, []) == Success((NO_CONSTANTS, pos))
  {
    assert !FlagSet(flags, 0) && !FlagSet(flags, 1) && !FlagSet(flags, 2) && !FlagSet(flags, 3);
    var e: seq<Option<nat>> := [];
    var n1: seq<Option<nat>> := [None];
    var n2: seq<Option<nat>> := [None, None];
    var n3: seq<Option<nat>> := [None, None, None];
    assert e + [None] == n1 && n1 + [None] == n2 && n2 + [None] == n3 && n3 + [None] == NO_CONSTANTS;
    assert ReadConstants(data, pos, flags, 0, []) == ReadConstants(data, pos, flags, 1, [None]);
    assert ReadConstants(data, pos, flags, 1, [None]) == ReadConstants(data, pos, flags, 2, [None, None]);
    assert ReadConstants(data, pos, flags, 2, [None, None]) == ReadConstants(data, pos, flags, 3, [None, None, None]);
    assert ReadConstants(data, pos, flags, 3, [None, None, None]) == ReadConstants(data, pos, flags, 4, NO_CONSTANTS);
  }

  lemma ParseEntryFlat(data: seq<byte>, p: nat)
    ensures p + 32 <= |data| ==> ParseEntry(data, p, NO_CONSTANTS) == Success((EntryAt(data, p), p + 32))
    ensures p + 32 > |data| ==> ParseEntry(data, p, NO_CONSTANTS) == Failure(CorruptedIndexError)
  {
    if p + 32 <= |data| {
      var comp := ReadAt(data, p + 28, 4);
      assert comp[..2] == data[p + 28..p + 30];
    }
  }

  lemma RecordsCons(data: seq<byte>, p: nat, n: nat)
    requires n > 0 && p + 32 * n <= |data|
    ensures [EntryAt(data, p)] + Records(data, p + 32, n - 1) == Records(data, p, n)
  {
    var a := [EntryAt(data, p)] + Records(data, p + 32, n - 1);
    var b := Records(data, p, n);
    forall k | 0 <= k < n ensures a[k] == b[k] {
      if k > 0 {
        assert a[k] == EntryAt(data, p + 32 + 32 * (k - 1));
      }
    }
  }

  lemma {:induction false} ParseEntriesFlat(data: seq<byte>, p: nat, n: nat, acc: seq<IndexEntry>)
    requires p + 32 * n <= |data|
    ensures ParseEntries(data, p, NO_CONSTANTS, n, acc) == Success((acc + Records(data, p, n), p + 32 * n))
    decreases n
  {
    if n > 0 {
      ParseEntriesFlat(data, p + 32, n - 1, acc + [EntryAt(data, p)]);
      ParseEntriesFlatStep(data, p, n, acc);
    } else {
      assert acc + Records(data, p, 0) == acc;
    }
  }

  /** One record read ahead of the rest. */
  lemma ParseEntriesFlatStep(data: seq<byte>, p: nat, n: nat, acc: seq<IndexEntry>)
    requires n > 0 && p + 32 * n <= |data|
    requires var e := EntryAt(data, p);
      ParseEntries(data, p + 32, NO_CONSTANTS, n - 1, acc + [e]) == Success((acc + [e] + Records(data, p + 32, n - 1), p + 32 * n))
    ensures ParseEntries(data, p, NO_CONSTANTS, n, acc) == Success((acc + Records(data, p, n), p + 32 * n))
  {
    var e := EntryAt(data, p);
    ParseEntryFlat(data, p);
    RecordsCons(data, p, n);
    assert acc + [e] + Records(data, p + 32, n - 1) == acc + ([e] + Records(data, p + 32, n - 1));
  }

  lemma {:induction false} ParseEntriesFlatShort(data: seq<byte>, p: nat, n: nat, acc: seq<IndexEntry>)
    requires n > 0 && p + 32 * n > |data|
    ensures ParseEntries(data, p, NO_CONSTANTS, n, acc) == Failure(CorruptedIndexError)
    decreases n
  {
    ParseEntryFlat(data, p);
    if p + 32 <= |data| {
      ParseEntriesFlatShort(data, p + 32, n - 1, acc + [EntryAt(data, p)]);
    }
  }

  /**
   * With no constant flags, an index of n > 0 entries parses exactly when the
   * flags word and n 32-byte records are present, and the k-th entry is the
   * record at pos + 4 + 32k; otherwise it is a CorruptedIndexError.
   */
  lemma FlatIndex(data: seq<byte>, pos: nat, n: nat)
    requires n > 0 && pos + 4 <= |data| && NoConstantFlags(U32At(data, pos))
    ensures pos + 4 + 32 * n <= |data| ==> IndexSpec(data, pos, n) == Success((Records(data, pos + 4, n), pos + 4 + 32 * n))
    ensures pos + 4 + 32 * n > |data| ==> IndexSpec(data, pos, n) == Failure(CorruptedIndexError)
  {
    ReadConstantsNone(data, pos + 4, U32At(data, pos));
    if pos + 4 + 32 * n <= |data| {
      ParseEntriesFlat(data, pos + 4, n, []);
      assert [] + Records(data, pos + 4, n) == Records(data, pos + 4, n);
    } else {
      ParseEntriesFlatShort(data, pos + 4, n, []);
    }
  }

  /** With no constant flags and all records present, the index parses to the records read. */
  lemma FlatIndexOf(data: seq<byte>, pos: nat, es: seq<IndexEntry>)
    requires |es| > 0 && pos + 4 + 32 * |es| <= |data| && NoConstantFlags(U32At(data, pos))
    requires Records(data, pos + 4, |es|) == es
    ensures IndexSpec(data, pos, |es|) == Success((es, pos + 4 + 32 * |es|))
  {
    ReadConstantsNone(data, pos + 4, U32At(data, pos));
    ParseEntriesFlat(data, pos + 4, |es|, []);
    assert [] + es == es;
  }

  /** A constant whose value is 0 is treated as absent: the field is read from every record. */
  lemma ZeroConstantIsRead(data: seq<byte>, pos: nat, consts: seq<Option<nat>>, k: nat)
    requires |consts| == 4 && k < 4 && consts[k] == Some(0)
    ensures ParseEntry(data, pos, consts) == ParseEntry(data, pos, consts[k := None])
  {
    assert Width(Some(0)) == Width(None) == 4;
  }

  /**
   * With flag bit 0 set, a record is 28 bytes and carries the constant type
   * when the constant is non-zero, but is 32 bytes with the type read from
   * the record when the constant is zero.
   */
  lemma TypeConstantWidth(data: seq<byte>, p: nat, c: nat)
    requires p + 32 <= |data|
    ensures var e := ParseEntry(data, p, [Some(c), None, None, None]);
      e.Success? && e.value.1 == p + (if c == 0 then 32 else 28) &&
      e.value.0.typeId == (if c == 0 then U32At(data, p) else c)
  {
  }
}
