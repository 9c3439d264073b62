# s4lt DBPF engine — a Dafny model

This project models the core of s4lt, a toolkit for The Sims 4 mods. At its centre is the engine for DBPF 2.1 package files.

**Container engine**
- A package starts with a 96-byte **header**: the magic `DBPF`, major version 2, and little-endian u32 fields giving the entry count, the index size and the index position.
- The **index** comes next. It is a flags word whose low four bits mark header-constant key fields, followed by 32-byte records. Each record holds:
  - a type, a group and a 64-bit instance id built from two u32 halves;
  - an offset;
  - a file size with bit 31 masked off;
  - a memory size;
  - a u16 compression code.
- A **resource** is a lazily extracted, write-once cached view of one index entry.
- A **package** is the read API: open, lookup by type and by instance, length, version and close.
- **Compression** dispatches between stored data, RefPack and zlib. RefPack is an LZ77-family format with five command-byte ranges and backreferences that may overlap the output being written. zlib is raw DEFLATE behind a two-byte prefix.
- The **writer** lays out the header, then the resource data at sequential offsets, then the index. It applies a backup-once rule.
- The **types** table maps type ids to names.

**Algorithms over resource lists**
- The **edit session** logs add, update and delete changes and replays them on save. A registry keeps one session per path.
- The **STBL** string-table codec comes in a binary form and a text form.
- **merge** is keyed by type/group/instance (TGI). The last occurrence wins unless a per-TGI resolution names a path.
- **split** partitions resources by type or by group. extract_all writes one file per resource.
- The **categorizer** decides a package's category and subcategory.
- The **detector** groups TGI collisions, assigns each a severity and sorts them stably by severity. It also detects script conflicts and offers resolution options.
- **mods/conflicts** clusters colliding mods as the connected components of a graph.
- The **CC tracker** finds custom-content TGIs in tray files with a sliding window and summarises them.
- The **.trayitem** metadata parser reads a tray item's name and type.
- **Thumbnail** extraction searches for image signatures.
- The **mod scanner** sorts files into new, modified and deleted.
- The **sorter** takes a creator name from a file name.
- **format_path** truncates a path for display.

**Modelling approach**
- Files are byte sequences read through a cursor class (`Files.BinaryFile`). The file system is a map from path to contents (`Files.FileSystem`).
- Parsers that advance a cursor are methods. Each is proved equal to a specification function, and the promised properties are proved about that function as lemmas.

**Where the model follows the code**
- A medium RefPack backreference (command bytes C0-DF) copies 4 to 11 bytes. The code computes `((cmd >> 2) & 0x0F) + 4`, while its comment says 4 to 67; the model follows the code.
- If a constant flagged in the index flags word has the value 0, it fails the `or` test in index.py and is read per entry instead. The model keeps this, and `Index.ZeroConstantIsRead` exhibits it.
- In the STBL parser, the record guard checks 6 bytes but 7 are read. A record with exactly 6 bytes left therefore raises the struct error rather than the STBL error. `Stbl.SixBytesLeft` exhibits it.
- `categorize_package` can never produce "mixed": that branch is unreachable, and `Categorizer.Category` states it.

## Model

| member | source | states |
|---|---|---|
| Header.ParseHeader | s4lt/core/header.py:31-73 | fewer than 96 bytes or a magic other than "DBPF" is exactly the InvalidMagicError case; a good magic with major version other than 2 is exactly UnsupportedVersionError; on success magic is "DBPF", major is 2 and minor, entry count, index size and index position are the little-endian u32 words at offsets 8, 36, 44 and 64, each below 2^32 |
| Header.ParseHeaderReadsOnlyFields | s4lt/core/header.py:44-73 | two blocks of at least 96 bytes that agree on bytes 0-11, 36-39, 44-47 and 64-67 parse to the same result: no other byte is read |
| Types.GetTypeName | s4lt/core/types.py:44-53 | the lookup is total and always yields a non-empty name |
| Types.KnownNamesHaveNoUnknownPrefix | s4lt/core/types.py:5-41 | no table name starts with "Unknown_" |
| Types.KnownNamesDistinct | s4lt/core/types.py:5-41 | the table names no two ids alike |
| Types.KnownTypeName | s4lt/core/types.py:53 | a known id is named by its table entry, never by a fallback name |
| Types.UnknownTypeName | s4lt/core/types.py:53 | an unknown id below 2^32 is named "Unknown_" plus 8 upper-case hex digits, 16 characters in all, and those digits read back as the id |
| Types.TypeNameInjective | s4lt/core/types.py:44-53 | different ids always get different names |
| Index.ReadU32 | s4lt/core/index.py:113-118 | succeeds exactly when four bytes remain at the cursor, giving the little-endian word there and the cursor four bytes on; a short read is CorruptedIndexError |
| Index.Field | s4lt/core/index.py:75-78 | an id field comes from its constant, without reading, exactly when the constant is present and non-zero; otherwise it is the word at the cursor, and a short read is CorruptedIndexError |
| Index.ParseEntry | s4lt/core/index.py:73-105 | every way a record can fail is CorruptedIndexError |
| Index.ReadUint32 | s4lt/core/index.py:113-118 | reading from the file agrees with ReadU32: same value, same error, cursor where ReadU32 puts it |
| Index.ReadField | s4lt/core/index.py:75-78 | reading from the file agrees with Field |
| Index.ReadEntry | s4lt/core/index.py:73-105 | one turn of the entry loop agrees with ParseEntry on the file contents and cursor |
| Index.ReadIds | s4lt/core/index.py:75-78 | the four id fields are read in order type, group, instance high, instance low, and each takes 4 bytes unless a non-zero constant supplies it; a short read is CorruptedIndexError |
| Index.ReadSizes | s4lt/core/index.py:80-92 | offset, stored size with bit 31 cleared, memory size, then the low 16 bits of the compression word; the padding half is ignored and the record's fixed part is 16 bytes |
| Index.ReadConstantWords | s4lt/core/index.py:60-69 | the constants loop agrees with ReadConstants: a word per set flag bit, in bit order |
| Index.ReadSlot | s4lt/core/index.py:64-69 | one bit of the constants loop: a word when the bit is set, none otherwise, and a short constant is CorruptedIndexError |
| Index.ReadEntries | s4lt/core/index.py:71-107 | the entry loop agrees with ParseEntries: entries appended in stream order, stopping at the first error |
| Index.ParseIndex | s4lt/core/index.py:34-110 | parse_index on a file agrees with IndexSpec on its contents and cursor: same entries, same error, same position after the table |
| Index.ReadTable | s4lt/core/index.py:60-107 | after the flags word, the file read agrees with TableSpec |
| Index.ShortIndex | s4lt/core/index.py:52-54 | a nonzero count with fewer than four bytes for the flags word is CorruptedIndexError |
| Index.IndexSpecTable | s4lt/core/index.py:52-71 | with a complete flags word, the table is the constants and then the entries read after it |
| Index.ReadConstantsError | s4lt/core/index.py:66-68 | the constants loop fails only with CorruptedIndexError |
| Index.ParseEntriesError | s4lt/core/index.py:73-105 | the entries loop fails only with CorruptedIndexError |
| Index.IndexErrorIsCorruptedIndex | s4lt/core/index.py:34-118 | every failure of parse_index is CorruptedIndexError |
| Index.ParseEntriesLength | s4lt/core/index.py:73-105 | each successful turn of the loop appends exactly one entry |
| Index.IndexLength | s4lt/core/index.py:71-107 | a successful parse yields exactly entry_count entries |
| Index.EmptyIndex | s4lt/core/index.py:47-48 | a count of zero yields no entries and reads nothing, not even the flags word |
| Index.ReadConstantsNone | s4lt/core/index.py:60-69 | with no flag bits set no constant is read and the cursor does not move |
| Index.ParseEntryFlat | s4lt/core/index.py:73-105 | with no constants a record is 32 bytes: the entry at p when 32 bytes remain, CorruptedIndexError otherwise |
| Index.ParseEntriesFlat | s4lt/core/index.py:73-105 | with no constants and 32n bytes present, n records parse to the records at a 32-byte stride |
| Index.ParseEntriesFlatShort | s4lt/core/index.py:73-105 | with no constants and fewer than 32n bytes, the loop is CorruptedIndexError |
| Index.FlatIndex | s4lt/core/index.py:47-107 | with none of the four constant flag bits set and n > 0, the index parses exactly when 4 + 32n bytes are present, entry k being the record at pos + 4 + 32k, and is CorruptedIndexError otherwise |
| Index.FlatIndexOf | s4lt/core/index.py:47-107 | with no constant flag bits set and the records of es present, the index parses back to es and ends 4 + 32 * len(es) bytes on |
| Index.ZeroConstantIsRead | s4lt/core/index.py:75-78 | a constant whose value is 0 acts as no constant: the field is read from every record |
| Index.TypeConstantWidth | s4lt/core/index.py:64-78 | with flag bit 0 set, a non-zero type constant makes a record 28 bytes with that type; a zero constant makes it 32 bytes, with the type read from the record |
| Compression.DecompressZlib | s4lt/core/compression.py:39-66 | fewer than 2 bytes, an inflate failure on what follows the first two bytes, or a nonzero expected size that the output misses are all CompressionError; otherwise the result is the inflation of data[2:] |
| Compression.CompressZlib | s4lt/core/compression.py:236-252 | the output is the fixed prefix 78 9C followed by the raw DEFLATE stream of the data |
| Compression.ShortLiteralCount | s4lt/core/compression.py:119 | a 0x00-0x7F command carries 0 to 3 literals |
| Compression.ShortOffset | s4lt/core/compression.py:134-137 | the short back-reference offset is between 1 and 256 |
| Compression.ShortLength | s4lt/core/compression.py:135 | the short back-reference length is between 3 and 34 |
| Compression.BackrefOffset | s4lt/core/compression.py:148-151 | the 0x80-0xBF offset is between 1 and 1024 |
| Compression.BackrefLength | s4lt/core/compression.py:149 | the 0x80-0xBF length is between 3 and 10 |
| Compression.MediumOffset | s4lt/core/compression.py:163-166 | the 0xC0-0xDF offset is between 1 and 16384 |
| Compression.MediumLength | s4lt/core/compression.py:164 | the 0xC0-0xDF length is between 4 and 11, as the formula gives for those command bytes |
| Compression.Backref | s4lt/core/compression.py:203-211 | a back-reference fails exactly when its offset exceeds the output so far |
| Compression.Command | s4lt/core/compression.py:112-188 | a command that does not stop or fail consumes at least one input byte, stays within the input and grows the output |
| Compression.RefpackSpec | s4lt/core/compression.py:69-200 | fewer than 5 bytes or a header other than 10 FB is a failure; a success with nonzero expected size has exactly that length |
| Compression.Decompress | s4lt/core/compression.py:13-36 | code NONE returns the data unchanged whatever the expected size; ZLIB goes to the zlib wrapper and both RefPack codes to the RefPack decoder with the expected size; any other code is CompressionError; every failure of the dispatcher is CompressionError |
| Compression.Compress | s4lt/core/compression.py:214-233 | compress succeeds exactly for the none and zlib codes; any other code is CompressionError |
| Compression.CopyBackref | s4lt/core/compression.py:203-211 | the byte-by-byte copy loop equals Backref: an offset beyond the output fails, and otherwise each appended byte is read from offset bytes back in the growing output, so an overlapping copy repeats the window |
| Compression.WindowByte | s4lt/core/compression.py:209-211 | the byte read at copy step i is window byte i modulo the offset |
| Compression.CopyLiterals | s4lt/core/compression.py:122-126 | copying n literals fails exactly when fewer than n input bytes remain, and otherwise appends data[pos:pos+n] |
| Compression.CopyTrailing | s4lt/core/compression.py:182-187 | a stop code appends up to t trailing bytes, as many as remain, without failing |
| Compression.ApplyCommand | s4lt/core/compression.py:112-188 | one pass of the loop body agrees with Command |
| Compression.ShortCommand | s4lt/core/compression.py:115-138 | the 0x00-0x7F branch agrees with Command |
| Compression.CopyCommand | s4lt/core/compression.py:140-167 | the 0x80-0xBF and 0xC0-0xDF branches agree with Command |
| Compression.LiteralCommand | s4lt/core/compression.py:169-188 | the literal-run and stop branches agree with Command |
| Compression.DecompressRefpack | s4lt/core/compression.py:69-200 | the decoding loop equals RefpackSpec: header checks, the size with a nonzero expected size replacing the header field, the loop running while input remains and the output is short, and the final size check |
| Compression.RunCommandsErrors | s4lt/core/compression.py:110-200 | the command loop fails only with CompressionError |
| Compression.RefpackErrors | s4lt/core/compression.py:69-200 | decompress_refpack fails only with CompressionError |
| Compression.RepeatLastByte | s4lt/core/compression.py:208-211 | a back-reference with offset 1 repeats the last output byte length times |
| Compression.CopyWithinWindow | s4lt/core/compression.py:208-211 | a back-reference no longer than its offset copies a plain slice of the earlier output |
| Compression.BackrefFirstFails | s4lt/core/compression.py:140-206 | a stream whose first command is a back-reference, before any output, is CompressionError |
| Compression.RunCommandsExtends | s4lt/core/compression.py:107-188 | the decoding loop only appends: its result starts with the output it was given |
| Compression.CommandExtends | s4lt/core/compression.py:112-188 | every command only appends to the output |
| Compression.RunCommandsReadsFrom | s4lt/core/compression.py:110-188 | the command loop reads only the input from its own position on |
| Compression.CommandReadsFrom | s4lt/core/compression.py:112-188 | one command reads only the input from its own position on |
| Compression.ExpectedSizeOverridesHeader | s4lt/core/compression.py:100-105 | with a nonzero expected size, the header's 3-byte size field does not affect the result |
| Compression.LiteralRun | s4lt/core/compression.py:169-188 | one literal-run command of 1 to 28 bytes followed by a stop code decodes to exactly those bytes |
| Compression.VectorLiteralOnly | s4lt/core/compression.py:169-188 | E3 "TEST" FC with size 4 decodes to "TEST" |
| Compression.VectorBackref | s4lt/core/compression.py:140-152 | "ABCD" followed by 84 03 (offset 4, length 4) decodes to "ABCDABCD" |
| Compression.VectorStopTooEarly | s4lt/core/compression.py:179-195 | a bare stop code with 16 bytes expected is CompressionError |
| Compression.UnknownCodec | s4lt/core/compression.py:36 | an unknown compression code is CompressionError |
| Compression.CompressRoundTrip | s4lt/core/compression.py:13-66 | decompressing what compress produced gives the data back for none and zlib, with the expected size unset or equal to the data length, given that inflate undoes deflate |
| Resources.ExtractSpec | s4lt/core/resource.py:86-94 | the bytes [offset, offset + compressed_size) of the file, fewer at end of file, decoded with the entry's codec and uncompressed size; every failure is CompressionError |
| Resources.ExtractUncompressed | s4lt/core/resource.py:86-94 | an uncompressed entry that lies inside the file extracts to exactly its raw slice and is not compressed |
| Resources.ExtractTruncated | s4lt/core/resource.py:86-87 | an uncompressed entry running past the end of the file extracts to the bytes up to the end, without error |
| Resources.Resource.constructor | s4lt/core/resource.py:17-26 | a resource holds its entry and file and starts with an empty cache |
| Resources.Resource.IsCompressed | s4lt/core/resource.py:48-51 | compressed exactly when the compression code is not 0 |
| Resources.Resource.TypeName | s4lt/core/resource.py:33-36 | a known type id gives its table name, never a fallback; an unknown id below 2^32 gives a 16-character "Unknown_" name |
| Resources.Resource.Extract | s4lt/core/resource.py:73-96 | a filled cache is returned without touching the file; otherwise the entry's stored bytes are read from its offset and decoded as ExtractSpec says, and the cache is filled only when decoding succeeds |
| Packages.OpenSpec | s4lt/core/package.py:42-60 | a failure is a header or index error; a success has major version 2 and exactly entry_count entries |
| Packages.Entries | s4lt/core/package.py:54 | the entries behind a resource list, one per resource in order |
| Packages.OfType | s4lt/core/package.py:81 | the filtered list holds only resources of type t, holds every one of them, and is no longer than the input |
| Packages.OfTypeConcat | s4lt/core/package.py:81 | filtering distributes over concatenation, so original order is kept |
| Packages.OfTypeAllOrNone | s4lt/core/package.py:81 | a list of resources all of type t is returned whole; one with none of type t gives the empty list |
| Packages.Package.constructor | s4lt/core/package.py:21-25 | a package holds its file, header and resources |
| Packages.Package.Open | s4lt/core/package.py:27-60 | on success, the header is parsed from byte 0, the index from the header's index position with its entry count, and there is one fresh Resource per entry, in order, with an empty cache and the same open file; on failure the file is closed and the header or index error is returned |
| Packages.Package.Version | s4lt/core/package.py:62-65 | the header's (major, minor), major 2 for an opened package |
| Packages.Package.Len | s4lt/core/package.py:112-113 | the number of resources, which is the header's entry count for an opened package |
| Packages.Package.FindByType | s4lt/core/package.py:72-81 | exactly the resources whose type is t |
| Packages.Package.FindByInstance | s4lt/core/package.py:83-95 | the first resource with that instance id, or None when no resource has it |
| Packages.Package.Close | s4lt/core/package.py:97-101 | the file held, if any, is closed and then none is held, so a second close does nothing |
| Writer.Layout | s4lt/core/writer.py:32-58 | one index entry per resource, in input order |
| Writer.HeaderWords | s4lt/core/writer.py:76-85 | the header is 24 little-endian words |
| Writer.HeaderBytes | s4lt/core/writer.py:76-85 | a built header is exactly 96 bytes |
| Writer.Put | s4lt/core/writer.py:79 | slice assignment writes b at off and leaves every other byte of the buffer as it was |
| Writer.PackWord | s4lt/core/writer.py:80-84 | pack_into of a 32-bit value at byte 4k replaces word k of the buffer and nothing else |
| Writer.BuildHeader | s4lt/core/writer.py:76-85 | with entry count, index position and index size below 2^32 the header is the packed words (magic, version 2.1, entry count at 36, index size at 44, index position at 64, zeros elsewhere); any value at or above 2^32 is a struct.error |
| Writer.HeaderStart | s4lt/core/writer.py:79-81 | a built header starts with "DBPF", major version 2 and minor version 1 |
| Writer.HeaderFields | s4lt/core/writer.py:82-84 | a built header holds the entry count at byte 36, the index size at 44 and the index position at 64 |
| Writer.HeaderRoundTrip | s4lt/core/writer.py:76-85 | parsing a built header gives back the entry count, index position and index size, with version (2, 1) |
| Writer.InstanceHalves | s4lt/core/writer.py:94-95 | a 64-bit instance id is (hi << 32) \| lo of the two halves written |
| Writer.RecordWords | s4lt/core/writer.py:94-103 | a record has seven "<I" words |
| Writer.RecordBytes | s4lt/core/writer.py:94-105 | a record is exactly 32 bytes |
| Writer.RecordsBytes | s4lt/core/writer.py:93-105 | n records take 32n bytes |
| Writer.IndexBytes | s4lt/core/writer.py:88-107 | the index table takes 4 + 32n bytes |
| Writer.BuildIndex | s4lt/core/writer.py:88-107 | when every entry fits its struct formats, the index is a zero flags word and each entry's 32-byte record in order; otherwise it is a struct.error |
| Writer.RecordsBytesAt | s4lt/core/writer.py:93-105 | the k-th record sits at byte 32k of the records |
| Writer.RecordIds | s4lt/core/writer.py:94-100 | the words at record bytes 0, 4, 8 and 12 are type, group, instance high and instance low |
| Writer.RecordSizes | s4lt/core/writer.py:101-103 | the words at record bytes 16, 20 and 24 are offset, stored size and data size |
| Writer.EntryOfRecord | s4lt/core/writer.py:94-105 | a record read back gives its entry, when the stored size has bit 31 clear and the instance fits in 64 bits |
| Writer.RecordInIndex | s4lt/core/writer.py:88-107 | the k-th record of an index at p sits at p + 4 + 32k |
| Writer.RecordRoundTrip | s4lt/core/writer.py:88-107 | the k-th record of a built index reads back as the k-th entry |
| Writer.IndexRoundTrip | s4lt/core/writer.py:88-107 | parse_index on a built index, wherever it sits in the file, returns the same entries and stops right after the table, when every stored size has bit 31 clear and every instance fits 64 bits |
| Writer.IndexRoundTripNonEmpty | s4lt/core/writer.py:88-107 | the same round trip for an index with at least one entry |
| Writer.FlagsOfIndex | s4lt/core/writer.py:90-91 | a built index has no constant flag bits set |
| Writer.RecordsOfIndex | s4lt/core/writer.py:93-105 | the records of a built index read back as its entries |
| Writer.ChunksSplit | s4lt/core/writer.py:71-72 | the data written is the chunks before k followed by the chunks from k |
| Writer.LayoutPrefix | s4lt/core/writer.py:36-58 | the first k entries depend only on the first k resources |
| Writer.LayoutEntry | s4lt/core/writer.py:36-58 | entry k has resource k's ids, offset 96 plus the stored lengths of resources 0..k-1, the stored length as compressed size, the data length as uncompressed size, and zlib exactly when compress is set |
| Writer.ChunkAt | s4lt/core/writer.py:57-72 | resource k's stored bytes sit in the data right after those of the resources before it |
| Writer.FileBytes | s4lt/core/writer.py:69-73 | the file is header, data and index, 96 + data length + 4 + 32n bytes |
| Writer.PackageBytes | s4lt/core/writer.py:13-73 | a build fails only with struct.error; a built file is 96 + data length + 4 + 32n bytes |
| Writer.BackupPath | s4lt/core/writer.py:27 | the backup path is the path with ".bak" appended; an empty final name is the ValueError with_suffix raises |
| Writer.BackupOnce | s4lt/core/writer.py:26-29 | an existing target is copied to its backup only when backups are asked for and none exists; an existing backup and every other file are left as they were |
| Writer.LayOut | s4lt/core/writer.py:32-58 | the layout loop gives the entries of Layout, the stored chunk of each resource, and a final offset of 96 plus the total stored length |
| Writer.StoreOne | s4lt/core/writer.py:37-45 | with compress set the data goes through compress with zlib and is tagged zlib; otherwise it is stored raw, tagged none |
| Writer.LayoutStep | s4lt/core/writer.py:47-58 | one more resource extends the entries by its entry at the running offset and the data by its stored chunk |
| Writer.BackUp | s4lt/core/writer.py:26-29 | the backup step on the file system does what Backup says |
| Writer.JoinChunks | s4lt/core/writer.py:69-72 | header followed by the chunks, in input order |
| Writer.BuildPackage | s4lt/core/writer.py:31-73 | the layout loop, index, header and join give PackageBytes |
| Writer.WritePackage | s4lt/core/writer.py:13-73 | the backup step, then one write of PackageBytes to the path; a struct.error leaves the target as the backup step left it |
| Writer.PackageBytesParts | s4lt/core/writer.py:60-73 | a successful build is header, data and index for the laid-out entries |
| Writer.OpenParts | s4lt/core/writer.py:60-73 | opening header, data and index parses the header, then the index right after the data |
| Writer.LayoutFits | s4lt/core/writer.py:32-58 | under the struct limits every laid-out entry reads back exactly |
| Writer.OpenBuilt | s4lt/core/writer.py:60-107 | a built header, any data, then a built index open to that header and those entries |
| Writer.PackageRoundTrip | s4lt/core/writer.py:13-107 | opening a written package gives a version 2.1 header with entry count n, index position 96 + data length and index size 4 + 32n, and the laid-out entries, when stored sizes have bit 31 clear and instances fit 64 bits |
| Writer.ReadInMiddle | s4lt/core/writer.py:69-73 | bytes at off in the data of header + data + index are read back from 96 + off |
| Writer.StoredAt | s4lt/core/writer.py:47-58 | the k-th entry's offset and size select exactly the k-th stored chunk in the file |
| Writer.ExtractParts | s4lt/core/writer.py:36-58 | behind any 96-byte header every laid-out resource extracts to its data |
| Writer.ExtractFromFile | s4lt/core/writer.py:60-73 | in a built file every laid-out resource extracts to its data |
| Writer.ExtractRoundTrip | s4lt/core/writer.py:13-73 | every resource of a written package extracts to the data it was written with, compressed or not, given an inflate that undoes deflate |
| Opened.OpenAt | s4lt/core/package.py:42-60 | the view of a package file: the open fails exactly when OpenSpec does, and otherwise there is one resource per index entry, in order, each with what its first extract gives |
| Split.OutputNameInjective | s4lt/editor/split.py:48-94 | different type ids, or different group ids, give different output file names |
| Split.PrefixOf | s4lt/editor/split.py:29-76 | a given prefix is used as is; with none, the prefix is the stem of the package file name: the name with its suffix removed |
| Split.KeyedRecords | s4lt/editor/split.py:35-89 | one (key, record) pair per resource, in resource order, each record holding the resource's ids, its extracted data and is_compressed as compress |
| Split.KeyedRecordsFailure | s4lt/editor/split.py:41-87 | grouping fails exactly when some resource fails to extract |
| Split.GroupsPartitionResources | s4lt/editor/split.py:33-89 | the groups partition the resources: one group per distinct key, a key has a group exactly when some resource has it, every record in a group has the group's key, and the group sizes add up to the number of resources |
| Split.EveryResourceGrouped | s4lt/editor/split.py:36-89 | every resource's record is in the group of its key |
| Split.KeyedRecordsStep | s4lt/editor/split.py:36-43 | one more resource adds its pair, or stops at its extract error |
| Split.KeyedRecordsFailed | s4lt/editor/split.py:41 | once an extract has failed, the rest of the resources do not change the error |
| Split.AppendRecord | s4lt/editor/split.py:37 | appending to a defaultdict(list) keeps the dict the insertion-ordered grouping of the pairs so far |
| Split.GroupRecords | s4lt/editor/split.py:33-89 | the grouping loop returns the first extract error, or the dict grouping of KeyedRecords: keys in first-appearance order, each with its records in resource order |
| Split.WriteAll | s4lt/editor/split.py:46-98 | a run of writes that succeeds returns the jobs' paths in order; one that fails raises the error of one of its jobs |
| Split.WriteAllStep | s4lt/editor/split.py:47-51 | one job of the write loop: its error is raised, or its file is written and its path appended |
| Split.WriteAllFrame | s4lt/editor/split.py:46-53 | a run of writes touches only the jobs' paths |
| Split.WriteAllWritten | s4lt/editor/split.py:46-53 | after a run of writes to distinct paths succeeds, each path holds its job's bytes |
| Split.WriteJob | s4lt/editor/split.py:50-95 | write_package without backup writes the built package to the path, or raises its struct.error and leaves the files as they were |
| Split.SplitJobs | s4lt/editor/split.py:46-98 | one job per group, in dict order |
| Split.SplitJobsDistinct | s4lt/editor/split.py:49-94 | different groups write to different paths |
| Split.WriteGroups | s4lt/editor/split.py:46-98 | the per-group write loop does what WriteAll says of the jobs |
| Split.SplitWritesEveryGroup | s4lt/editor/split.py:10-98 | a split that succeeds returns one path per group, in dict order, named "{prefix}_{type_name}.package" or "{prefix}_G{group:08X}.package" inside the output directory, and each file holds the package of exactly that group's records |
| Split.SplitFailure | s4lt/editor/split.py:10-98 | a split that raises raises the open error, the extract error of one of the resources, or a struct.error from building a package |
| Split.KeyedRecordsError | s4lt/editor/split.py:41-87 | a failed grouping raises the extract error of one of the resources |
| Split.SplitPackage | s4lt/editor/split.py:25-53 | the shared body of both splits does what SplitSpec says: files left and paths returned or error raised |
| Split.SplitByType | s4lt/editor/split.py:10-53 | split_by_type does what SplitSpec says for grouping by type id |
| Split.SplitByGroup | s4lt/editor/split.py:56-98 | split_by_group does what SplitSpec says for grouping by group id |
| Split.NameParts | s4lt/editor/split.py:121 | the three fields of an extract_all file name with fixed-width hex fields can be read back |
| Split.ExtractNameInjective | s4lt/editor/split.py:120-121 | for 32-bit groups and 64-bit instances, two entries with the same file name have the same TGI |
| Split.Pow16Limits | s4lt/editor/split.py:121 | 8 hex digits cover 2^32 and 16 cover 2^64 |
| Split.WriteAllOk | s4lt/editor/split.py:119-124 | a run of writes that succeeds had bytes for every job |
| Split.ExtractAllCreates | s4lt/editor/split.py:101-126 | extract_all that succeeds returns one path per resource, in index order, named "{type_name}_{group:08X}_{instance:016X}.bin" in the output directory |
| Split.ExtractAllWrites | s4lt/editor/split.py:118-124 | when groups fit 32 bits, instances fit 64 bits and the TGIs are distinct, each created file holds exactly its resource's extracted bytes |
| Split.ExtractAll | s4lt/editor/split.py:101-126 | the extract loop does what ExtractAllSpec says: files left and paths returned, or the first extract error |
| Merge.Sources | s4lt/editor/merge.py:32-38 | the first loop fails exactly when some package fails to open, and then with the error of the first such package |
| Merge.ConflictsOf | s4lt/editor/merge.py:41-49 | every conflict has one of the keys, all the sources recorded for it and more than one of them, and every key with more than one source gets a conflict |
| Merge.FindConflictsSpec | s4lt/editor/merge.py:20-51 | find_conflicts raises exactly when collecting the sources does |
| Merge.ConflictIff | s4lt/editor/merge.py:32-49 | a TGI is reported exactly when it occurs more than once over all inputs, repeats inside one package included, and its sources are all its occurrences |
| Merge.ConflictsDistinct | s4lt/editor/merge.py:41-49 | no TGI is reported twice |
| Merge.SourcesConcat | s4lt/editor/merge.py:32-38 | the sources of two runs of packages are those of the first run, then those of the second |
| Merge.SourcesInFileOrder | s4lt/editor/merge.py:32-38 | a conflict lists the sources from earlier packages first, then those from later ones |
| Merge.SourcesStep | s4lt/editor/merge.py:32-38 | one more package appends its pairs, or raises its open failure |
| Merge.SourcesFailed | s4lt/editor/merge.py:33 | once a package fails to open, later packages do not change the error |
| Merge.AddSources | s4lt/editor/merge.py:34-38 | the inner loop keeps tgi_sources the insertion-ordered grouping of all pairs so far |
| Merge.AppendSource | s4lt/editor/merge.py:36-38 | creating the empty list on first sight and appending keeps the grouping |
| Merge.SourcesInStep | s4lt/editor/merge.py:34-38 | one more resource appends its pair |
| Merge.CollectConflicts | s4lt/editor/merge.py:41-49 | the second loop gives ConflictsOf the keys in dict order |
| Merge.FindConflicts | s4lt/editor/merge.py:20-51 | find_conflicts as written equals FindConflictsSpec |
| Merge.AcceptedIn | s4lt/editor/merge.py:75-90 | every record accepted from one package is filed under its own TGI |
| Merge.AcceptedInFailure | s4lt/editor/merge.py:79-88 | a failure raises the extract error of an occurrence the resolutions let through; rejected occurrences are never extracted |
| Merge.Accepted | s4lt/editor/merge.py:73-90 | over all packages, every record is filed under its own TGI, and a success means every package opened |
| Merge.MergeSpec | s4lt/editor/merge.py:67-93 | the merge fails exactly when the collection does, and otherwise writes one record per key in first-accepted order |
| Merge.MergedKeysDistinct | s4lt/editor/merge.py:71-93 | the merged package holds at most one resource per TGI |
| Merge.KeptIn | s4lt/editor/merge.py:75-90 | the accepted occurrences of t in one package are occurrences of t from that package |
| Merge.RecordsOfViewsConcat | s4lt/editor/merge.py:84-90 | built records of two runs of views join up |
| Merge.AcceptedInKept | s4lt/editor/merge.py:75-90 | within one package, the records assigned under t are built from its accepted occurrences, in order |
| Merge.AcceptedKept | s4lt/editor/merge.py:73-90 | over all packages, the records assigned under t are built from its accepted occurrences, in input order |
| Merge.LastAcceptedWins | s4lt/editor/merge.py:73-93 | a TGI appears in the output exactly when some occurrence is accepted, and its record is built from the last accepted occurrence: extracted data and is_compressed |
| Merge.MergedRecord | s4lt/editor/merge.py:84-93 | each merged record is the last one assigned under its key |
| Merge.MergedHasKey | s4lt/editor/merge.py:84-93 | a key with an assigned record has a merged record |
| Merge.LastOfViews | s4lt/editor/merge.py:84-90 | the last record of a run is built from the last view |
| Merge.UnresolvedKeepsAll | s4lt/editor/merge.py:79-81 | without a resolution for t, every occurrence is accepted, so the last one over all packages wins |
| Merge.KeptInResolution | s4lt/editor/merge.py:79-81 | a resolution for t keeps all of a package's occurrences when it names the package's path and none of them otherwise |
| Merge.ResolvedKeepsOnlyChosen | s4lt/editor/merge.py:79-81 | with a resolution naming path p, only occurrences from packages at p are kept, and when no package at p holds t the TGI is dropped |
| Merge.AcceptedStep | s4lt/editor/merge.py:73-90 | one more package appends its accepted pairs, or raises its open or extract error |
| Merge.AcceptedFailed | s4lt/editor/merge.py:73-90 | once a package fails, later packages do not change the error |
| Merge.AcceptedInStep | s4lt/editor/merge.py:75-90 | one more resource: skipped when rejected, otherwise extracted, failing with its error or appending its record |
| Merge.AcceptedInFailed | s4lt/editor/merge.py:88 | once an extract has failed, later resources do not change the error |
| Merge.AddAccepted | s4lt/editor/merge.py:75-90 | the inner loop keeps all_resources the latest record per key, in first-assignment order |
| Merge.Assign | s4lt/editor/merge.py:84-90 | assigning to a dict key keeps its slot and replaces its value |
| Merge.ValuesInOrder | s4lt/editor/merge.py:93 | list(all_resources.values()) is the latest record of each key in insertion order |
| Merge.CollectMerged | s4lt/editor/merge.py:67-93 | the collecting loops give MergeSpec |
| Merge.MergePackages | s4lt/editor/merge.py:54-93 | the merged records are written as one package at the output path without a backup; an open, extract or build error leaves the files as they were |
| Sorting.InsertSorted | s4lt/conflicts/detector.py:175 | inserting into a sorted list keeps it sorted and adds exactly the element |
| Sorting.InsertWithKey | s4lt/conflicts/detector.py:175 | inserting adds x behind the elements of its key and leaves the elements of other keys alone |
| Sorting.SortBySorted | s4lt/conflicts/detector.py:175 | list.sort by key gives a list ordered by key and a permutation of its input |
| Sorting.SortByStable | s4lt/conflicts/detector.py:175 | the sort is stable: the elements with equal keys keep their input order |
| StrOrder.LessIrreflexive | s4lt/mods/conflicts.py:101 | no str is less than itself |
| StrOrder.LessTransitive | s4lt/mods/conflicts.py:101 | the str order is transitive |
| StrOrder.LessTotal | s4lt/mods/conflicts.py:101 | two different strs are ordered one way or the other |
| StrOrder.SortedAscending | s4lt/mods/conflicts.py:101 | sorted() gives an ascending list that is a permutation of its input |
| StrOrder.SortedDistinct | s4lt/mods/conflicts.py:101 | sorting distinct paths gives a strictly increasing list of exactly those paths |
| Session.CallOf | s4lt/editor/session.py:86-106 | a change becomes the package call for its action (add, update, delete) on the same type, group and instance, passing its data for add and update |
| Session.Replay | s4lt/editor/session.py:86-106 | one call per change, and never a save |
| Session.ReplayConcat | s4lt/editor/session.py:86-106 | replaying a log in two parts issues the first part's calls, then the second's |
| Session.ReplayAt | s4lt/editor/session.py:86-106 | the i-th call issued replays the i-th change |
| Session.ReplayStep | s4lt/editor/session.py:86-106 | one more change issues one more call |
| Session.EditSession.constructor | s4lt/editor/session.py:20-26 | a new session holds its path and package and no changes |
| Session.EditSession.HasUnsavedChanges | s4lt/editor/session.py:28-31 | true exactly when some change is pending |
| Session.EditSession.Resources | s4lt/editor/session.py:33-36 | the package's resources |
| Session.EditSession.AddResource | s4lt/editor/session.py:38-52 | appends an add change with the data, and the session then has unsaved changes |
| Session.EditSession.UpdateResource | s4lt/editor/session.py:54-68 | appends an update change with the data |
| Session.EditSession.DeleteResource | s4lt/editor/session.py:70-82 | appends a delete change without data |
| Session.EditSession.Save | s4lt/editor/session.py:84-109 | issues the calls for the pending changes in order, then a package save, and clears the log |
| Session.EditSession.DiscardChanges | s4lt/editor/session.py:111-113 | clears the log without issuing calls |
| Session.EditSession.Close | s4lt/editor/session.py:115-117 | closes the package's file |
| Session.Registry.constructor | s4lt/editor/session.py:120-121 | the cache starts empty |
| Session.Registry.GetSession | s4lt/editor/session.py:124-142 | a cached path returns its session and opens nothing; otherwise the package is opened and a fresh session with no changes is cached under the path, and an open that raises caches nothing |
| Session.Registry.CloseSession | s4lt/editor/session.py:145-151 | a cached session's package is closed and the path is dropped from the cache; an absent path changes nothing |
| Session.Registry.ListSessions | s4lt/editor/session.py:154-156 | exactly the cached paths, each once |
| Session.Without | s4lt/editor/session.py:151 | deleting a key leaves exactly the other keys, in order |
| Session.WithoutDistinct | s4lt/editor/session.py:151 | deleting a key keeps the keys distinct |
| Session.WithoutAbsent | s4lt/editor/session.py:149 | deleting an absent key changes nothing |
| Stbl.RecordSpec | s4lt/editor/stbl.py:57-77 | a record read advances at least 7 bytes within the data and yields a 32-bit id; fewer than 6 bytes left is the STBLError of the guard, and the only failures are STBLError, struct.error and UnicodeDecodeError |
| Stbl.RecordsSpec | s4lt/editor/stbl.py:53-79 | n records read append exactly n entries after those already read |
| Stbl.ParseSpec | s4lt/editor/stbl.py:24-79 | data shorter than the 17-byte header, a magic other than STBL or a version other than 5 raise STBLError, and a parse that succeeds yields as many entries as the header declares |
| Stbl.ParseStbl | s4lt/editor/stbl.py:24-79 | parse_stbl as written equals ParseSpec |
| Stbl.ReadRecord | s4lt/editor/stbl.py:57-77 | the loop body read field by field equals RecordSpec |
| Stbl.SixBytesLeft | s4lt/editor/stbl.py:57-67 | a record with exactly 6 bytes left passes the guard and then fails unpacking the length, with struct.error rather than STBLError |
| Stbl.FlagIgnored | s4lt/editor/stbl.py:63-64 | the flag byte of a record plays no part |
| Stbl.RecordsReadFrom | s4lt/editor/stbl.py:56-77 | reading records uses only the bytes from their position on |
| Stbl.HeaderPaddingIgnored | s4lt/editor/stbl.py:48-49 | the compressed byte and the two reserved bytes of the header play no part |
| Stbl.ParseTrailing | s4lt/editor/stbl.py:53-79 | bytes after the last declared record play no part |
| Stbl.HeaderBytes | s4lt/editor/stbl.py:91-97 | the header is 17 bytes |
| Stbl.BuildSpec | s4lt/editor/stbl.py:82-108 | a build fails only with struct.error, and a build that succeeds starts with the header for the number of entries |
| Stbl.BuildStbl | s4lt/editor/stbl.py:82-108 | build_stbl as written equals BuildSpec |
| Stbl.BodyConcat | s4lt/editor/stbl.py:100-106 | the records of two runs of entries are those of the first run, then those of the second |
| Stbl.RecordRoundTrip | s4lt/editor/stbl.py:57-106 | a packed record reads back as its entry, whatever bytes precede or follow it |
| Stbl.RecordsRoundTrip | s4lt/editor/stbl.py:53-106 | packed records read back as their entries, in order |
| Stbl.HeaderFields | s4lt/editor/stbl.py:40-97 | a built header has the magic, version 5 and the entry count that parse_stbl checks |
| Stbl.StblRoundTrip | s4lt/editor/stbl.py:24-108 | parsing what build_stbl produced gives the entries back, when UTF-8 decoding inverts encoding |
| Stbl.StblToText | s4lt/editor/stbl.py:111-125 | stbl_to_text as written is the lines joined by newlines |
| Stbl.LineEntry | s4lt/editor/stbl.py:139-151 | a line is skipped exactly when it is blank after stripping, and a bad line raises only STBLError |
| Stbl.LinesEntries | s4lt/editor/stbl.py:137-153 | lines give at most one entry each, and failures are STBLError |
| Stbl.TextToStbl | s4lt/editor/stbl.py:128-153 | text_to_stbl as written equals TextSpec |
| Stbl.ParseLines | s4lt/editor/stbl.py:138-153 | the loop over the lines equals LinesEntries |
| Stbl.LinesEntriesFail | s4lt/editor/stbl.py:143-150 | the first bad line makes the whole text fail |
| Stbl.LineRoundTrip | s4lt/editor/stbl.py:124-151 | the line of an entry whose text has no newline and no surrounding whitespace reads back as that entry |
| Stbl.LinesRoundTrip | s4lt/editor/stbl.py:122-153 | the lines of such entries read back as the entries, in order |
| Stbl.TextRoundTrip | s4lt/editor/stbl.py:111-153 | text_to_stbl(stbl_to_text(es)) == es for such entries |
| Stbl.EmptyText | s4lt/editor/stbl.py:138-141 | the empty text gives no entries |
| Categorizer.CountIn | s4lt/core/categorizer.py:165-167 | a count over a set of types is at most the number of resources |
| Categorizer.TypeCounts | s4lt/core/categorizer.py:146-152 | type_counts has a key exactly for each type that occurs |
| Categorizer.GroupIsCount | s4lt/core/categorizer.py:150-152 | the count of a type is the number of resources of that type |
| Categorizer.CountInAdd | s4lt/core/categorizer.py:165-167 | counting over one more type adds that type's resources |
| Categorizer.CountedGet | s4lt/core/categorizer.py:165-167 | type_counts.get(t, 0) is the number of resources of type t, also for a type that does not occur |
| Categorizer.CountOne | s4lt/core/categorizer.py:151-156 | one iteration counts the type, appends the instance id and notes a thumbnail type |
| Categorizer.CountTypes | s4lt/core/categorizer.py:146-156 | the loop leaves the type counts, the instance ids in order, and has_thumbnail true exactly when some resource has a thumbnail type |
| Categorizer.SumCounts | s4lt/core/categorizer.py:165-167 | sum(type_counts.get(t, 0) for t in ts) is the number of resources with a type in ts, whatever the set's iteration order |
| Categorizer.Category | s4lt/core/categorizer.py:169-184 | cas exactly when CAS has resources and at least as many as each other kind; buildbuy when it has more than CAS and at least as many as tuning; tuning when it has more than both; other when none has any; mixed never |
| Categorizer.FirstRule | s4lt/core/categorizer.py:200-251 | the name of the first rule of the chain whose types have a resource, after none of the earlier ones fired, or the fallback when none fires |
| Categorizer.TypeNamesDiffer | s4lt/core/categorizer.py:160-162 | two types never share a name in resource_counts |
| Categorizer.NameCounts | s4lt/core/categorizer.py:159-162 | resource_counts holds under each type's name that type's count, and nothing else |
| Categorizer.NamedSum | s4lt/core/categorizer.py:159-162 | the counts under the names add up to the counts under the type ids |
| Categorizer.CategorizePackage | s4lt/core/categorizer.py:123-197 | a .ts4script file gets the fixed script category without being opened; otherwise None exactly when the package fails to open, else the counts, instance ids, thumbnail flag, total, category and subcategory of its resources |
| Categorizer.TotalIsSumOfCounts | s4lt/core/categorizer.py:159-192 | total_resources is the sum of resource_counts |
| Categorizer.ResourceCountsAreCounts | s4lt/core/categorizer.py:159-162 | the names of resource_counts are distinct and each holds the number of resources of its type |
| Categorizer.CategoryDisplayName | s4lt/core/categorizer.py:254-264 | a category in the table gets its table name; any other is title-cased (Title), keeping its length |
| Categorizer.SubcategoryDisplayName | s4lt/core/categorizer.py:267-294 | a subcategory in the table gets its table name; any other is title-cased after '_' becomes ' ', keeping its length, with no '_' left and a space exactly where the input had '_' or ' ' |
| Categorizer.ChainNamesKnown | s4lt/core/categorizer.py:200-251 | a chain whose rule names and fallback have table entries picks a name with a table entry |
| Categorizer.DisplayNamesKnown | s4lt/core/categorizer.py:169-184 | every category and subcategory categorize_package gives has a display-table entry |
| Detector.CountSeverity | s4lt/conflicts/detector.py:58-68 | a severity count is at most the number of conflicts |
| Detector.CountsAddUp | s4lt/conflicts/detector.py:58-68 | error_count, warning_count and info_count add up to the number of conflicts |
| Detector.Severity | s4lt/conflicts/detector.py:83-147 | ERROR exactly for the critical types, INFO exactly for the override-ok types, WARNING exactly for the rest |
| Detector.DuplicatesOf | s4lt/conflicts/detector.py:139-167 | at most one conflict per key |
| Detector.DuplicatesOfIff | s4lt/conflicts/detector.py:139-167 | a conflict is produced exactly for a key with more than one value, built from that key and all its values |
| Detector.ScanStep | s4lt/conflicts/detector.py:119-136 | one more path adds the pairs of its resources when it opens, and otherwise one scan error naming the file and the error |
| Detector.AddPackage | s4lt/conflicts/detector.py:125-131 | the inner loop keeps tgi_map the grouping of all pairs so far |
| Detector.AppendPath | s4lt/conflicts/detector.py:129-131 | creating the empty list on first sight and appending keeps the grouping |
| Detector.MakeConflict | s4lt/conflicts/detector.py:141-166 | the conflict built for a duplicated key, both description branches giving the count of packages |
| Detector.CollectConflicts | s4lt/conflicts/detector.py:139-167 | the second loop gives one conflict per key held more than once, in dict order |
| Detector.DetectConflicts | s4lt/conflicts/detector.py:99-182 | detect_conflicts as written equals the sorted conflicts, the number of paths, the resources counted and the scan errors of DetectSpec |
| Detector.CountTgi | s4lt/conflicts/detector.py:125-131 | a package holds a key at most once per resource |
| Detector.PathPairsValues | s4lt/conflicts/detector.py:125-131 | within one package, the list for a key holds its path once per resource with that key |
| Detector.PairsValues | s4lt/conflicts/detector.py:119-131 | the list for a key has one entry per occurrence in the packages that opened |
| Detector.ReportTotals | s4lt/conflicts/detector.py:113-136 | packages_scanned is the number of paths, there is one scan error per package that fails to open, and total_resources counts the resources of the others |
| Detector.FoundIff | s4lt/conflicts/detector.py:139-167 | before the sort, a key has a conflict exactly when it has more than one entry, and that conflict is its duplicate conflict |
| Detector.ConflictIff | s4lt/conflicts/detector.py:119-175 | a TGI is reported exactly when the packages that opened hold it more than once, repeats inside one package included; its conflict lists the path of each occurrence and has its type's severity |
| Detector.ReportOrdered | s4lt/conflicts/detector.py:169-175 | the report lists errors, then warnings, then information, each group in dict order, and it is a permutation of the conflicts found |
| Detector.ConflictsHaveTwoPackages | s4lt/conflicts/detector.py:140 | every reported conflict names at least two packages |
| Detector.ScriptPairsStep | s4lt/conflicts/detector.py:197-201 | one more script adds its pair |
| Detector.GroupScripts | s4lt/conflicts/detector.py:195-201 | name_map is the insertion-ordered grouping of the scripts by lower-cased stem |
| Detector.CollectScriptConflicts | s4lt/conflicts/detector.py:203-214 | one warning per name held by more than one script, in dict order |
| Detector.DetectScriptConflicts | s4lt/conflicts/detector.py:185-216 | detect_script_conflicts as written gives the duplicates of the grouping by stem |
| Detector.ScriptConflictIff | s4lt/conflicts/detector.py:185-216 | a stem shared by more than one script gives one warning listing those scripts in order, and every warning lists at least two scripts |
| Detector.ResolutionOptions | s4lt/conflicts/detector.py:219-253 | two packages give keep_first, keep_second, disable_all and ignore, each keep naming one package and disabling the other; otherwise keep_first disabling the count of other packages, then disable_all and ignore |
| ModConflicts.DetermineSeverity | s4lt/mods/conflicts.py:6-28 | high exactly when some type is high-severity; medium exactly when none is high and some is medium-severity; low exactly when none is either |
| ModConflicts.SeverityOfUnion | s4lt/mods/conflicts.py:22-28 | the severity of the types of two sets together is the more severe of their two severities |
| ModConflicts.NeighborsIff | s4lt/mods/conflicts.py:60-71 | after the rows, y is in adjacency[x] exactly when y differs from x and some row lists both |
| ModConflicts.TgiPairsIff | s4lt/mods/conflicts.py:60-72 | mod_tgis receives (m, entry) exactly for the rows that list m |
| ModConflicts.KeysIff | s4lt/mods/conflicts.py:65-69 | the keys of the dicts are exactly the mods the rows list |
| ModConflicts.NoSelfNeighbor | s4lt/mods/conflicts.py:71 | no mod is its own neighbor |
| ModConflicts.Link | s4lt/mods/conflicts.py:66-71 | creating the empty set, adding the row's mods and discarding the mod itself extends adjacency by that mod's links in the row |
| ModConflicts.AppendTag | s4lt/mods/conflicts.py:68-72 | creating the empty list on first sight and appending keeps mod_tgis the grouping of the appends so far |
| ModConflicts.LinkingDone | s4lt/mods/conflicts.py:65-72 | once every mod of a row is handled, the dicts are those of the rows up to it |
| ModConflicts.AddRow | s4lt/mods/conflicts.py:61-72 | the row loop body extends both dicts by one row |
| ModConflicts.BuildGraph | s4lt/mods/conflicts.py:55-72 | the row loop gives mod_tgis as the grouping of all appends and adjacency as the graph of the rows |
| ModConflicts.LinkedTransitive | s4lt/mods/conflicts.py:78-84 | reachability is transitive |
| ModConflicts.LinkedSymmetric | s4lt/mods/conflicts.py:78-84 | in a symmetric graph reachability is symmetric |
| ModConflicts.ClosedReach | s4lt/mods/conflicts.py:78-89 | nothing outside a closed set of mods can be reached from inside it |
| ModConflicts.ExploresStep | s4lt/mods/conflicts.py:83-84 | a recursive call on a neighbor extends what the call has explored |
| ModConflicts.Dfs | s4lt/mods/conflicts.py:78-84 | dfs returns at once on a visited mod; otherwise it visits the mod and appends each newly visited mod once, all reachable from the mod, and every newly visited mod has all its neighbors visited |
| ModConflicts.AddTags | s4lt/mods/conflicts.py:96-98 | the inner loop adds the TGIs and type names of one mod's entries |
| ModConflicts.CollectTags | s4lt/mods/conflicts.py:93-98 | all_tgis and all_types are the TGIs and type names of the entries of the cluster's mods |
| ModConflicts.TagsOfIff | s4lt/mods/conflicts.py:60-96 | mod_tgis.get(m, []) holds exactly the entries of the rows that list m |
| ModConflicts.TagSetIsRowTags | s4lt/mods/conflicts.py:93-98 | what the collection gathers is the entry of every row that lists a mod of the cluster |
| ModConflicts.RowTagsSame | s4lt/mods/conflicts.py:93-101 | the collected entries depend only on which mods the cluster holds, not on their order |
| ModConflicts.MakeCluster | s4lt/mods/conflicts.py:93-105 | the cluster holds the component's mods strictly ascending, the TGIs and type names of every row listing one of them, and the severity of those type names |
| ModConflicts.GraphLinks | s4lt/mods/conflicts.py:60-71 | the adjacency dict links two mods exactly when they differ and share a row |
| ModConflicts.GraphShape | s4lt/mods/conflicts.py:60-71 | the adjacency dict is symmetric and has no loops |
| ModConflicts.ComponentFound | s4lt/mods/conflicts.py:86-91 | a top-level dfs from an unvisited mod finds exactly its connected component, each mod once, and a component with a link has at least two mods |
| ModConflicts.SearchFrom | s4lt/mods/conflicts.py:87-106 | one turn of the key loop on an unvisited mod keeps the clusters found whole, separate and covering every visited mod with a neighbor |
| ModConflicts.SearchedSnoc | s4lt/mods/conflicts.py:100-106 | appending the cluster of a newly found component keeps the search invariant |
| ModConflicts.FindClusters | s4lt/mods/conflicts.py:74-106 | after the key loop every cluster describes a component of two or more mods, no mod is in two clusters, and every mod with a neighbor is in one |
| ModConflicts.SearchedAll | s4lt/mods/conflicts.py:86-89 | once every key is visited, every mod with a neighbor is in a cluster |
| ModConflicts.FindConflicts | s4lt/mods/conflicts.py:31-112 | every cluster is a whole connected component of two or more mods with the resources, type names and severity of its rows; no mod is in two clusters; two mods sharing a colliding TGI are in the same cluster; the list is sorted most severe first, larger clusters first within a severity |
| ModConflicts.SharedTogether | s4lt/mods/conflicts.py:60-106 | two mods sharing a row lie in the same cluster |
| ModConflicts.SortedPreserves | s4lt/mods/conflicts.py:108-110 | the sort keeps every cluster, their separation and their coverage, and orders them by (severity rank, minus the number of mods) |
| ModConflicts.SeparateDistinct | s4lt/mods/conflicts.py:86-106 | separate nonempty clusters are all different |
| CcTracker.HitsIff | s4lt/tray/cc_tracker.py:69-80 | a key is appended below offset n exactly when some window below n holds it with a CC type and a nonzero instance |
| CcTracker.HitsSaturate | s4lt/tray/cc_tracker.py:70 | no window starts past the last full one |
| CcTracker.Scan | s4lt/tray/cc_tracker.py:69-80 | the sliding-window loop, one byte at a time while a full 16-byte window fits, gives ScanAll |
| CcTracker.ExtractTgisFromBinary | s4lt/tray/cc_tracker.py:48-83 | an unreadable file gives no keys; a readable one the distinct keys of its scan |
| CcTracker.ExtractedIff | s4lt/tray/cc_tracker.py:48-83 | the result holds no key twice, and a key is in it exactly when a window at some offset o with o + 16 <= len holds it with a CC type and a nonzero instance |
| CcTracker.ExtractTgisFromTrayItem | s4lt/tray/cc_tracker.py:86-105 | the loop gives the distinct keys of the per-file results |
| CcTracker.TrayItemTgisIff | s4lt/tray/cc_tracker.py:86-105 | the item's keys hold no key twice, and a key is there exactly when the scan of some readable file whose lower-cased suffix is .householdbinary, .blueprint or .room finds it |
| CcTracker.Classify | s4lt/tray/cc_tracker.py:128-158 | EA exactly when the EA index has the instance; a mod with that mod's path and file name exactly when EA does not and a mod resource has it; otherwise missing, without path or name |
| CcTracker.ClassifyTgis | s4lt/tray/cc_tracker.py:108-160 | one reference per key, in order, each its Classify |
| CcTracker.CountOf | s4lt/tray/cc_tracker.py:185-192 | a count of one source is at most the number of references |
| CcTracker.ModPairsSnoc | s4lt/tray/cc_tracker.py:185-192 | one more reference adds a pair under its name when it is a mod's, and one to the count of its source |
| CcTracker.Count | s4lt/tray/cc_tracker.py:186-192 | one iteration counts the reference under ea, missing, or its mod name ("Unknown" for a missing or empty name) |
| CcTracker.Summarize | s4lt/tray/cc_tracker.py:181-199 | the loop gives, for each mod name, how many references name it, the EA and missing counts, and the total |
| CcTracker.SummaryAddsUp | s4lt/tray/cc_tracker.py:181-199 | ea_count, missing_count and the per-mod counts add up to total, which is the number of references |
| CcTracker.SourcesPartition | s4lt/tray/cc_tracker.py:185-192 | every reference is EA, missing, or a mod's |
| CcTracker.GetCcSummary | s4lt/tray/cc_tracker.py:163-199 | the summary counts the classification of every distinct key of the item, and total is the number of those keys |
| Scanner.RelativeTo | s4lt/mods/scanner.py:70-75 | the base itself is "."; any other path with a relative form is the base's directory prefix (the base with one trailing '/') followed by that non-empty form |
| Scanner.RelativeToComplete | s4lt/mods/scanner.py:70-75 | conversely, every path that is the base's directory prefix followed by a non-empty rest gets that rest |
| Scanner.RelativeToRoot | s4lt/mods/scanner.py:70-75 | relative to the root "/", an absolute path loses only its leading '/' |
| Scanner.DiskRelative | s4lt/mods/scanner.py:68-75 | each key of disk_relative maps to a disk file that has that key, and the keys are exactly the keys of the disk files |
| Scanner.BuildDiskRelative | s4lt/mods/scanner.py:68-75 | the loop gives DiskRelative, a ValueError falling back to the path itself |
| Scanner.CollectModified | s4lt/mods/scanner.py:88-95 | the modified files are the disk files of the existing keys whose stat differs from the row in mtime or size |
| Scanner.CategorizeChanges | s4lt/mods/scanner.py:48-97 | categorize_changes as written equals ChangesSpec |
| Scanner.KeysPartition | s4lt/mods/scanner.py:80-82 | every key of the disk or the database is exactly one of new, deleted and existing |
| Scanner.DeletedIff | s4lt/mods/scanner.py:81-85 | a path is deleted exactly when the database has it and no disk file has it as its key |
| Scanner.NewFilesIff | s4lt/mods/scanner.py:80-84 | a new file is a disk file whose key the database lacks, and every such key gives one |
| Scanner.ModifiedIff | s4lt/mods/scanner.py:82-95 | a file is modified exactly when it is the disk file of a key the database has and its stat differs from the row; a modified file is a disk file and never a new one |
| Thumbnails.Locate | s4lt/tray/thumbnails.py:35-82 | PNG exactly when the PNG signature occurs, at its first occurrence; otherwise JPEG at the first JPEG SOI marker; None exactly when neither occurs |
| Thumbnails.ExtractThumbnail | s4lt/tray/thumbnails.py:51-82 | ThumbnailError exactly when the file cannot be read or holds neither signature; otherwise the data from the position Locate picks (the first PNG signature, else the first JPEG marker) on, which starts with the signature of the format |
| Thumbnails.JpegFallback | s4lt/tray/thumbnails.py:77-80 | with no PNG signature anywhere, the image is the data from the first JPEG marker on, in JPEG format |
| Thumbnails.PngWins | s4lt/tray/thumbnails.py:72-80 | a PNG signature anywhere wins, even after a JPEG marker, and the image starts at the first PNG signature |
| Thumbnails.ImageFormatOfHead | s4lt/tray/thumbnails.py:22-48 | get_image_format decides as extract_thumbnail would on the first 1024 bytes, and an unreadable file gives None |
| Thumbnails.ImageFormatIgnoresTail | s4lt/tray/thumbnails.py:33 | only the first 1024 bytes decide the format |
| Thumbnails.SavePath | s4lt/tray/thumbnails.py:100-104 | forcing the suffix fails only with ValueError, for a path with an empty name |
| Thumbnails.SavePathSuffix | s4lt/tray/thumbnails.py:100-104 | the file written carries .png for PNG and .jpg or .jpeg, in any letter case, for JPEG; a path that already has one is kept as it is |
| Thumbnails.ForcedSuffix | s4lt/tray/thumbnails.py:102-104 | with_suffix(".png") or with_suffix(".jpg") gives a path with that suffix |
| Thumbnails.SaveThumbnail | s4lt/tray/thumbnails.py:85-112 | an extract failure raises its ThumbnailError and writes nothing; otherwise the image is written to the path with the forced suffix, nothing else changes, and the format is returned |
| TrayItem.ItemTypeName | s4lt/tray/trayitem.py:20-28 | "unknown" exactly for a code other than 1, 2 and 3 |
| TrayItem.Utf16StringAt | s4lt/tray/trayitem.py:102-121 | a name is read exactly when the 4-byte count fits, is at most 1000, its 2·count bytes fit and they decode as UTF-16LE, and the cursor then stands right after them |
| TrayItem.V14Spec | s4lt/tray/trayitem.py:66-99 | every failure is TrayParseError, and a parse that succeeds has read a 4-byte version within 1..100 |
| TrayItem.ParseSpec | s4lt/tray/trayitem.py:45-63 | every failure, an unreadable file included, is a TrayParseError |
| TrayItem.ReadUtf16String | s4lt/tray/trayitem.py:102-121 | the stream reader gives None exactly when Utf16StringAt does, and otherwise the name with the cursor after it |
| TrayItem.ParseV14 | s4lt/tray/trayitem.py:66-99 | the stream parser equals V14Spec at the cursor, a missing type word giving code 0 |
| TrayItem.ParseTrayitem | s4lt/tray/trayitem.py:45-63 | parse_trayitem as written equals ParseSpec |
| TrayItem.BadVersionRejected | s4lt/tray/trayitem.py:70-78 | fewer than 4 bytes, or a version outside 1..100, is a TrayParseError |
| TrayItem.BadNameRejected | s4lt/tray/trayitem.py:81-83 | a name that is too long, cut off or not decodable is a TrayParseError |
| TrayItem.FixtureRoundTrip | s4lt/tray/trayitem.py:66-121 | a file laid out as version, character count, UTF-16LE name and type code parses back to that name, type and version, whatever follows |
| TrayItem.MissingTypeIsUnknown | s4lt/tray/trayitem.py:86-93 | with the file ending inside the type word, the type is "unknown" |
| Sorter.AlnumRun | s4lt/organize/sorter.py:34-36 | the longest run of [A-Za-z0-9] from i: all of it alphanumeric, and it ends at the end or before a character that is not |
| Sorter.CaptureAtIff | s4lt/organize/sorter.py:34-40 | the greedy capture is some exactly when a nonempty alphanumeric run followed by a separator starts there, and then it is that run |
| Sorter.NormalizeCreator | s4lt/organize/sorter.py:7-16 | str.title() on ASCII: same length, a letter at the start or after a non-letter upper-cased, one after a letter lower-cased |
| Sorter.ExtractCreator | s4lt/organize/sorter.py:19-44 | "_Uncategorized" or a name starting with an alphanumeric character |
| Sorter.ExtractCreatorDecision | s4lt/organize/sorter.py:33-42 | the TS4 pattern wins when it matches, then the "_" pattern, then the "-" pattern, each giving its capture title-cased |
| Sorter.UncategorizedIff | s4lt/organize/sorter.py:39-44 | "_Uncategorized" exactly when none of the three patterns matches |
| Sorter.Ts4UnderscoreExample | s4lt/organize/sorter.py:24-34 | TS4_Bobby_Dress gives Bobby |
| Sorter.Ts4DashExample | s4lt/organize/sorter.py:24-34 | TS4-Bobby-Dress gives Bobby |
| Sorter.Ts4FallThroughExample | s4lt/organize/sorter.py:34-36 | TS4-Bobby has no separator after the name, so the "-" pattern takes TS4 and gives Ts4 |
| Output.PyTail | s4lt/cli/output.py:34 | Python's s[-k:]: the last k characters for k > 0, the whole string for k == 0, a drop of -k characters for k < 0 |
| Output.ShortPathUnchanged | s4lt/cli/output.py:26-27 | a path that fits is returned as it is |
| Output.LongPathTruncated | s4lt/cli/output.py:24-38 | a path that does not fit comes back no longer than the limit, with "..."; a name that does not fit leaves "..." and the name's tail; otherwise exactly the limit, the start of the path, ".../", and the whole name |
| Bytes.LEOfEnc | s4lt/core/writer.py:80-105 | a value below 256^n packed little-endian into n bytes reads back as itself |
| Bytes.EncOfLE | s4lt/core/index.py:113-118 | packing the little-endian value of n bytes gives the bytes back |
| Bytes.U32AtEnc | s4lt/core/writer.py:97-103 | a 32-bit value packed with "<I" anywhere in a buffer unpacks at that offset as itself |
| Files.ReadAt | s4lt/tray/trayitem.py:70-114 | file.read(n) returns n bytes from the cursor, fewer at end of file |
| Files.BinaryFile.Read | s4lt/tray/trayitem.py:70-114 | reading returns ReadAt at the cursor and advances it by the bytes returned |
| Files.FileSystem.WriteFile | s4lt/core/writer.py:69-73 | writing a file replaces its contents and changes no other file |
| Files.FileSystem.Copy | s4lt/core/writer.py:29 | copying gives the destination the source's contents and changes no other file |
| Paths.Name | s4lt/conflicts/detector.py:134 | Path.name is the last component: no '/', and the end of the path |
| Paths.Suffix | s4lt/core/categorizer.py:133 | Path.suffix is empty or a dot and at least one character ending the name, never the whole name |
| Paths.Stem | s4lt/editor/split.py:30 | Path.stem followed by the suffix is the name, and a nonempty name has a nonempty stem |
| Paths.WithSuffix | s4lt/tray/thumbnails.py:102-104 | with_suffix raises ValueError exactly for an empty name |
| Paths.WithSuffixSuffix | s4lt/tray/thumbnails.py:102-104 | with_suffix(s) on a nonempty name makes s the suffix |
| Paths.Child | s4lt/editor/split.py:49-94 | joining a directory and a name without '/' gives a path whose name is that name |
| Text.Hex | s4lt/editor/stbl.py:124 | format(x, "08X") is upper-case hexadecimal digits |
| Text.HexValue | s4lt/editor/stbl.py:124 | the padded hexadecimal rendering reads back as x |
| Text.ParseHexOfHex | s4lt/editor/stbl.py:124-148 | int("0x" + format(x, "08X"), 16) == x |
| Text.FindSub | s4lt/tray/thumbnails.py:36-73 | find gives the first index where the pattern occurs, or -1 when it occurs nowhere |
| Text.Split | s4lt/editor/stbl.py:138 | str.split gives at least one part, none holding the separator |
| Text.SplitJoin | s4lt/editor/stbl.py:125-138 | splitting a join gives the parts back when no part holds the separator |
| Text.Title | s4lt/organize/sorter.py:16 | str.title() on ASCII: each character lower-cased after a letter, upper-cased otherwise |
| Dicts.Dedup | s4lt/tray/cc_tracker.py:83-105 | list(set(xs)) holds each element of xs exactly once |
| Dicts.FlattenIff | s4lt/tray/cc_tracker.py:100-103 | an element is in the extended list exactly when it is in one of the lists |

## Left out

**Foreign code and side effects**
- zlib: DEFLATE compression and decompression come from a foreign library. `Compression.Deflate` is a parameter of the model. The one property the code relies on, that decompression inverts compression, is the hypothesis `Inverts`.
- UTF-8 in the STBL codec and UTF-16LE in the .trayitem parser are parameters with a decode-after-encode hypothesis. Unicode itself is not modelled.
- File reads and writes act on an in-memory map from path to bytes. Not modelled:
  - rename and mkdir;
  - permissions;
  - OSError from stat or open;
  - the OSError when save_thumbnail writes a file.
- An unreadable file is an absent entry.
- `Package.open` and `Resource.extract` appear in merge, split, the detector and the categorizer as inputs: each opened package's entries (or the error open raised), and each resource's first extraction result.
- The package's mutation methods are add_resource, update_resource, remove_resource and save. They are absent from the package module, so `Session.EditSession.Save` records the sequence of calls it issues instead of giving them a meaning.
- SQLite: the collision query of mods/conflicts.py is an input list of rows. The EA and mods database lookups of the CC tracker are lookup functions passed in. Connections and commits are not modelled.
- The `GROUP_CONCAT` string of the collision query is not split: each input row already carries its list of mod paths. In the source, `split(",")` (mods/conflicts.py:62) turns a path that contains a comma into two bogus mods; the model does not reproduce that.
- discover_packages globs the file system and is not part of this model. The paths it returns are an input of `Scanner.CategorizeChanges`.
- The detector's progress callback is an output only, so it is left out.
- Python's recursion limit in the depth-first search is left out.
- Logging and the categorizer's exception handler are not modelled. The failures that can reach the handler are open failures, and these are modelled as returning None.

**Python behaviour modelled more simply**
- Integers are unbounded. Where the source packs a value into a fixed width, the model either states the range it needs (`Writer.BuildIndex`, `Stbl.BuildStbl`) or masks explicitly.
- `Text.ParseHex` accepts surrounding whitespace, an optional 0x prefix and hex digits. Python's int(s, 16) also accepts a sign and underscores between digits. Those spellings are rejected here.
- `Text.Title` and `Text.Lower` act on ASCII letters only. Non-ASCII case mapping is not modelled.
- `Sorter.NormalizeCreator` inherits that ASCII limit.
- list.sort is modelled as a stable insertion sort (`Sorting.SortBy`) and sorted(str) as an insertion sort on code points (`StrOrder.Sorted`). The lemmas pin down the result, because a sorted permutation is unique for the given order and stability.
- `Dicts.Dedup` keeps the first occurrence of each element. Python's list(set(...)) in the CC tracker has an unspecified order, so the model fixes one order. The membership and no-duplicates properties hold for any order.
- `ModConflicts.Dfs` visits the neighbours of a mod in an arbitrary order, chosen by `:|`, because Python's set iteration order is unspecified. All cluster properties are proved for every such order. list(all_tgis) is kept as the set itself (`ConflictCluster.resources`), since its list order is unspecified too.
- File modification times are whole numbers rather than floats. The set of files on disk is a sequence.
- Paths are '/'-separated strings. `Paths.WithSuffix` yields None where Python raises ValueError for an empty name.
- `Scanner.RelativeTo` takes paths as normalised absolute '/'-separated strings (no "." or ".." parts, no trailing '/' except the root). An empty or relative mods_path is not modelled.
- `Writer.ResourceRecord` has a mandatory `compress` field. write_package reads it with `res.get("compress", False)` (writer.py:38), so a record without the key is stored uncompressed; every caller in the model (merge, split) sets it.

**Preconditions and weaker contracts**
- `Detector.ResolutionOptions` requires a conflict that names at least one package. Python raises IndexError on an empty list; every reported conflict names two or more.
- `Split.ExtractAllWrites` assumes 32-bit group ids, 64-bit instance ids and distinct TGIs, so that file names do not collide. Without these assumptions, a later resource can overwrite an earlier file of the same name.
- The severity lookup of the detector cannot raise KeyError, since every severity is in the table, so no error path is modelled.

**Not modelled at all**
- `ConflictReport.to_dict`, `__str__`, `__repr__`, `__enter__` and `__exit__` are formatting or context-manager wiring.
- Package iteration (`__iter__`) is the resource sequence itself, in order.
