/**
 * String tables (s4lt/editor/stbl.py): the binary STBL codec and its
 * line-per-entry text form. UTF-8 is a parameter of the model: a pair of
 * functions, with the round trip as a hypothesis where it is needed.
 */
module Stbl {
  import opened Bytes
  import opened Wrappers
  import opened Exceptions
  import opened Text

  const STBL_MAGIC: seq<byte> := [0x53, 0x54, 0x42, 0x4C]   // "STBL"
  const STBL_HEADER_SIZE: nat := 17
  const STBL_VERSION: nat := 5

  datatype STBLEntry = STBLEntry(stringId: nat, text: string)

  /** str.encode("utf-8") and bytes.decode("utf-8"), None where decoding raises. */
  datatype Utf8 = Utf8(encode: string -> seq<byte>, decode: seq<byte> -> Option<string>)

  ghost predicate Decodes(u: Utf8)
  {
    forall t :: u.decode(u.encode(t)) == Some(t)
  }

  // ---------------------------------------------------------------- parse_stbl

  /**
   * One record at pos: u32 id, a flag byte that is skipped, u16 length, then
   * that many bytes of UTF-8. The guard asks for 6 bytes but the length field
   * ends at pos + 7, so a record with exactly 6 bytes left is a struct.error.
   */
  function RecordSpec(data: seq<byte>, pos: nat, u: Utf8): (r: Result<(STBLEntry, nat), Error>)
    ensures r.Success? ==> pos + 7 <= r.value.1 <= |data| && r.value.0.stringId < U32_LIMIT
    ensures r.Failure? ==> r.error in {STBLError, StructError, UnicodeDecodeError}
    ensures pos + 6 > |data| <==> r == Failure(STBLError) && pos + 7 > |data|
  {
    if pos + 6 > |data| then Failure(STBLError)
    else if pos + 7 > |data| then Failure(StructError)
    else
      U32AtBound(data, pos);
      var len := U16At(data, pos + 5);
      var p := pos + 7;
      if p + len > |data| then Failure(STBLError)
      else match u.decode(data[p..p + len])
        case None => Failure(UnicodeDecodeError)
        case Some(text) => Success((STBLEntry(U32At(data, pos), text), p + len))
  }

  /** n more records from pos, appended to acc. */
  function RecordsSpec(data: seq<byte>, pos: nat, n: nat, acc: seq<STBLEntry>, u: Utf8): (r: Result<seq<STBLEntry>, Error>)
    ensures r.Success? ==> |r.value| == |acc| + n && r.value[..|acc|] == acc
    ensures r.Failure? ==> r.error in {STBLError, StructError, UnicodeDecodeError}
    decreases n
  {
    if n == 0 then Success(acc)
    else
      var e :- RecordSpec(data, pos, u);
      var r := RecordsSpec(data, e.1, n - 1, acc + [e.0], u);
      assert r.Success? ==> r.value[..|acc|] == r.value[..|acc| + 1][..|acc|];
      r
  }

  /** parse_stbl as a function. */
  function ParseSpec(data: seq<byte>, u: Utf8): (r: Result<seq<STBLEntry>, Error>)
    ensures |data| < STBL_HEADER_SIZE ==> r == Failure(STBLError)
    ensures |data| >= STBL_HEADER_SIZE && data[..4] != STBL_MAGIC ==> r == Failure(STBLError)
    ensures |data| >= STBL_HEADER_SIZE && U16At(data, 4) != STBL_VERSION ==> r == Failure(STBLError)
    ensures r.Success? ==> |data| >= STBL_HEADER_SIZE && |r.value| == U64At(data, 7)
  {
    if |data| < STBL_HEADER_SIZE then Failure(STBLError)
    else if data[..4] != STBL_MAGIC then Failure(STBLError)
    else if U16At(data, 4) != STBL_VERSION then Failure(STBLError)
    else RecordsSpec(data, STBL_HEADER_SIZE, U64At(data, 7), [], u)
  }

  /** parse_stbl: check the header, then read the declared number of records. */
  method ParseStbl(data: seq<byte>, u: Utf8) returns (r: Result<seq<STBLEntry>, Error>)
    ensures r == ParseSpec(data, u)
  {
    if |data| < STBL_HEADER_SIZE {
      return Failure(STBLError);
    }
    if data[0..4] != STBL_MAGIC {
      return Failure(STBLError);
    }
    var version := U16At(data, 4);
    if version != STBL_VERSION {
      return Failure(STBLError);
    }
    var numEntries := U64At(data, 7);
    ghost var goal := RecordsSpec(data, STBL_HEADER_SIZE, numEntries, [], u);
    var entries: seq<STBLEntry> := [];
    var pos := STBL_HEADER_SIZE;
    var left := numEntries;
    while left > 0
      invariant RecordsSpec(data, pos, left, entries, u) == goal
    {
      var rec := ReadRecord(data, pos, u);
      if rec.Failure? {
        return Failure(rec.error);
      }
      entries := entries + [rec.value.0];
      pos := rec.value.1;
      left := left - 1;
    }
    return Success(entries);
  }

  /** The body of the parse loop: one record, read field by field. */
  method ReadRecord(data: seq<byte>, start: nat, u: Utf8) returns (r: Result<(STBLEntry, nat), Error>)
    ensures r == RecordSpec(data, start, u)
  {
    var pos := start;
    if pos + 6 > |data| {
      return Failure(STBLError);
    }
    var stringId := U32At(data, pos);
    pos := pos + 4;
    pos := pos + 1;
    if pos + 2 > |data| {
      return Failure(StructError);
    }
    var strLen := U16At(data, pos);
    pos := pos + 2;
    if pos + strLen > |data| {
      return Failure(STBLError);
    }
    var text := u.decode(data[pos..pos + strLen]);
    if text.None? {
      return Failure(UnicodeDecodeError);
    }
    pos := pos + strLen;
    return Success((STBLEntry(stringId, text.value), pos));
  }

  /** A record that leaves exactly 6 bytes passes the guard and then fails in struct. */
  lemma SixBytesLeft(data: seq<byte>, pos: nat, u: Utf8)
    requires pos + 6 == |data|
    ensures RecordSpec(data, pos, u) == Failure(StructError)
  {
  }

  /** The flag byte of a record plays no part. */
  lemma FlagIgnored(data: seq<byte>, pos: nat, b: byte, u: Utf8)
    requires pos + 4 < |data|
    ensures RecordSpec(data[pos + 4 := b], pos, u) == RecordSpec(data, pos, u)
  {
    var d := data[pos + 4 := b];
    if pos + 7 <= |data| {
      assert d[pos..pos + 4] == data[pos..pos + 4];
      assert d[pos + 5..pos + 7] == data[pos + 5..pos + 7];
      var len := U16At(data, pos + 5);
      if pos + 7 + len <= |data| {
        assert d[pos + 7..pos + 7 + len] == data[pos + 7..pos + 7 + len];
      }
    }
  }

  /** Records read only the data from their own position on. */
  lemma {:induction false} RecordsReadFrom(a: seq<byte>, b: seq<byte>, pos: nat, n: nat, acc: seq<STBLEntry>, u: Utf8, from: nat)
    requires |a| == |b| && from <= pos && from <= |a| && a[from..] == b[from..]
    ensures RecordsSpec(a, pos, n, acc, u) == RecordsSpec(b, pos, n, acc, u)
    decreases n
  {
    if n > 0 {
      RecordReadsFrom(a, b, pos, u, from);
      var e := RecordSpec(a, pos, u);
      if e.Success? {
        RecordsReadFrom(a, b, e.value.1, n - 1, acc + [e.value.0], u, from);
      }
    }
  }

  lemma RecordReadsFrom(a: seq<byte>, b: seq<byte>, pos: nat, u: Utf8, from: nat)
    requires |a| == |b| && from <= pos && from <= |a| && a[from..] == b[from..]
    ensures RecordSpec(a, pos, u) == RecordSpec(b, pos, u)
  {
    if pos + 7 <= |a| {
      SameTailSlice(a, b, from, pos, pos + 4);
      SameTailSlice(a, b, from, pos + 5, pos + 7);
      var len := U16At(a, pos + 5);
      if pos + 7 + len <= |a| {
        SameTailSlice(a, b, from, pos + 7, pos + 7 + len);
      }
    }
  }

  /** The compressed byte and the two reserved bytes of the header play no part. */
  lemma HeaderPaddingIgnored(data: seq<byte>, c: byte, r0: byte, r1: byte, u: Utf8)
    requires |data| >= STBL_HEADER_SIZE
    ensures ParseSpec(data[6 := c][15 := r0][16 := r1], u) == ParseSpec(data, u)
  {
    var d := data[6 := c][15 := r0][16 := r1];
    assert d[..4] == data[..4] && d[4..6] == data[4..6] && d[7..15] == data[7..15];
    assert d[STBL_HEADER_SIZE..] == data[STBL_HEADER_SIZE..];
    RecordsReadFrom(d, data, STBL_HEADER_SIZE, U64At(data, 7), [], u, STBL_HEADER_SIZE);
  }

  /** Bytes after the last declared record play no part. */
  lemma {:induction false} TrailingIgnored(data: seq<byte>, extra: seq<byte>, pos: nat, n: nat, acc: seq<STBLEntry>, u: Utf8)
    requires RecordsSpec(data, pos, n, acc, u).Success?
    ensures RecordsSpec(data + extra, pos, n, acc, u) == RecordsSpec(data, pos, n, acc, u)
    decreases n
  {
    if n > 0 {
      var e := RecordSpec(data, pos, u).value;
      RecordExtends(data, extra, pos, u);
      TrailingIgnored(data, extra, e.1, n - 1, acc + [e.0], u);
    }
  }

  lemma RecordExtends(data: seq<byte>, extra: seq<byte>, pos: nat, u: Utf8)
    requires RecordSpec(data, pos, u).Success?
    ensures RecordSpec(data + extra, pos, u) == RecordSpec(data, pos, u)
  {
    var d := data + extra;
    SliceOfFirst(data, extra, pos, pos + 4);
    SliceOfFirst(data, extra, pos + 5, pos + 7);
    var len := U16At(data, pos + 5);
    SliceOfFirst(data, extra, pos + 7, pos + 7 + len);
  }

  /** A whole string table followed by anything parses to the same entries. */
  lemma ParseTrailing(data: seq<byte>, extra: seq<byte>, u: Utf8)
    requires ParseSpec(data, u).Success?
    ensures ParseSpec(data + extra, u) == ParseSpec(data, u)
  {
    var d := data + extra;
    SliceOfFirst(data, extra, 0, 4);
    SliceOfFirst(data, extra, 4, 6);
    SliceOfFirst(data, extra, 7, 15);
    TrailingIgnored(data, extra, STBL_HEADER_SIZE, U64At(data, 7), [], u);
  }

  // ---------------------------------------------------------------- build_stbl

  /** The 17-byte header: magic, version 5, not compressed, the entry count, reserved 0. */
  function HeaderBytes(n: nat): (r: seq<byte>)
    ensures |r| == STBL_HEADER_SIZE
  {
    STBL_MAGIC + Enc(STBL_VERSION, 2) + [0] + Enc(n, 8) + Enc(0, 2)
  }

  /** An entry struct can pack: its id fits "<I" and its encoded text fits "<H". */
  predicate Packable(e: STBLEntry, u: Utf8)
  {
    e.stringId < U32_LIMIT && |u.encode(e.text)| < U16_LIMIT
  }

  predicate AllPackable(es: seq<STBLEntry>, u: Utf8)
  {
    forall i :: 0 <= i < |es| ==> Packable(es[i], u)
  }

  function RecordBytes(e: STBLEntry, u: Utf8): seq<byte>
  {
    var t := u.encode(e.text);
    Enc(e.stringId, 4) + [0] + Enc(|t|, 2) + t
  }

  function BodyBytes(es: seq<STBLEntry>, u: Utf8): seq<byte>
  {
    if es == [] then [] else RecordBytes(es[0], u) + BodyBytes(es[1..], u)
  }

  /** build_stbl as a function: a struct.error when a count, id or length does not fit. */
  function BuildSpec(es: seq<STBLEntry>, u: Utf8): (r: Result<seq<byte>, Error>)
    ensures r.Failure? ==> r.error == StructError
    ensures r.Success? ==> |r.value| >= STBL_HEADER_SIZE && r.value[..STBL_HEADER_SIZE] == HeaderBytes(|es|)
  {
    if |es| >= U64_LIMIT || !AllPackable(es, u) then Failure(StructError)
    else Success(HeaderBytes(|es|) + BodyBytes(es, u))
  }

  /** build_stbl: the header, then one record per entry, in order. */
  method BuildStbl(entries: seq<STBLEntry>, u: Utf8) returns (r: Result<seq<byte>, Error>)
    ensures r == BuildSpec(entries, u)
  {
    if |entries| >= U64_LIMIT {
      return Failure(StructError);
    }
    var header := STBL_MAGIC + Enc(STBL_VERSION, 2) + [0] + Enc(|entries|, 8) + Enc(0, 2);
    var body: seq<byte> := [];
    var i := 0;
    while i < |entries|
      invariant 0 <= i <= |entries|
      invariant forall j :: 0 <= j < i ==> Packable(entries[j], u)
      invariant body == BodyBytes(entries[..i], u)
    {
      var entry := entries[i];
      var textBytes := u.encode(entry.text);
      if entry.stringId >= U32_LIMIT || |textBytes| >= U16_LIMIT {
        assert !Packable(entries[i], u);
        assert !AllPackable(entries, u);
        return Failure(StructError);
      }
      BodyStep(entries, i, u);
      var record := Enc(entry.stringId, 4) + [0] + Enc(|textBytes|, 2) + textBytes;
      assert record == RecordBytes(entries[i], u);
      body := body + record;
      i := i + 1;
    }
    assert entries[..i] == entries;
    assert AllPackable(entries, u);
    assert header == HeaderBytes(|entries|);
    return Success(header + body);
  }

  lemma {:induction false} BodyConcat(a: seq<STBLEntry>, b: seq<STBLEntry>, u: Utf8)
    ensures BodyBytes(a + b, u) == BodyBytes(a, u) + BodyBytes(b, u)
  {
    if a == [] {
      assert a + b == b;
    } else {
      assert (a + b)[1..] == a[1..] + b;
      BodyConcat(a[1..], b, u);
    }
  }

  lemma BodyStep(es: seq<STBLEntry>, i: nat, u: Utf8)
    requires i < |es|
    ensures BodyBytes(es[..i + 1], u) == BodyBytes(es[..i], u) + RecordBytes(es[i], u)
  {
    assert es[..i + 1] == es[..i] + [es[i]];
    BodyConcat(es[..i], [es[i]], u);
  }

  /** A packed record reads back as its entry, whatever precedes or follows it. */
  lemma RecordRoundTrip(data: seq<byte>, pre: seq<byte>, e: STBLEntry, post: seq<byte>, u: Utf8)
    requires Decodes(u) && Packable(e, u) && data == pre + RecordBytes(e, u) + post
    ensures RecordSpec(data, |pre|, u) == Success((e, |pre| + |RecordBytes(e, u)|))
  {
    var t := u.encode(e.text);
    var a := pre + Enc(e.stringId, 4) + [0];
    assert data == pre + Enc(e.stringId, 4) + ([0] + Enc(|t|, 2) + t + post);
    U32AtEnc(pre, e.stringId, [0] + Enc(|t|, 2) + t + post);
    assert data == a + Enc(|t|, 2) + (t + post);
    U16AtEnc(a, |t|, t + post);
    assert data == (a + Enc(|t|, 2)) + t + post;
    MidOf(a + Enc(|t|, 2), t, post);
    assert u.decode(t) == Some(e.text);
  }

  /** Packed records read back as their entries, whatever precedes or follows them. */
  lemma {:induction false} RecordsRoundTrip(data: seq<byte>, pre: seq<byte>, es: seq<STBLEntry>, post: seq<byte>, acc: seq<STBLEntry>, u: Utf8)
    requires Decodes(u) && AllPackable(es, u) && data == pre + BodyBytes(es, u) + post
    ensures RecordsSpec(data, |pre|, |es|, acc, u) == Success(acc + es)
    decreases |es|
  {
    if es == [] {
      assert acc + es == acc;
    } else {
      var e, tail := es[0], es[1..];
      var rest := BodyBytes(tail, u);
      var rb := RecordBytes(e, u);
      assert data == pre + rb + (rest + post);
      assert data == (pre + rb) + rest + post;
      assert Packable(e, u) && AllPackable(tail, u) by {
        assert es[0] == e;
        forall i | 0 <= i < |tail| ensures Packable(tail[i], u) { assert tail[i] == es[i + 1]; }
      }
      RecordRoundTrip(data, pre, e, rest + post, u);
      RecordsRoundTrip(data, pre + rb, tail, post, acc + [e], u);
      assert |pre + rb| == |pre| + |rb| && |tail| == |es| - 1;
      RecordsStep(data, |pre|, |es|, acc, e, |pre + rb|, u);
      assert acc + [e] + tail == acc + es;
    }
  }

  /** Reading n records is reading one, then n - 1 more after it. */
  lemma RecordsStep(data: seq<byte>, pos: nat, n: nat, acc: seq<STBLEntry>, e: STBLEntry, next: nat, u: Utf8)
    requires n > 0 && RecordSpec(data, pos, u) == Success((e, next))
    ensures RecordsSpec(data, pos, n, acc, u) == RecordsSpec(data, next, n - 1, acc + [e], u)
  {
  }

  /** The fields parse_stbl checks in a built header: magic, version and count. */
  lemma HeaderFields(n: nat, body: seq<byte>)
    requires n < U64_LIMIT
    ensures var d := HeaderBytes(n) + body;
      |d| >= STBL_HEADER_SIZE && d[..4] == STBL_MAGIC && U16At(d, 4) == STBL_VERSION && U64At(d, 7) == n
  {
    HeaderMagic(n, body);
    HeaderVersion(n, body);
    HeaderCount(n, body);
  }

  lemma HeaderMagic(n: nat, body: seq<byte>)
    ensures |HeaderBytes(n) + body| >= 4 && (HeaderBytes(n) + body)[..4] == STBL_MAGIC
  {
    var rest := Enc(STBL_VERSION, 2) + [0] + Enc(n, 8) + Enc(0, 2) + body;
    assert HeaderBytes(n) + body == STBL_MAGIC + rest;
  }

  lemma HeaderVersion(n: nat, body: seq<byte>)
    ensures |HeaderBytes(n) + body| >= 6 && U16At(HeaderBytes(n) + body, 4) == STBL_VERSION
  {
    var rest := [0] + Enc(n, 8) + Enc(0, 2) + body;
    assert HeaderBytes(n) + body == STBL_MAGIC + Enc(STBL_VERSION, 2) + rest;
    U16AtEnc(STBL_MAGIC, STBL_VERSION, rest);
  }

  lemma HeaderCount(n: nat, body: seq<byte>)
    requires n < U64_LIMIT
    ensures |HeaderBytes(n) + body| >= 15 && U64At(HeaderBytes(n) + body, 7) == n
  {
    var pre := STBL_MAGIC + Enc(STBL_VERSION, 2) + [0];
    var rest := Enc(0, 2) + body;
    assert HeaderBytes(n) + body == pre + Enc(n, 8) + rest;
    U64AtEnc(pre, n, rest);
  }

  /** Parsing what build_stbl produced gives the entries back. */
  lemma StblRoundTrip(es: seq<STBLEntry>, u: Utf8)
    requires Decodes(u) && BuildSpec(es, u).Success?
    ensures ParseSpec(BuildSpec(es, u).value, u) == Success(es)
  {
    var h := HeaderBytes(|es|);
    HeaderFields(|es|, BodyBytes(es, u));
    var data := h + BodyBytes(es, u);
    assert data == h + BodyBytes(es, u) + [];
    RecordsRoundTrip(data, h, es, [], [], u);
    assert [] + es == es;
  }

  // ---------------------------------------------------------------- text form

  const LINE_SEPARATOR: string := ": "

  /** One line of stbl_to_text: "0x", the id in at least 8 upper-case hex digits, ": ", the text. */
  function EntryLine(e: STBLEntry): string
  {
    "0x" + Hex(e.stringId, 8) + LINE_SEPARATOR + e.text
  }

  function Lines(es: seq<STBLEntry>): (r: seq<string>)
    ensures |r| == |es| && forall i :: 0 <= i < |es| ==> r[i] == EntryLine(es[i])
  {
    seq(|es|, i requires 0 <= i < |es| => EntryLine(es[i]))
  }

  /** stbl_to_text: the lines joined by newlines. */
  method StblToText(entries: seq<STBLEntry>) returns (text: string)
    ensures text == Join(Lines(entries), '\n')
  {
    var lines: seq<string> := [];
    var i := 0;
    while i < |entries|
      invariant 0 <= i <= |entries|
      invariant lines == Lines(entries[..i])
    {
      lines := lines + [EntryLine(entries[i])];
      i := i + 1;
    }
    assert entries[..i] == entries;
    return Join(lines, '\n');
  }

  /**
   * One line of text_to_stbl: blank after stripping is skipped (None); one
   * without ": " or whose id part is not hexadecimal is an STBLError;
   * otherwise the id, and the text after the first ": ".
   */
  function LineEntry(line: string): (r: Result<Option<STBLEntry>, Error>)
    ensures r.Failure? ==> r.error == STBLError
    ensures r == Success(None) <==> Strip(line) == []
  {
    var l := Strip(line);
    if l == [] then Success(None)
    else
      var k := FindSub(l, LINE_SEPARATOR);
      if k < 0 then Failure(STBLError)
      else match ParseHex(l[..k])
        case None => Failure(STBLError)
        case Some(id) => Success(Some(STBLEntry(id, l[k + 2..])))
  }

  function LinesEntries(lines: seq<string>): (r: Result<seq<STBLEntry>, Error>)
    ensures r.Failure? ==> r.error == STBLError
    ensures r.Success? ==> |r.value| <= |lines|
  {
    if lines == [] then Success([])
    else
      var es :- LinesEntries(lines[..|lines| - 1]);
      var e :- LineEntry(lines[|lines| - 1]);
      Success(if e.Some? then es + [e.value] else es)
  }

  /** text_to_stbl as a function. */
  function TextSpec(text: string): Result<seq<STBLEntry>, Error>
  {
    LinesEntries(Split(Strip(text), '\n'))
  }

  /** text_to_stbl: the entries of the non-blank lines, in order; the first bad line raises. */
  method TextToStbl(text: string) returns (r: Result<seq<STBLEntry>, Error>)
    ensures r == TextSpec(text)
  {
    var lines := Split(Strip(text), '\n');
    r := ParseLines(lines);
  }

  /** The loop of text_to_stbl over the lines of the stripped text. */
  method ParseLines(lines: seq<string>) returns (r: Result<seq<STBLEntry>, Error>)
    ensures r == LinesEntries(lines)
  {
    var entries: seq<STBLEntry> := [];
    var i := 0;
    while i < |lines|
      invariant 0 <= i <= |lines|
      invariant LinesEntries(lines[..i]) == Success(entries)
    {
      var e := LineEntry(lines[i]);
      LinesEntriesStep(lines, i);
      if e.Failure? {
        LinesEntriesFail(lines, i + 1);
        return Failure(e.error);
      }
      if e.value.Some? {
        entries := entries + [e.value.value];
      }
      i := i + 1;
    }
    assert lines[..i] == lines;
    return Success(entries);
  }

  /** The entries of one more line: its entry appended, or nothing, or its error. */
  lemma LinesEntriesStep(lines: seq<string>, i: nat)
    requires i < |lines| && LinesEntries(lines[..i]).Success?
    ensures var es := LinesEntries(lines[..i]).value; var e := LineEntry(lines[i]);
      LinesEntries(lines[..i + 1]) ==
        if e.Failure? then Failure(e.error)
        else if e.value.Some? then Success(es + [e.value.value])
        else Success(es)
  {
    assert lines[..i + 1][..i] == lines[..i];
  }

  /** A prefix that fails makes the whole fail. */
  lemma {:induction false} LinesEntriesFail(lines: seq<string>, i: nat)
    requires i <= |lines| && LinesEntries(lines[..i]).Failure?
    ensures LinesEntries(lines).Failure?
    decreases |lines| - i
  {
    if i == |lines| {
      assert lines[..i] == lines;
    } else {
      assert lines[..i + 1][..i] == lines[..i];
      LinesEntriesFail(lines, i + 1);
    }
  }

  /** A text that survives stripping and holds no newline, so its line holds it whole. */
  predicate Plain(t: string)
  {
    t != [] && '\n' !in t && !IsSpace(t[0]) && !IsSpace(t[|t| - 1])
  }

  /** The id part of a line: "0x" and upper-case hex digits, so neither ':' nor a newline. */
  lemma IdPart(x: nat)
    ensures var p := "0x" + Hex(x, 8); p[0] == '0' && ':' !in p && '\n' !in p
  {
    var h := Hex(x, 8);
    var p := "0x" + h;
    forall i | 0 <= i < |p| ensures p[i] != ':' && p[i] != '\n' {
      if i >= 2 { assert p[i] == h[i - 2]; }
    }
  }

  /** The first ": " of a line is the one after the id. */
  lemma SeparatorAfterId(p: string, rest: string)
    requires ':' !in p
    ensures FindSub(p + LINE_SEPARATOR + rest, LINE_SEPARATOR) == |p|
  {
    var s := p + LINE_SEPARATOR + rest;
    assert s[|p|..|p| + 2] == LINE_SEPARATOR;
    assert OccursAt(s, LINE_SEPARATOR, |p|);
    forall j | 0 <= j < |p| ensures !OccursAt(s, LINE_SEPARATOR, j) {
      assert s[j] == p[j];
    }
  }

  /** A line of a plain text is its own strip. */
  lemma PlainLineStripped(p: string, t: string)
    requires p != [] && p[0] == '0' && Plain(t)
    ensures Strip(p + LINE_SEPARATOR + t) == p + LINE_SEPARATOR + t
  {
    var l := p + LINE_SEPARATOR + t;
    assert l[0] == '0' && l[|l| - 1] == t[|t| - 1];
    StripNoSpace(l);
  }

  /** The line of an entry with a plain text reads back as that entry. */
  lemma LineRoundTrip(e: STBLEntry)
    requires Plain(e.text)
    ensures LineEntry(EntryLine(e)) == Success(Some(e))
  {
    var p := "0x" + Hex(e.stringId, 8);
    IdPart(e.stringId);
    ParseHexOfHex(e.stringId, 8);
    LineOf(p, e.text, e.stringId);
  }

  /** An id part without ':' that parses as id, then ": ", then a plain text. */
  lemma LineOf(p: string, t: string, id: nat)
    requires p != [] && p[0] == '0' && ':' !in p && ParseHex(p) == Some(id) && Plain(t)
    ensures LineEntry(p + LINE_SEPARATOR + t) == Success(Some(STBLEntry(id, t)))
  {
    var l := p + LINE_SEPARATOR + t;
    PlainLineStripped(p, t);
    SeparatorAfterId(p, t);
    assert l[..|p|] == p;
    assert l[|p| + 2..] == t;
    LineEntryOf(l, |p|, id);
  }

  /** A stripped line whose first ": " is at k and whose id part is hexadecimal. */
  lemma LineEntryOf(l: string, k: nat, id: nat)
    requires l != [] && Strip(l) == l && FindSub(l, LINE_SEPARATOR) == k && ParseHex(l[..k]) == Some(id)
    ensures LineEntry(l) == Success(Some(STBLEntry(id, l[k + 2..])))
  {
  }

  lemma PlainLines(es: seq<STBLEntry>)
    requires forall i :: 0 <= i < |es| ==> Plain(es[i].text)
    ensures forall k :: 0 <= k < |es| ==> '\n' !in Lines(es)[k]
  {
    forall k | 0 <= k < |es| ensures '\n' !in Lines(es)[k] {
      IdPart(es[k].stringId);
      assert Lines(es)[k] == ("0x" + Hex(es[k].stringId, 8)) + LINE_SEPARATOR + es[k].text;
    }
  }

  lemma {:induction false} LinesRoundTrip(es: seq<STBLEntry>)
    requires forall i :: 0 <= i < |es| ==> Plain(es[i].text)
    ensures LinesEntries(Lines(es)) == Success(es)
  {
    if es != [] {
      var init, last := es[..|es| - 1], es[|es| - 1];
      var ls := Lines(es);
      InitLast(es);
      LinesPrefix(es);
      assert forall i :: 0 <= i < |init| ==> Plain(init[i].text) by {
        forall i | 0 <= i < |init| ensures Plain(init[i].text) { assert init[i] == es[i]; }
      }
      LinesRoundTrip(init);
      LinesEntriesSnoc(ls, init, last);
    }
  }

  lemma InitLast(es: seq<STBLEntry>)
    requires es != []
    ensures es[..|es| - 1] + [es[|es| - 1]] == es
  {
  }

  lemma LinesPrefix(es: seq<STBLEntry>)
    requires es != []
    ensures Lines(es)[..|es| - 1] == Lines(es[..|es| - 1]) && Lines(es)[|es| - 1] == EntryLine(es[|es| - 1])
  {
  }

  /** The entries of lines whose last line is the line of an entry with a plain text. */
  lemma LinesEntriesSnoc(ls: seq<string>, es: seq<STBLEntry>, e: STBLEntry)
    requires ls != [] && LinesEntries(ls[..|ls| - 1]) == Success(es) && ls[|ls| - 1] == EntryLine(e) && Plain(e.text)
    ensures LinesEntries(ls) == Success(es + [e])
  {
    LineRoundTrip(e);
  }

  /** The first and last character of a join of non-empty parts. */
  lemma {:induction false} JoinEnds(parts: seq<string>, sep: char)
    requires |parts| >= 1 && forall k :: 0 <= k < |parts| ==> parts[k] != []
    ensures var j := Join(parts, sep); j != [] && j[0] == parts[0][0] && j[|j| - 1] == parts[|parts| - 1][|parts[|parts| - 1]| - 1]
  {
    if |parts| > 1 {
      JoinEnds(parts[1..], sep);
    }
  }

  /**
   * The text form round-trips for entries whose texts are plain: non-empty,
   * without a newline, and without whitespace at either end.
   */
  lemma TextRoundTrip(es: seq<STBLEntry>)
    requires forall i :: 0 <= i < |es| ==> Plain(es[i].text)
    ensures TextSpec(Join(Lines(es), '\n')) == Success(es)
  {
    if es == [] {
      EmptyText();
    } else {
      JoinedLinesStripped(es);
      PlainLines(es);
      SplitJoin(Lines(es), '\n');
      LinesRoundTrip(es);
    }
  }

  /** The empty text is one blank line, so no entries. */
  lemma EmptyText()
    ensures TextSpec([]) == Success([])
  {
    EmptySplit();
    BlankLine();
  }

  lemma EmptySplit()
    ensures Split(Strip([]), '\n') == [[]]
  {
    assert Strip([]) == [];
  }

  lemma BlankLine()
    ensures LinesEntries([[]]) == Success([])
  {
    assert LineEntry([]) == Success(None);
  }

  /** The joined lines of plain entries start with '0' and end in a plain text, so strip keeps them. */
  lemma JoinedLinesStripped(es: seq<STBLEntry>)
    requires es != [] && forall i :: 0 <= i < |es| ==> Plain(es[i].text)
    ensures var t := Join(Lines(es), '\n'); Strip(t) == t
  {
    var ls := Lines(es);
    JoinEnds(ls, '\n');
    EndsNotSpace(Join(ls, '\n'), ls[|es| - 1], es[|es| - 1].text);
  }

  /** A text starting with '0' and ending like a plain text is its own strip. */
  lemma EndsNotSpace(t: string, line: string, text: string)
    requires Plain(text) && t != [] && t[0] == '0' && line != [] && t[|t| - 1] == line[|line| - 1]
    requires |line| >= |text| && line[|line| - |text|..] == text
    ensures Strip(t) == t
  {
    assert line[|line| - 1] == text[|text| - 1];
    StripNoSpace(t);
  }
}
