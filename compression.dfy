/**
 * Resource codecs (s4lt/core/compression.py): no compression, zlib (a 2-byte
 * header followed by a raw DEFLATE stream) and RefPack, the LZ77 variant with
 * a 5-byte header and one-byte commands.
 *
 * DEFLATE itself is a parameter: a Deflate value pairs the raw deflater
 * (zlib.compress at level 9 with its wrapper stripped) with the raw inflater
 * (zlib.decompress with negative window bits; None where zlib raises), and
 * Inverts states the one property the code relies on.
 *
 * RefPack is decoded by DecompressRefpack, a loop over commands that appends
 * to an output buffer; RefpackSpec, RunCommands and Command are the same
 * decoder as functions, and the lemmas below are stated about them.
 */
module Compression {
  import opened Bytes
  import opened Wrappers
  import opened Exceptions
  import opened Index

  datatype Deflate = Deflate(deflate: seq<byte> -> seq<byte>, inflate: seq<byte> -> Option<seq<byte>>)

  ghost predicate Inverts(z: Deflate)
  {
    forall x :: z.inflate(z.deflate(x)) == Some(x)
  }

  const ZLIB_HEADER: seq<byte> := [0x78, 0x9C]

  // ------------------------------------------------------------ zlib

  /** decompress_zlib: drop the 2-byte header and inflate the rest. */
  function DecompressZlib(data: seq<byte>, expectedSize: nat, z: Deflate): (r: Result<seq<byte>, Error>)
    ensures r.Failure? ==> r.error == CompressionError
    ensures r.Success? ==> |data| >= 2 && z.inflate(data[2..]) == Some(r.value)
    ensures r.Success? && expectedSize > 0 ==> |r.value| == expectedSize
  {
    if |data| < 2 then Failure(CompressionError)
    else match z.inflate(data[2..])
      case None => Failure(CompressionError)
      case Some(result) =>
        if expectedSize > 0 && |result| != expectedSize then Failure(CompressionError) else Success(result)
  }

  /** compress_zlib: the fixed header 78 9C, then the raw DEFLATE stream. */
  function CompressZlib(data: seq<byte>, z: Deflate): (r: seq<byte>)
    ensures |r| >= 2 && r[..2] == ZLIB_HEADER && r[2..] == z.deflate(data)
  {
    ZLIB_HEADER + z.deflate(data)
  }

  // ------------------------------------------------------------ RefPack commands

  /** 0x00-0x7F: (cmd >> 5) & 0x03 literal bytes before the copy. */
  function ShortLiteralCount(cmd: byte): (n: nat)
    ensures n <= 3
  {
    (((cmd as bv8) >> 5) & 0x03) as nat
  }

  /** 0x00-0x7F: offset ((cmd & 0x1F) << 3) | ((b2 >> 5) & 0x07), plus one. */
  function ShortOffset(cmd: byte, b2: byte): (r: nat)
    ensures 1 <= r <= 256
  {
    ((((cmd as bv16) & 0x1F) << 3) | (((b2 as bv16) >> 5) & 0x07)) as nat + 1
  }

  /** 0x00-0x7F: length (b2 & 0x1F) + 3. */
  function ShortLength(b2: byte): (r: nat)
    ensures 3 <= r <= 34
  {
    ((b2 as bv8) & 0x1F) as nat + 3
  }

  /** 0x80-0xBF: offset ((cmd & 0x03) << 8) | b2, plus one. */
  function BackrefOffset(cmd: byte, b2: byte): (r: nat)
    ensures 1 <= r <= 1024
  {
    var x := (((cmd as bv16) & 0x03) << 8) | (b2 as bv16);
    assert x <= 0x3FF;
    x as nat + 1
  }

  /** 0x80-0xBF: length ((cmd >> 2) & 0x07) + 3. */
  function BackrefLength(cmd: byte): (r: nat)
    ensures 3 <= r <= 10
  {
    (((cmd as bv8) >> 2) & 0x07) as nat + 3
  }

  /** 0xC0-0xDF: offset ((cmd & 0x03) << 12) | (b2 << 4) | ((b3 >> 4) & 0x0F), plus one. */
  function MediumOffset(cmd: byte, b2: byte, b3: byte): (r: nat)
    ensures 1 <= r <= 16384
  {
    ((((cmd as bv16) & 0x03) << 12) | ((b2 as bv16) << 4) | (((b3 as bv16) >> 4) & 0x0F)) as nat + 1
  }

  /** 0xC0-0xDF: length ((cmd >> 2) & 0x0F) + 4, which is 4 to 11 for these commands. */
  function MediumLength(cmd: byte): (r: nat)
    requires 0xC0 <= cmd <= 0xDF
    ensures 4 <= r <= 11
  {
    (((cmd as bv8) >> 2) & 0x0F) as nat + 4
  }

  /**
   * The bytes a back-reference appends: byte i comes from offset bytes back in
   * the output as it grows, so a length beyond the offset repeats the window.
   */
  function Repeated(out: seq<byte>, offset: nat, length: nat): (r: seq<byte>)
    requires 1 <= offset <= |out|
    ensures |r| == length
  {
    seq(length, i requires 0 <= i < length => out[|out| - offset + Wrap(i, offset)])
  }

  /** i modulo m, by repeated subtraction: the position in a window of width m. */
  function Wrap(i: nat, m: nat): (r: nat)
    requires m > 0
    ensures r < m && (i < m ==> r == i)
  {
    if i < m then i else Wrap(i - m, m)
  }

  /** _copy_backref as a function: None where it raises. */
  function Backref(out: seq<byte>, offset: nat, length: nat): (r: Option<seq<byte>>)
    requires offset >= 1
    ensures r.None? <==> offset > |out|
  {
    if offset > |out| then None else Some(out + Repeated(out, offset, length))
  }

  datatype Step = Next(pos: nat, out: seq<byte>) | Stop(out: seq<byte>) | Fail

  /** One pass of the decoding loop, for the command byte at pos. */
  function Command(data: seq<byte>, pos: nat, out: seq<byte>): (s: Step)
    requires pos < |data|
    ensures s.Next? ==> pos < s.pos <= |data| && |s.out| > |out|
  {
    var cmd := data[pos];
    var q := pos + 1;
    if cmd <= 0x7F then
      var n := ShortLiteralCount(cmd);
      if q + n >= |data| then Fail
      else
        var out1 := out + data[q..q + n];
        var b2 := data[q + n];
        match Backref(out1, ShortOffset(cmd, b2), ShortLength(b2))
        case None => Fail
        case Some(o) => Next(q + n + 1, o)
    else if cmd <= 0xBF then
      if q >= |data| then Fail
      else
        var b2 := data[q];
        match Backref(out, BackrefOffset(cmd, b2), BackrefLength(cmd))
        case None => Fail
        case Some(o) => Next(q + 1, o)
    else if cmd <= 0xDF then
      if q + 2 > |data| then Fail
      else
        var b2 := data[q];
        var b3 := data[q + 1];
        match Backref(out, MediumOffset(cmd, b2, b3), MediumLength(cmd))
        case None => Fail
        case Some(o) => Next(q + 2, o)
    else if cmd <= 0xFB then
      var n := cmd as nat - 0xDF;
      if q + n > |data| then Fail else Next(q + n, out + data[q..q + n])
    else
      var t := cmd as nat - 0xFC;
      var k := if q + t <= |data| then t else |data| - q;
      Stop(out + data[q..q + k])
  }

  /** The decoding loop: run commands while input remains and the output is short of size. */
  function RunCommands(data: seq<byte>, pos: nat, out: seq<byte>, size: nat): Result<seq<byte>, Error>
    decreases |data| - pos
  {
    if pos >= |data| || |out| >= size then Success(out)
    else match Command(data, pos, out)
      case Fail => Failure(CompressionError)
      case Stop(o) => Success(o)
      case Next(p, o) => RunCommands(data, p, o, size)
  }

  /** The 24-bit big-endian size in bytes 2-4 of the header. */
  function HeaderSize(data: seq<byte>): nat
    requires |data| >= 5
  {
    data[2] as nat * 65536 + data[3] as nat * 256 + data[4] as nat
  }

  /** decompress_refpack as a function. */
  function RefpackSpec(data: seq<byte>, expectedSize: nat): (r: Result<seq<byte>, Error>)
    ensures |data| < 5 || data[0] != 0x10 || data[1] != 0xFB ==> r.Failure?
    ensures r.Success? && expectedSize > 0 ==> |r.value| == expectedSize
  {
    if |data| < 5 then Failure(CompressionError)
    else if data[0] != 0x10 || data[1] != 0xFB then Failure(CompressionError)
    else
      var size := if expectedSize > 0 && HeaderSize(data) != expectedSize then expectedSize else HeaderSize(data);
      var out :- RunCommands(data, 5, [], size);
      if expectedSize > 0 && |out| != expectedSize then Failure(CompressionError) else Success(out)
  }

  /** decompress: dispatch on the codec of the index entry. */
  function Decompress(data: seq<byte>, compressionType: nat, expectedSize: nat, z: Deflate): (r: Result<seq<byte>, Error>)
    ensures r.Failure? ==> r.error == CompressionError
    ensures compressionType == COMPRESSION_NONE ==> r == Success(data)
    ensures compressionType == COMPRESSION_ZLIB ==> r == DecompressZlib(data, expectedSize, z)
    ensures compressionType == COMPRESSION_REFPACK || compressionType == COMPRESSION_REFPACK_ALT ==>
      r == RefpackSpec(data, expectedSize)
    ensures compressionType !in {COMPRESSION_NONE, COMPRESSION_ZLIB, COMPRESSION_REFPACK, COMPRESSION_REFPACK_ALT} ==>
      r == Failure(CompressionError)
  {
    if compressionType == COMPRESSION_NONE then Success(data)
    else if compressionType == COMPRESSION_ZLIB then DecompressZlib(data, expectedSize, z)
    else if compressionType == COMPRESSION_REFPACK || compressionType == COMPRESSION_REFPACK_ALT then
      RefpackErrors(data, expectedSize);
      RefpackSpec(data, expectedSize)
    else Failure(CompressionError)
  }

  /** compress: only no compression and zlib are supported for writing. */
  function Compress(data: seq<byte>, compressionType: nat, z: Deflate): (r: Result<seq<byte>, Error>)
    ensures r.Success? <==> compressionType == COMPRESSION_NONE || compressionType == COMPRESSION_ZLIB
    ensures r.Failure? ==> r.error == CompressionError
  {
    if compressionType == COMPRESSION_NONE then Success(data)
    else if compressionType == COMPRESSION_ZLIB then Success(CompressZlib(data, z))
    else Failure(CompressionError)
  }

  // ------------------------------------------------------------ the decoder

  /** _copy_backref: append length bytes copied one at a time from offset back. */
  method CopyBackref(output: seq<byte>, offset: nat, length: nat) returns (r: Option<seq<byte>>)
    requires offset >= 1
    ensures r == Backref(output, offset, length)
  {
    if offset > |output| {
      return None;
    }
    var start := |output| - offset;
    var buf := output;
    var i := 0;
    while i < length
      invariant 0 <= i <= length
      invariant buf == output + Repeated(output, offset, i)
    {
      WindowByte(output, offset, i, buf);
      buf := buf + [buf[start + i]];
      assert buf == output + Repeated(output, offset, i + 1);
      i := i + 1;
    }
    return Some(buf);
  }

  /** The byte a copy reads at step i is the window byte i % offset. */
  lemma {:induction false} WindowByte(output: seq<byte>, offset: nat, i: nat, buf: seq<byte>)
    requires 1 <= offset <= |output|
    requires buf == output + Repeated(output, offset, i)
    ensures |output| - offset + i < |buf|
    ensures buf[|output| - offset + i] == output[|output| - offset + Wrap(i, offset)]
  {
    var start := |output| - offset;
    if i >= offset {
      assert buf[start + i] == Repeated(output, offset, i)[i - offset];
    }
  }

  /** Append n input bytes from pos, failing where the input runs out. */
  method CopyLiterals(data: seq<byte>, pos: nat, output: seq<byte>, n: nat) returns (r: Option<(nat, seq<byte>)>)
    requires pos <= |data|
    ensures r.None? <==> pos + n > |data|
    ensures r.Some? ==> r.value == (pos + n, output + data[pos..pos + n])
  {
    var p := pos;
    var buf := output;
    var k := 0;
    while k < n
      invariant 0 <= k <= n && p == pos + k && p <= |data|
      invariant buf == output + data[pos..p]
    {
      if p >= |data| {
        return None;
      }
      buf := buf + [data[p]];
      assert data[pos..p + 1] == data[pos..p] + [data[p]];
      p := p + 1;
      k := k + 1;
    }
    return Some((p, buf));
  }

  /** The trailing bytes of a stop code: up to t bytes, as many as remain. */
  method CopyTrailing(data: seq<byte>, pos: nat, output: seq<byte>, t: nat) returns (buf: seq<byte>)
    requires pos <= |data|
    ensures buf == output + data[pos..if pos + t <= |data| then pos + t else |data|]
  {
    var p := pos;
    buf := output;
    var k := 0;
    while k < t
      invariant 0 <= k <= t && p == pos + k && p <= |data|
      invariant buf == output + data[pos..p]
    {
      if p >= |data| {
        break;
      }
      buf := buf + [data[p]];
      assert data[pos..p + 1] == data[pos..p] + [data[p]];
      p := p + 1;
      k := k + 1;
    }
  }

  /** The body of the decoding loop: one command, chosen by its first byte. */
  method ApplyCommand(data: seq<byte>, pos: nat, output: seq<byte>) returns (s: Step)
    requires pos < |data|
    ensures s == Command(data, pos, output)
  {
    var cmd := data[pos];
    if cmd <= 0x7F {
      s := ShortCommand(data, pos, output);
    } else if cmd <= 0xDF {
      s := CopyCommand(data, pos, output);
    } else {
      s := LiteralCommand(data, pos, output);
    }
  }

  /** 0x00-0x7F: up to three literals, then a short back-reference. */
  method ShortCommand(data: seq<byte>, pos: nat, output: seq<byte>) returns (s: Step)
    requires pos < |data| && data[pos] <= 0x7F
    ensures s == Command(data, pos, output)
  {
    var cmd := data[pos];
    var lit := CopyLiterals(data, pos + 1, output, ShortLiteralCount(cmd));
    if lit.None? || lit.value.0 >= |data| {
      return Fail;
    }
    var p := lit.value.0;
    var byte2 := data[p];
    var o := CopyBackref(lit.value.1, ShortOffset(cmd, byte2), ShortLength(byte2));
    if o.None? {
      return Fail;
    }
    return Next(p + 1, o.value);
  }

  /** 0x80-0xDF: a back-reference with a two- or three-byte command. */
  method CopyCommand(data: seq<byte>, pos: nat, output: seq<byte>) returns (s: Step)
    requires pos < |data| && 0x7F < data[pos] <= 0xDF
    ensures s == Command(data, pos, output)
  {
    var cmd := data[pos];
    var p := pos + 1;
    if cmd <= 0xBF {
      if p >= |data| {
        return Fail;
      }
      var byte2 := data[p];
      var o := CopyBackref(output, BackrefOffset(cmd, byte2), BackrefLength(cmd));
      if o.None? {
        return Fail;
      }
      return Next(p + 1, o.value);
    } else {
      if p + 2 > |data| {
        return Fail;
      }
      var byte2 := data[p];
      var byte3 := data[p + 1];
      var o := CopyBackref(output, MediumOffset(cmd, byte2, byte3), MediumLength(cmd));
      if o.None? {
        return Fail;
      }
      return Next(p + 2, o.value);
    }
  }

  /** 0xE0-0xFF: a run of literals, or the stop code with up to three trailing literals. */
  method LiteralCommand(data: seq<byte>, pos: nat, output: seq<byte>) returns (s: Step)
    requires pos < |data| && 0xDF < data[pos]
    ensures s == Command(data, pos, output)
  {
    var cmd := data[pos];
    var p := pos + 1;
    if cmd <= 0xFB {
      var lit := CopyLiterals(data, p, output, cmd as nat - 0xDF);
      if lit.None? {
        return Fail;
      }
      return Next(lit.value.0, lit.value.1);
    } else {
      var buf := CopyTrailing(data, p, output, cmd as nat - 0xFC);
      return Stop(buf);
    }
  }

  /** decompress_refpack. */
  method DecompressRefpack(data: seq<byte>, expectedSize: nat) returns (r: Result<seq<byte>, Error>)
    ensures r == RefpackSpec(data, expectedSize)
  {
    if |data| < 5 {
      return Failure(CompressionError);
    }
    if data[0] != 0x10 || data[1] != 0xFB {
      return Failure(CompressionError);
    }
    var uncompressedSize := data[2] as nat * 65536 + data[3] as nat * 256 + data[4] as nat;
    if expectedSize > 0 && uncompressedSize != expectedSize {
      uncompressedSize := expectedSize;
    }
    var output: seq<byte> := [];
    var pos := 5;
    while pos < |data| && |output| < uncompressedSize
      invariant 5 <= pos
      invariant RunCommands(data, pos, output, uncompressedSize) == RunCommands(data, 5, [], uncompressedSize)
      decreases |data| - pos
    {
      var s := ApplyCommand(data, pos, output);
      match s {
        case Fail =>
          return Failure(CompressionError);
        case Stop(o) =>
          output := o;
          break;
        case Next(p, o) =>
          pos, output := p, o;
      }
    }
    if expectedSize > 0 && |output| != expectedSize {
      return Failure(CompressionError);
    }
    return Success(output);
  }

  // ------------------------------------------------------------ properties

  lemma {:induction false} RunCommandsErrors(data: seq<byte>, pos: nat, out: seq<byte>, size: nat)
    ensures RunCommands(data, pos, out, size).Failure? ==> RunCommands(data, pos, out, size).error == CompressionError
    decreases |data| - pos
  {
    if pos < |data| && |out| < size {
      match Command(data, pos, out)
      case Fail =>
      case Stop(_) =>
      case Next(p, o) => RunCommandsErrors(data, p, o, size);
    }
  }

  lemma RefpackErrors(data: seq<byte>, expectedSize: nat)
    ensures RefpackSpec(data, expectedSize).Failure? ==> RefpackSpec(data, expectedSize).error == CompressionError
  {
    if |data| >= 5 {
      var size := if expectedSize > 0 && HeaderSize(data) != expectedSize then expectedSize else HeaderSize(data);
      RunCommandsErrors(data, 5, [], size);
    }
  }

  /** A back-reference with offset 1 repeats the last byte: run-length expansion. */
  lemma RepeatLastByte(out: seq<byte>, length: nat)
    requires |out| >= 1
    ensures Repeated(out, 1, length) == seq(length, _ => out[|out| - 1])
  {
  }

  /** A back-reference no longer than its offset copies a plain slice of the window. */
  lemma {:induction false} CopyWithinWindow(out: seq<byte>, offset: nat, length: nat)
    requires 1 <= offset <= |out| && length <= offset
    ensures Repeated(out, offset, length) == out[|out| - offset..|out| - offset + length]
  {
  }

  /** A back-reference before any output has been produced is an error. */
  lemma BackrefFirstFails(data: seq<byte>, expectedSize: nat)
    requires |data| >= 7 && data[0] == 0x10 && data[1] == 0xFB && 0x80 <= data[5] <= 0xDF
    requires expectedSize > 0 || HeaderSize(data) > 0
    ensures RefpackSpec(data, expectedSize) == Failure(CompressionError)
  {
  }

  /** The decoding loop only appends: its result starts with the output it was given. */
  lemma {:induction false} RunCommandsExtends(data: seq<byte>, pos: nat, out: seq<byte>, size: nat)
    requires RunCommands(data, pos, out, size).Success?
    ensures var o := RunCommands(data, pos, out, size).value; |o| >= |out| && o[..|out|] == out
    decreases |data| - pos
  {
    if pos < |data| && |out| < size {
      match Command(data, pos, out)
      case Fail =>
      case Stop(o) => CommandExtends(data, pos, out);
      case Next(p, o) =>
        CommandExtends(data, pos, out);
        RunCommandsExtends(data, p, o, size);
        var fin := RunCommands(data, p, o, size).value;
        assert fin[..|out|] == fin[..|o|][..|out|];
    }
  }

  /** Every command only appends to the output. */
  lemma CommandExtends(data: seq<byte>, pos: nat, out: seq<byte>)
    requires pos < |data|
    ensures match Command(data, pos, out)
      case Fail => true
      case Stop(o) => |o| >= |out| && o[..|out|] == out
      case Next(_, o) => |o| >= |out| && o[..|out|] == out
  {
    var cmd := data[pos];
    if cmd <= 0x7F {
      var n := ShortLiteralCount(cmd);
      if pos + 1 + n < |data| {
        var out1 := out + data[pos + 1..pos + 1 + n];
        assert out1[..|out|] == out;
      }
    }
  }

  /** Commands read only the input from their own position on. */
  lemma {:induction false} RunCommandsReadsFrom(a: seq<byte>, b: seq<byte>, pos: nat, out: seq<byte>, size: nat, from: nat)
    requires |a| == |b| && from <= pos && from <= |a| && a[from..] == b[from..]
    ensures RunCommands(a, pos, out, size) == RunCommands(b, pos, out, size)
    decreases |a| - pos
  {
    if pos < |a| && |out| < size {
      CommandReadsFrom(a, b, pos, out, from);
      match Command(a, pos, out)
      case Fail =>
      case Stop(_) =>
      case Next(p, o) => RunCommandsReadsFrom(a, b, p, o, size, from);
    }
  }

  /** One command reads only the input from its own position on. */
  lemma CommandReadsFrom(a: seq<byte>, b: seq<byte>, pos: nat, out: seq<byte>, from: nat)
    requires |a| == |b| && from <= pos < |a| && a[from..] == b[from..]
    ensures Command(a, pos, out) == Command(b, pos, out)
  {
    forall i | from <= i < |a| ensures a[i] == b[i] { assert a[i] == a[from..][i - from]; }
    var cmd, q := a[pos], pos + 1;
    if cmd <= 0x7F {
      ShortReadsFrom(a, b, pos, out, from);
    } else if cmd <= 0xDF {
      BackrefReadsFrom(a, b, pos, out, from);
    } else {
      LiteralsReadsFrom(a, b, pos, out, from);
    }
  }

  lemma ShortReadsFrom(a: seq<byte>, b: seq<byte>, pos: nat, out: seq<byte>, from: nat)
    requires |a| == |b| && from <= pos < |a| && a[from..] == b[from..]
    requires forall i :: from <= i < |a| ==> a[i] == b[i]
    requires a[pos] <= 0x7F
    ensures Command(a, pos, out) == Command(b, pos, out)
  {
    var q, n := pos + 1, ShortLiteralCount(a[pos]);
    if q + n < |a| {
      SameTailSlice(a, b, from, q, q + n);
      assert a[q + n] == b[q + n];
      assert out + a[q..q + n] == out + b[q..q + n];
    }
  }

  lemma BackrefReadsFrom(a: seq<byte>, b: seq<byte>, pos: nat, out: seq<byte>, from: nat)
    requires |a| == |b| && from <= pos < |a|
    requires forall i :: from <= i < |a| ==> a[i] == b[i]
    requires 0x7F < a[pos] <= 0xDF
    ensures Command(a, pos, out) == Command(b, pos, out)
  {
  }

  lemma LiteralsReadsFrom(a: seq<byte>, b: seq<byte>, pos: nat, out: seq<byte>, from: nat)
    requires |a| == |b| && from <= pos < |a| && a[from..] == b[from..]
    requires forall i :: from <= i < |a| ==> a[i] == b[i]
    requires 0xDF < a[pos]
    ensures Command(a, pos, out) == Command(b, pos, out)
  {
    var cmd, q := a[pos], pos + 1;
    if cmd <= 0xFB {
      var n := cmd as nat - 0xDF;
      if q + n <= |a| { SameTailSlice(a, b, from, q, q + n); }
    } else {
      var t := cmd as nat - 0xFC;
      SameTailSlice(a, b, from, q, if q + t <= |a| then q + t else |a|);
    }
  }

  /** With a non-zero expected size, the size in the header plays no part. */
  lemma ExpectedSizeOverridesHeader(data: seq<byte>, expectedSize: nat, h2: byte, h3: byte, h4: byte)
    requires |data| >= 5 && expectedSize > 0
    ensures RefpackSpec(data[2 := h2][3 := h3][4 := h4], expectedSize) == RefpackSpec(data, expectedSize)
  {
    var d := data[2 := h2][3 := h3][4 := h4];
    assert d[5..] == data[5..];
    RunCommandsReadsFrom(d, data, 5, [], expectedSize, 5);
  }

  /** The header of a stream whose size field is n < 2^24. */
  function RefpackHeader(n: nat): seq<byte>
    requires n < 0x100_0000
  {
    [0x10, 0xFB, (n / 65536) as byte, ((n / 256) % 256) as byte, (n % 256) as byte]
  }

  /** One literal-run command of 1 to 28 bytes followed by a stop code decodes to those bytes. */
  lemma LiteralRun(lits: seq<byte>)
    requires 1 <= |lits| <= 28
    ensures RefpackSpec(RefpackHeader(|lits|) + [(0xDF + |lits|) as byte] + lits + [0xFC], |lits|) == Success(lits)
  {
    var n := |lits|;
    var data := RefpackHeader(n) + [(0xDF + n) as byte] + lits + [0xFC];
    assert data[..5] == RefpackHeader(n);
    assert HeaderSize(data) == n;
    assert data[5] as nat == 0xDF + n;
    assert data[6..6 + n] == lits;
    var e: seq<byte> := [];
    assert e + lits == lits;
    assert Command(data, 5, []) == Next(6 + n, lits);
    assert RunCommands(data, 5, [], n) == RunCommands(data, 6 + n, lits, n);
  }

  /** The literal-only test vector: E3 'T' 'E' 'S' 'T' FC with size 4 decodes to "TEST". */
  lemma VectorLiteralOnly()
    ensures RefpackSpec([0x10, 0xFB, 0x00, 0x00, 0x04, 0xE3, 0x54, 0x45, 0x53, 0x54, 0xFC], 4)
      == Success([0x54, 0x45, 0x53, 0x54])
  {
    LiteralRun([0x54, 0x45, 0x53, 0x54]);
    assert RefpackHeader(4) == [0x10, 0xFB, 0x00, 0x00, 0x04];
    assert RefpackHeader(4) + [(0xDF + 4) as byte] + [0x54, 0x45, 0x53, 0x54] + [0xFC]
      == [0x10, 0xFB, 0x00, 0x00, 0x04, 0xE3, 0x54, 0x45, 0x53, 0x54, 0xFC];
  }

  /** The back-reference test vector: "ABCD", then 84 03 (offset 4, length 4), gives "ABCDABCD". */
  lemma VectorBackref()
    ensures RefpackSpec([0x10, 0xFB, 0x00, 0x00, 0x08, 0xE3, 0x41, 0x42, 0x43, 0x44, 0x84, 0x03, 0xFC], 8)
      == Success([0x41, 0x42, 0x43, 0x44, 0x41, 0x42, 0x43, 0x44])
  {
    var data: seq<byte> := [0x10, 0xFB, 0x00, 0x00, 0x08, 0xE3, 0x41, 0x42, 0x43, 0x44, 0x84, 0x03, 0xFC];
    var abcd: seq<byte> := [0x41, 0x42, 0x43, 0x44];
    VectorBackrefLiterals(data, abcd);
    VectorBackrefCopy(data, abcd);
    assert RunCommands(data, 5, [], 8) == RunCommands(data, 10, abcd, 8);
    assert RunCommands(data, 10, abcd, 8) == RunCommands(data, 12, abcd + abcd, 8);
    assert RunCommands(data, 12, abcd + abcd, 8) == Success(abcd + abcd);
    assert HeaderSize(data) == 8;
    assert abcd + abcd == [0x41, 0x42, 0x43, 0x44, 0x41, 0x42, 0x43, 0x44];
  }

  lemma VectorBackrefLiterals(data: seq<byte>, abcd: seq<byte>)
    requires data == [0x10, 0xFB, 0x00, 0x00, 0x08, 0xE3, 0x41, 0x42, 0x43, 0x44, 0x84, 0x03, 0xFC]
    requires abcd == [0x41, 0x42, 0x43, 0x44]
    ensures Command(data, 5, []) == Next(10, abcd)
  {
    assert data[6..10] == abcd;
    var e: seq<byte> := [];
    assert e + abcd == abcd;
  }

  lemma VectorBackrefCopy(data: seq<byte>, abcd: seq<byte>)
    requires data == [0x10, 0xFB, 0x00, 0x00, 0x08, 0xE3, 0x41, 0x42, 0x43, 0x44, 0x84, 0x03, 0xFC]
    requires abcd == [0x41, 0x42, 0x43, 0x44]
    ensures Command(data, 10, abcd) == Next(12, abcd + abcd)
  {
    assert data[10] == 0x84 && data[11] == 0x03;
    assert BackrefOffset(0x84, 0x03) == 4 && BackrefLength(0x84) == 4;
    CopyWithinWindow(abcd, 4, 4);
    assert abcd[0..4] == abcd;
  }

  /** The invalid test vector: a bare stop code cannot produce the 16 expected bytes. */
  lemma VectorStopTooEarly()
    ensures RefpackSpec([0x10, 0xFB, 0x00, 0x00, 0x10, 0xFF], 16) == Failure(CompressionError)
  {
    var data: seq<byte> := [0x10, 0xFB, 0x00, 0x00, 0x10, 0xFF];
    assert Command(data, 5, []) == Stop([]);
  }

  /** Unknown codecs are refused. */
  lemma UnknownCodec(data: seq<byte>, compressionType: nat, expectedSize: nat, z: Deflate)
    requires compressionType !in {COMPRESSION_NONE, COMPRESSION_ZLIB, COMPRESSION_REFPACK, COMPRESSION_REFPACK_ALT}
    ensures Decompress(data, compressionType, expectedSize, z) == Failure(CompressionError)
  {
  }

  /**
   * Decompressing what compress produced gives the data back, for both
   * writable codecs, with the expected size unset or equal to the data length.
   */
  lemma CompressRoundTrip(data: seq<byte>, compressionType: nat, expectedSize: nat, z: Deflate)
    requires Inverts(z)
    requires compressionType == COMPRESSION_NONE || compressionType == COMPRESSION_ZLIB
    requires expectedSize == 0 || expectedSize == |data|
    ensures Compress(data, compressionType, z).Success?
    ensures Decompress(Compress(data, compressionType, z).value, compressionType, expectedSize, z) == Success(data)
  {
    if compressionType == COMPRESSION_ZLIB {
      var c := CompressZlib(data, z);
      assert c[2..] == z.deflate(data);
      assert z.inflate(z.deflate(data)) == Some(data);
    }
  }
}
