/**
 * Bytes and the little-endian integer encodings of Python's struct module
 * ("<H", "<I", "<Q"): a byte string decodes to a natural number, and a natural
 * number below 256^n encodes to n bytes.
 */
module Bytes {
  type byte = b: int | 0 <= b < 256

  const U16_LIMIT: nat := 0x1_0000
  const U32_LIMIT: nat := 0x1_0000_0000
  const U64_LIMIT: nat := 0x1_0000_0000_0000_0000

  function Pow256(n: nat): (r: nat)
    ensures r > 0
  {
    if n == 0 then 1 else 256 * Pow256(n - 1)
  }

  lemma Pow256Values()
    ensures Pow256(1) == 256 && Pow256(2) == U16_LIMIT && Pow256(4) == U32_LIMIT && Pow256(8) == U64_LIMIT
  {
    calc {
      Pow256(8);
      256 * Pow256(7);
      256 * 256 * Pow256(6);
      256 * 256 * 256 * Pow256(5);
      256 * 256 * 256 * 256 * Pow256(4);
    }
    calc {
      Pow256(4);
      256 * Pow256(3);
      256 * 256 * Pow256(2);
      256 * 256 * 256 * Pow256(1);
      256 * 256 * 256 * 256 * Pow256(0);
    }
  }

  /** The unsigned little-endian value of a byte string. */
  function LE(s: seq<byte>): nat
  {
    if s == [] then 0 else s[0] as nat + 256 * LE(s[1..])
  }

  /** The n-byte little-endian encoding of x modulo 256^n. */
  function Enc(x: nat, n: nat): (r: seq<byte>)
    ensures |r| == n
  {
    if n == 0 then [] else [(x % 256) as byte] + Enc(x / 256, n - 1)
  }

  function U16At(s: seq<byte>, o: nat): nat
    requires o + 2 <= |s|
  {
    LE(s[o..o + 2])
  }

  function U32At(s: seq<byte>, o: nat): nat
    requires o + 4 <= |s|
  {
    LE(s[o..o + 4])
  }

  function U64At(s: seq<byte>, o: nat): nat
    requires o + 8 <= |s|
  {
    LE(s[o..o + 8])
  }

  /** n zero bytes, as bytearray(n) or a struct pad field gives. */
  function Zeros(n: nat): (r: seq<byte>)
    ensures |r| == n && forall i :: 0 <= i < n ==> r[i] == 0
  {
    seq(n, _ => 0)
  }

  lemma {:induction false} LEBound(s: seq<byte>)
    ensures LE(s) < Pow256(|s|)
  {
    if s != [] {
      LEBound(s[1..]);
    }
  }

  /** Decoding the encoding gives the number back when it fits. */
  lemma {:induction false} LEOfEnc(x: nat, n: nat)
    requires x < Pow256(n)
    ensures LE(Enc(x, n)) == x
  {
    if n > 0 {
      var r := Enc(x, n);
      assert r[1..] == Enc(x / 256, n - 1);
      LEOfEnc(x / 256, n - 1);
    }
  }

  /** Encoding the value of a byte string gives the string back. */
  lemma {:induction false} EncOfLE(s: seq<byte>)
    ensures Enc(LE(s), |s|) == s
  {
    if s != [] {
      EncOfLE(s[1..]);
      assert (s[0] as nat + 256 * LE(s[1..])) / 256 == LE(s[1..]);
    }
  }

  /** The arithmetic step of LEAppend, on plain numbers. */
  lemma ShiftedSum(ab: nat, a: nat, pa: nat, x: nat, y: nat, z: nat, w: nat)
    requires ab == x + 256 * (y + z * w) && a == x + 256 * y && pa == 256 * z
    ensures ab == a + pa * w
  {
    assert 256 * (z * w) == (256 * z) * w;
  }

  /** The value of a concatenation: the low part, plus the high part shifted. */
  lemma {:induction false} LEAppend(a: seq<byte>, b: seq<byte>)
    ensures LE(a + b) == LE(a) + Pow256(|a|) * LE(b)
  {
    if a != [] {
      var t := a[1..];
      assert (a + b)[1..] == t + b;
      LEAppend(t, b);
      assert LE(a + b) == a[0] as nat + 256 * LE(t + b);
      ShiftedSum(LE(a + b), LE(a), Pow256(|a|), a[0] as nat, LE(t), Pow256(|t|), LE(b));
    } else {
      assert a + b == b;
    }
  }

  lemma {:induction false} U32AtEnc(pre: seq<byte>, x: nat, post: seq<byte>)
    requires x < U32_LIMIT
    ensures U32At(pre + Enc(x, 4) + post, |pre|) == x
  {
    Pow256Values();
    assert (pre + Enc(x, 4) + post)[|pre|..|pre| + 4] == Enc(x, 4);
    LEOfEnc(x, 4);
  }

  lemma {:induction false} U16AtEnc(pre: seq<byte>, x: nat, post: seq<byte>)
    requires x < U16_LIMIT
    ensures U16At(pre + Enc(x, 2) + post, |pre|) == x
  {
    Pow256Values();
    assert (pre + Enc(x, 2) + post)[|pre|..|pre| + 2] == Enc(x, 2);
    LEOfEnc(x, 2);
  }

  lemma {:induction false} U64AtEnc(pre: seq<byte>, x: nat, post: seq<byte>)
    requires x < U64_LIMIT
    ensures U64At(pre + Enc(x, 8) + post, |pre|) == x
  {
    Pow256Values();
    assert (pre + Enc(x, 8) + post)[|pre|..|pre| + 8] == Enc(x, 8);
    LEOfEnc(x, 8);
  }

  /** Four bytes that encode x read back as x, wherever they sit. */
  lemma {:induction false} U32AtOf(s: seq<byte>, o: nat, x: nat)
    requires o + 4 <= |s| && s[o..o + 4] == Enc(x, 4) && x < U32_LIMIT
    ensures U32At(s, o) == x
  {
    Pow256Values();
    LEOfEnc(x, 4);
  }

  lemma {:induction false} U16AtOf(s: seq<byte>, o: nat, x: nat)
    requires o + 2 <= |s| && s[o..o + 2] == Enc(x, 2) && x < U16_LIMIT
    ensures U16At(s, o) == x
  {
    Pow256Values();
    LEOfEnc(x, 2);
  }

  lemma SliceOfSlice(s: seq<byte>, a: nat, b: nat, i: nat, j: nat)
    requires a <= b <= |s| && i <= j <= b - a
    ensures s[a..b][i..j] == s[a + i..a + j]
  {
    var l := s[a..b][i..j];
    var r := s[a + i..a + j];
    assert |l| == |r|;
    forall k | 0 <= k < |l|
      ensures l[k] == r[k]
    {
      assert l[k] == s[a..b][i + k] == s[a + i + k];
    }
  }

  /** SliceOfSlice for a slice given by its start and length. */
  lemma SubSlice(s: seq<byte>, a: nat, b: nat, i: nat, n: nat)
    requires a <= b <= |s| && i + n <= b - a
    ensures s[a..b][i..i + n] == s[a + i..a + i + n]
  {
    SliceOfSlice(s, a, b, i, i + n);
  }

  /** Two strings that agree from `from` on agree on every slice that starts there or later. */
  lemma SameTailSlice(a: seq<byte>, b: seq<byte>, from: nat, i: nat, j: nat)
    requires |a| == |b| && from <= i <= j <= |a| && a[from..] == b[from..]
    ensures a[i..j] == b[i..j]
  {
    SliceOfSlice(a, from, |a|, i - from, j - from);
    SliceOfSlice(b, from, |b|, i - from, j - from);
    assert a[from..|a|] == a[from..] && b[from..|b|] == b[from..];
  }

  /** The middle of a concatenation. */
  lemma MidOf(pre: seq<byte>, mid: seq<byte>, post: seq<byte>)
    ensures (pre + mid + post)[|pre|..|pre| + |mid|] == mid
  {
    var s := pre + mid + post;
    forall k | 0 <= k < |mid|
      ensures s[|pre|..|pre| + |mid|][k] == mid[k]
    {
      assert s[|pre| + k] == mid[k];
    }
  }

  /** A slice of the first part of a concatenation. */
  lemma SliceOfFirst(a: seq<byte>, b: seq<byte>, i: nat, j: nat)
    requires i <= j <= |a|
    ensures (a + b)[i..j] == a[i..j]
  {
    var l := (a + b)[i..j];
    forall k | 0 <= k < j - i
      ensures l[k] == a[i + k]
    {
      assert l[k] == (a + b)[i + k];
    }
  }

  /** A slice of the second part of a concatenation. */
  lemma SliceOfSecond(a: seq<byte>, b: seq<byte>, i: nat, j: nat)
    requires i <= j <= |b|
    ensures (a + b)[|a| + i..|a| + j] == b[i..j]
  {
    var l := (a + b)[|a| + i..|a| + j];
    forall k | 0 <= k < j - i
      ensures l[k] == b[i + k]
    {
      assert l[k] == (a + b)[|a| + i + k];
    }
  }

  /** A sequence that agrees with s except on [off, off + |b|), where it holds b, is b spliced into s. */
  lemma Spliced(s: seq<byte>, t: seq<byte>, off: nat, b: seq<byte>)
    requires |t| == |s| && off + |b| <= |s|
    requires forall k :: 0 <= k < |s| ==> t[k] == if off <= k < off + |b| then b[k - off] else s[k]
    ensures t == s[..off] + b + s[off + |b|..]
  {
    var r := s[..off] + b + s[off + |b|..];
    forall k | 0 <= k < |s|
      ensures t[k] == r[k]
    {
      if k < off {
        assert r[k] == s[k];
      } else if k < off + |b| {
        assert r[k] == b[k - off];
      } else {
        assert r[k] == s[off + |b|..][k - off - |b|];
      }
    }
  }

  /** A run of "<I" words, each packed into 4 bytes. */
  function Words(ws: seq<nat>): (r: seq<byte>)
    ensures |r| == 4 * |ws|
  {
    if ws == [] then [] else Enc(ws[0], 4) + Words(ws[1..])
  }

  /** The j-th word sits at 4j. */
  lemma {:induction false} WordsAt(ws: seq<nat>, j: nat)
    requires j < |ws|
    ensures Words(ws)[4 * j..4 * j + 4] == Enc(ws[j], 4)
  {
    if j > 0 {
      WordsAt(ws[1..], j - 1);
      assert Words(ws)[4 * j..4 * j + 4] == Words(ws[1..])[4 * (j - 1)..4 * (j - 1) + 4];
    }
  }

  /** The j-th word of a run of words placed at p in s sits at p + 4j. */
  lemma {:induction false} WordSlice(s: seq<byte>, p: nat, ws: seq<nat>, j: nat)
    requires p + 4 * |ws| <= |s| && s[p..p + 4 * |ws|] == Words(ws) && j < |ws|
    ensures s[p + 4 * j..p + 4 * j + 4] == Enc(ws[j], 4)
  {
    var t, w, a, e := s[p..p + 4 * |ws|], Words(ws), s[p + 4 * j..p + 4 * j + 4], Enc(ws[j], 4);
    SubSlice(s, p, p + 4 * |ws|, 4 * j, 4);
    WordsAt(ws, j);
    SameSlices(t, w, 4 * j, 4 * j + 4, a, e);
  }

  /** Equal sequences have equal slices. */
  lemma SameSlices(s: seq<byte>, w: seq<byte>, lo: nat, hi: nat, a: seq<byte>, e: seq<byte>)
    requires lo <= hi <= |s| && s == w && s[lo..hi] == a && w[lo..hi] == e
    ensures a == e
  {
  }

  /** The j-th word of a run of words placed at p in s reads back as that word. */
  lemma {:induction false} WordAt(s: seq<byte>, p: nat, ws: seq<nat>, j: nat)
    requires p + 4 * |ws| <= |s| && s[p..p + 4 * |ws|] == Words(ws) && j < |ws| && ws[j] < U32_LIMIT
    ensures s[p + 4 * j..p + 4 * j + 4] == Enc(ws[j], 4)
    ensures U32At(s, p + 4 * j) == ws[j]
  {
    WordSlice(s, p, ws, j);
    U32AtOf(s, p + 4 * j, ws[j]);
  }

  /** Packing x over the k-th word of a run of words replaces that word. */
  lemma {:induction false} WordsUpdate(ws: seq<nat>, k: nat, x: nat)
    requires k < |ws|
    ensures Words(ws[k := x]) == Words(ws)[..4 * k] + Enc(x, 4) + Words(ws)[4 * k + 4..]
  {
    if k > 0 {
      WordsUpdate(ws[1..], k - 1, x);
      assert ws[k := x][1..] == ws[1..][k - 1 := x];
      assert Words(ws)[..4 * k] == Enc(ws[0], 4) + Words(ws[1..])[..4 * (k - 1)];
      assert Words(ws)[4 * k + 4..] == Words(ws[1..])[4 * (k - 1) + 4..];
    } else {
      assert ws[k := x][1..] == ws[1..];
    }
  }

  /** Zero words are zero bytes. */
  lemma {:induction false} WordsZeros(n: nat)
    ensures Words(seq(n, _ => 0)) == Zeros(4 * n)
  {
    if n > 0 {
      WordsZeros(n - 1);
      assert seq(n, _ => 0)[1..] == seq(n - 1, _ => 0);
      assert Enc(0, 4) == [0, 0, 0, 0];
    }
  }

  lemma U32AtBound(s: seq<byte>, o: nat)
    requires o + 4 <= |s|
    ensures U32At(s, o) < U32_LIMIT
  {
    Pow256Values();
    LEBound(s[o..o + 4]);
  }

  lemma U16AtBound(s: seq<byte>, o: nat)
    requires o + 2 <= |s|
    ensures U16At(s, o) < U16_LIMIT
  {
    Pow256Values();
    LEBound(s[o..o + 2]);
  }
}
