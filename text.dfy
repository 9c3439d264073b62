/**
 * The Python string operations the modelled code relies on: hexadecimal and
 * decimal formatting ("{:08X}", str(n)), int(s, 16), str.strip, str.split and
 * str.join on a one-character separator, str.find, str.lower and str.title.
 * Letter case is modelled for ASCII letters only.
 */
module Text {
  import opened Wrappers

  function Pow16(n: nat): (r: nat)
    ensures r > 0
  {
    if n == 0 then 1 else 16 * Pow16(n - 1)
  }

  function Repeat(c: char, n: nat): (r: string)
    ensures |r| == n && forall i :: 0 <= i < n ==> r[i] == c
  {
    seq(n, _ => c)
  }

  // ---------------------------------------------------------------- hexadecimal

  function HexDigit(d: nat): char
    requires d < 16
  {
    if d < 10 then ('0' as int + d) as char else ('A' as int + d - 10) as char
  }

  /** A digit as format(x, "X") writes it. */
  predicate IsUpperHexDigit(c: char)
  {
    '0' <= c <= '9' || 'A' <= c <= 'F'
  }

  predicate IsHexDigit(c: char)
  {
    '0' <= c <= '9' || 'a' <= c <= 'f' || 'A' <= c <= 'F'
  }

  function HexDigitValue(c: char): (d: nat)
    requires IsHexDigit(c)
    ensures d < 16
  {
    if '0' <= c <= '9' then c as int - '0' as int
    else if 'a' <= c <= 'f' then c as int - 'a' as int + 10
    else c as int - 'A' as int + 10
  }

  /** The value of a string of hexadecimal digits, most significant first. */
  function HexNumber(s: string): nat
    requires forall i :: 0 <= i < |s| ==> IsHexDigit(s[i])
  {
    if s == [] then 0 else 16 * HexNumber(s[..|s| - 1]) + HexDigitValue(s[|s| - 1])
  }

  /** The shortest upper-case hexadecimal rendering of x, as format(x, "X"). */
  function HexDigits(x: nat): (r: string)
    ensures |r| >= 1 && forall i :: 0 <= i < |r| ==> IsUpperHexDigit(r[i]) && IsHexDigit(r[i])
  {
    if x < 16 then [HexDigit(x)] else HexDigits(x / 16) + [HexDigit(x % 16)]
  }

  /** format(x, "0{w}X"): upper-case hexadecimal, zero padded to at least w digits. */
  function Hex(x: nat, w: nat): (r: string)
    ensures forall i :: 0 <= i < |r| ==> IsUpperHexDigit(r[i]) && IsHexDigit(r[i])
  {
    var d := HexDigits(x);
    if |d| >= w then d else Repeat('0', w - |d|) + d
  }

  lemma {:induction false} HexDigitsValue(x: nat)
    ensures HexNumber(HexDigits(x)) == x
  {
    if x >= 16 {
      var d := HexDigits(x);
      assert d[..|d| - 1] == HexDigits(x / 16);
      HexDigitsValue(x / 16);
    }
  }

  lemma {:induction false} HexDigitsLength(x: nat, w: nat)
    requires w >= 1 && x < Pow16(w)
    ensures |HexDigits(x)| <= w
  {
    if x >= 16 {
      HexDigitsLength(x / 16, w - 1);
    }
  }

  lemma {:induction false} LeadingZerosValue(z: nat, d: string)
    requires forall i :: 0 <= i < |d| ==> IsHexDigit(d[i])
    ensures HexNumber(Repeat('0', z) + d) == HexNumber(d)
  {
    if d == [] {
      assert Repeat('0', z) + d == Repeat('0', z);
      ZerosValue(z);
    } else {
      var s := Repeat('0', z) + d;
      assert s[..|s| - 1] == Repeat('0', z) + d[..|d| - 1];
      LeadingZerosValue(z, d[..|d| - 1]);
    }
  }

  lemma {:induction false} ZerosValue(z: nat)
    ensures HexNumber(Repeat('0', z)) == 0
  {
    if z > 0 {
      assert Repeat('0', z)[..z - 1] == Repeat('0', z - 1);
      ZerosValue(z - 1);
    }
  }

  /** The padded rendering has exactly w digits when x fits in w digits. */
  lemma {:induction false} HexWidth(x: nat, w: nat)
    requires w >= 1 && x < Pow16(w)
    ensures |Hex(x, w)| == w
  {
    HexDigitsLength(x, w);
  }

  /** The padded rendering, read back as a number, is x. */
  lemma HexValue(x: nat, w: nat)
    ensures HexNumber(Hex(x, w)) == x
  {
    HexDigitsValue(x);
    var d := HexDigits(x);
    if |d| < w {
      LeadingZerosValue(w - |d|, d);
    }
  }

  /**
   * int(s, 16) for the inputs this model accepts: surrounding whitespace, an
   * optional "0x" or "0X" prefix, then one or more hexadecimal digits.
   */
  function ParseHex(s: string): Option<nat>
  {
    var t := Strip(s);
    var body := if |t| >= 2 && t[0] == '0' && (t[1] == 'x' || t[1] == 'X') then t[2..] else t;
    if body != [] && forall i :: 0 <= i < |body| ==> IsHexDigit(body[i]) then Some(HexNumber(body)) else None
  }

  /** "0x" followed by a rendering of x reads back as x. */
  lemma ParseHexOfHex(x: nat, w: nat)
    ensures ParseHex("0x" + Hex(x, w)) == Some(x)
  {
    var h := Hex(x, w);
    var s := "0x" + h;
    assert !IsSpace(s[0]);
    assert forall i :: 0 <= i < |h| ==> !IsSpace(h[i]);
    assert !IsSpace(s[|s| - 1]) by { assert s[|s| - 1] == h[|h| - 1]; }
    StripNoSpace(s);
    assert s[2..] == h;
    HexValue(x, w);
  }

  // ---------------------------------------------------------------- decimal

  function DecimalDigit(d: nat): char
    requires d < 10
  {
    ('0' as int + d) as char
  }

  /** str(n) for a natural number. */
  function Decimal(n: nat): (r: string)
    ensures |r| >= 1 && forall i :: 0 <= i < |r| ==> '0' <= r[i] <= '9'
  {
    if n < 10 then [DecimalDigit(n)] else Decimal(n / 10) + [DecimalDigit(n % 10)]
  }

  // ---------------------------------------------------------------- whitespace

  /** str.isspace for one character. */
  predicate IsSpace(c: char)
  {
    var n := c as int;
    (9 <= n <= 13) || (0x1C <= n <= 0x20) || n == 0x85 || n == 0xA0 || n == 0x1680
    || (0x2000 <= n <= 0x200A) || n == 0x2028 || n == 0x2029 || n == 0x202F || n == 0x205F || n == 0x3000
  }

  /** The number of leading whitespace characters. */
  function LeadingSpaces(s: string): (n: nat)
    ensures n <= |s|
    ensures forall i :: 0 <= i < n ==> IsSpace(s[i])
    ensures n < |s| ==> !IsSpace(s[n])
  {
    if s != [] && IsSpace(s[0]) then
      var k := LeadingSpaces(s[1..]);
      assert forall i :: 0 < i <= k ==> s[i] == s[1..][i - 1];
      k + 1
    else 0
  }

  function StripLeft(s: string): (r: string)
    ensures |r| <= |s| && r == s[|s| - |r|..]
    ensures forall i :: 0 <= i < |s| - |r| ==> IsSpace(s[i])
    ensures r != [] ==> !IsSpace(r[0])
  {
    s[LeadingSpaces(s)..]
  }

  function StripRight(s: string): (r: string)
    ensures |r| <= |s| && r == s[..|r|]
    ensures forall i :: |r| <= i < |s| ==> IsSpace(s[i])
    ensures r != [] ==> !IsSpace(r[|r| - 1])
  {
    if s != [] && IsSpace(s[|s| - 1]) then StripRight(s[..|s| - 1]) else s
  }

  /** str.strip(): the text without leading and trailing whitespace. */
  function Strip(s: string): (r: string)
    ensures |r| <= |s|
    ensures r == [] || (!IsSpace(r[0]) && !IsSpace(r[|r| - 1]))
  {
    StripRight(StripLeft(s))
  }

  lemma StripNoSpace(s: string)
    requires s == [] || (!IsSpace(s[0]) && !IsSpace(s[|s| - 1]))
    ensures Strip(s) == s
  {
  }

  lemma StripAllSpace(s: string)
    requires forall i :: 0 <= i < |s| ==> IsSpace(s[i])
    ensures Strip(s) == []
  {
  }

  // ---------------------------------------------------------------- split and join

  /** str.find for one character: the first index of c, or -1. */
  function Find(s: string, c: char): (r: int)
    ensures -1 <= r < |s|
    ensures r == -1 <==> c !in s
    ensures r >= 0 ==> s[r] == c && c !in s[..r]
  {
    if s == [] then -1
    else if s[0] == c then 0
    else var k := Find(s[1..], c); if k == -1 then -1 else k + 1
  }

  /** str.rfind for one character: the last index of c, or -1. */
  function RFind(s: string, c: char): (r: int)
    ensures -1 <= r < |s|
    ensures r == -1 <==> c !in s
    ensures r >= 0 ==> s[r] == c && c !in s[r + 1..]
  {
    if s == [] then -1
    else if s[|s| - 1] == c then |s| - 1
    else
      var init := s[..|s| - 1];
      var k := RFind(init, c);
      assert s == init + [s[|s| - 1]];
      assert k >= 0 ==> s[k + 1..] == init[k + 1..] + [s[|s| - 1]];
      k
  }

  /** pat occurs in s at index j. */
  predicate OccursAt<T(==)>(s: seq<T>, pat: seq<T>, j: int)
  {
    0 <= j && j + |pat| <= |s| && s[j..j + |pat|] == pat
  }

  /** str.find and bytes.find for a substring: the first index where pat occurs, or -1. */
  function FindSub<T(==)>(s: seq<T>, pat: seq<T>): (r: int)
    requires |pat| > 0
    ensures r == -1 || OccursAt(s, pat, r)
    ensures forall j :: (r == -1 || j < r) ==> !OccursAt(s, pat, j)
    decreases |s|
  {
    if |s| < |pat| then -1
    else if s[..|pat|] == pat then 0
    else
      var k := FindSub(s[1..], pat);
      assert forall j :: 1 <= j ==> (OccursAt(s, pat, j) <==> OccursAt(s[1..], pat, j - 1)) by {
        forall j | 1 <= j ensures OccursAt(s, pat, j) <==> OccursAt(s[1..], pat, j - 1) {
          if j + |pat| <= |s| {
            assert s[j..j + |pat|] == s[1..][j - 1..j - 1 + |pat|];
          }
        }
      }
      if k == -1 then -1 else k + 1
  }

  /** str.split(sep) for a one-character separator. */
  function Split(s: string, sep: char): (r: seq<string>)
    ensures |r| >= 1 && forall k :: 0 <= k < |r| ==> sep !in r[k]
    decreases |s|
  {
    var i := Find(s, sep);
    if i < 0 then [s] else [s[..i]] + Split(s[i + 1..], sep)
  }

  /** sep.join(parts). */
  function Join(parts: seq<string>, sep: char): string
  {
    if parts == [] then []
    else if |parts| == 1 then parts[0]
    else parts[0] + [sep] + Join(parts[1..], sep)
  }

  /** Splitting a join gives the parts back when no part holds the separator. */
  lemma {:induction false} SplitJoin(parts: seq<string>, sep: char)
    requires |parts| >= 1 && forall k :: 0 <= k < |parts| ==> sep !in parts[k]
    ensures Split(Join(parts, sep), sep) == parts
  {
    if |parts| > 1 {
      SplitStep(parts[0], Join(parts[1..], sep), sep);
      SplitJoin(parts[1..], sep);
      assert parts == [parts[0]] + parts[1..];
    }
  }

  /** Splitting at the first separator, the one right after a part without any. */
  lemma {:induction false} SplitStep(p: string, rest: string, sep: char)
    requires sep !in p
    ensures Split(p + [sep] + rest, sep) == [p] + Split(rest, sep)
  {
    var s := p + [sep] + rest;
    assert s[|p|] == sep;
    assert Find(s, sep) == |p|;
    assert s[..|p|] == p;
    assert s[|p| + 1..] == rest;
  }

  // ---------------------------------------------------------------- letter case

  predicate IsUpper(c: char) { 'A' <= c <= 'Z' }
  predicate IsLower(c: char) { 'a' <= c <= 'z' }
  predicate IsAsciiLetter(c: char) { IsUpper(c) || IsLower(c) }
  predicate IsAlnum(c: char) { IsAsciiLetter(c) || '0' <= c <= '9' }

  function ToLower(c: char): (r: char)
    ensures IsUpper(c) ==> IsLower(r)
    ensures !IsUpper(c) ==> r == c
  {
    if IsUpper(c) then (c as int + 32) as char else c
  }

  function ToUpper(c: char): (r: char)
    ensures IsLower(c) ==> IsUpper(r)
    ensures !IsLower(c) ==> r == c
  {
    if IsLower(c) then (c as int - 32) as char else c
  }

  /** str.lower() on ASCII letters. */
  function Lower(s: string): (r: string)
    ensures |r| == |s| && forall i :: 0 <= i < |s| ==> r[i] == ToLower(s[i])
  {
    seq(|s|, i requires 0 <= i < |s| => ToLower(s[i]))
  }

  /**
   * str.title() on ASCII letters: a letter that follows a letter is lower-cased,
   * any other letter is upper-cased; other characters are kept.
   */
  function Title(s: string): (r: string)
    ensures |r| == |s|
    ensures forall i :: 0 <= i < |s| ==>
      r[i] == if i > 0 && IsAsciiLetter(s[i - 1]) then ToLower(s[i]) else ToUpper(s[i])
  {
    seq(|s|, i requires 0 <= i < |s| => if i > 0 && IsAsciiLetter(s[i - 1]) then ToLower(s[i]) else ToUpper(s[i]))
  }

  /** str.replace for single characters. */
  function ReplaceChar(s: string, a: char, b: char): (r: string)
    ensures |r| == |s| && forall i :: 0 <= i < |s| ==> r[i] == if s[i] == a then b else s[i]
  {
    seq(|s|, i requires 0 <= i < |s| => if s[i] == a then b else s[i])
  }
}
