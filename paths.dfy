/**
 * The pathlib operations the modelled code uses, on '/'-separated path strings
 * that are already normalised (no trailing '/', no "." components).
 */
module Paths {
  import opened Text
  import opened Wrappers

  /** Path(p).name: the last component. */
  function Name(p: string): (r: string)
    ensures '/' !in r && |r| <= |p| && r == p[|p| - |r|..]
  {
    p[RFind(p, '/') + 1..]
  }

  /** PurePath.suffix of a name: from its last '.', unless that dot starts or ends the name. */
  function Suffix(name: string): (r: string)
    ensures r == [] || (|r| >= 2 && r[0] == '.' && |r| < |name| && r == name[|name| - |r|..])
  {
    var i := RFind(name, '.');
    if 0 < i < |name| - 1 then name[i..] else ""
  }

  /** PurePath.stem: the name without its suffix. */
  function Stem(name: string): (r: string)
    ensures r + Suffix(name) == name
    ensures name != [] ==> r != []
  {
    name[..|name| - |Suffix(name)|]
  }

  /** The directory part of p, with its trailing '/' (empty for a bare name). */
  function DirPrefix(p: string): (r: string)
    ensures r + Name(p) == p
  {
    p[..|p| - |Name(p)|]
  }

  /** Path(p).with_suffix(s); None where Python raises ValueError for an empty name. */
  function WithSuffix(p: string, s: string): (r: Option<string>)
    ensures r.None? <==> Name(p) == []
  {
    if Name(p) == [] then None else Some(DirPrefix(p) + Stem(Name(p)) + s)
  }

  /** Path(dir) / name. */
  function Child(dir: string, name: string): (r: string)
    ensures '/' !in name ==> Name(r) == name
  {
    var r := if dir == [] then name else if dir[|dir| - 1] == '/' then dir + name else dir + "/" + name;
    assert '/' !in name ==> RFind(r, '/') == |r| - |name| - 1 by {
      if '/' !in name && dir != [] {
        assert r[|r| - |name|..] == name;
        assert r[|r| - |name| - 1] == '/';
      }
    }
    r
  }

  /** Different names give different children of the same directory. */
  lemma ChildInjective(dir: string, a: string, b: string)
    requires Child(dir, a) == Child(dir, b)
    ensures a == b
  {
    var sep := if dir == [] then "" else if dir[|dir| - 1] == '/' then dir else dir + "/";
    assert Child(dir, a) == sep + a && Child(dir, b) == sep + b;
    assert (sep + a)[|sep|..] == a && (sep + b)[|sep|..] == b;
  }

  lemma {:induction false} RFindConcat(a: string, b: string, c: char)
    ensures RFind(a + b, c) == if c in b then |a| + RFind(b, c) else RFind(a, c)
  {
    if b != [] {
      assert (a + b)[..|a + b| - 1] == a + b[..|b| - 1];
      RFindConcat(a, b[..|b| - 1], c);
      assert c in b <==> b[|b| - 1] == c || c in b[..|b| - 1] by {
        assert b == b[..|b| - 1] + [b[|b| - 1]];
      }
    } else {
      assert a + b == a;
    }
  }

  lemma DirPrefixEndsInSlash(p: string)
    ensures RFind(DirPrefix(p), '/') == |DirPrefix(p)| - 1
  {
    var d := DirPrefix(p);
    if d != [] {
      assert d[|d| - 1] == p[RFind(p, '/')];
    }
  }

  lemma NameAfterPrefix(p: string, n: string)
    requires '/' !in n
    ensures Name(DirPrefix(p) + n) == n
  {
    DirPrefixEndsInSlash(p);
    RFindConcat(DirPrefix(p), n, '/');
  }

  /** Giving a non-empty name a suffix like ".png" makes that its suffix. */
  lemma {:induction false} WithSuffixSuffix(p: string, s: string)
    requires Name(p) != [] && |s| >= 2 && s[0] == '.' && RFind(s, '.') == 0 && '/' !in s
    ensures WithSuffix(p, s).Some? && Suffix(Name(WithSuffix(p, s).value)) == s
  {
    var stem := Stem(Name(p));
    WithSuffixParts(p, s);
    NameAfterPrefix(p, stem + s);
    SuffixOfStemPlus(stem, s);
  }

  /** with_suffix on a non-empty name: the directory, then the stem followed by the suffix. */
  lemma WithSuffixParts(p: string, s: string)
    requires Name(p) != [] && '/' !in s
    ensures var stem := Stem(Name(p));
      stem != [] && '/' !in stem + s && WithSuffix(p, s) == Some(DirPrefix(p) + (stem + s))
  {
    var stem := Stem(Name(p));
    assert stem + Suffix(Name(p)) == Name(p);
    assert DirPrefix(p) + stem + s == DirPrefix(p) + (stem + s);
  }

  lemma {:induction false} SuffixOfStemPlus(stem: string, s: string)
    requires stem != [] && |s| >= 2 && RFind(s, '.') == 0
    ensures Suffix(stem + s) == s
  {
    var n := stem + s;
    RFindConcat(stem, s, '.');
    assert RFind(n, '.') == |stem|;
    assert n[|stem|..] == s;
  }

  /** with_suffix(suffix + t) appends t to a path with a non-empty name. */
  lemma AppendToSuffix(p: string, t: string)
    requires Name(p) != []
    ensures WithSuffix(p, Suffix(Name(p)) + t) == Some(p + t)
  {
    var d := DirPrefix(p);
    var n := Name(p);
    var st := Stem(n);
    var su := Suffix(n);
    assert st + su == n;
    assert d + n == p;
    Regroup(d, st, su, t, n, p);
  }

  lemma Regroup(d: string, st: string, su: string, t: string, n: string, p: string)
    requires st + su == n && d + n == p
    ensures d + st + (su + t) == p + t
  {
    assert d + st + (su + t) == d + (st + su) + t;
  }
}
