/**
 * Creator names from mod file names (s4lt/organize/sorter.py): three
 * anchored patterns are tried in order and the first that matches gives the
 * creator, title-cased.
 */
module Sorter {
  import opened Wrappers
  import opened Text

  /** The length of the run of [A-Za-z0-9] characters of s that starts at i. */
  function AlnumRun(s: string, i: nat): (n: nat)
    requires i <= |s|
    ensures i + n <= |s|
    ensures forall j :: i <= j < i + n ==> IsAlnum(s[j])
    ensures i + n == |s| || !IsAlnum(s[i + n])
    decreases |s| - i
  {
    if i < |s| && IsAlnum(s[i]) then 1 + AlnumRun(s, i + 1) else 0
  }

  predicate IsSep(c: char, seps: string) { c in seps }

  /**
   * What "([A-Za-z0-9]+)" followed by one of seps matches at position i:
   * the captured run, or None when the pattern does not match there.
   */
  function CaptureAt(s: string, i: nat, seps: string): (r: Option<string>)
    requires i <= |s|
  {
    var n := AlnumRun(s, i);
    if n > 0 && i + n < |s| && IsSep(s[i + n], seps) then Some(s[i..i + n]) else None
  }

  /** c is a capture the regular expression allows at i: a nonempty alphanumeric run followed by a separator. */
  predicate Captures(s: string, i: nat, seps: string, c: string)
  {
    |c| > 0 && i + |c| < |s| && s[i..i + |c|] == c &&
    (forall j :: 0 <= j < |c| ==> IsAlnum(c[j])) && IsSep(s[i + |c|], seps)
  }

  /**
   * CaptureAt finds the one capture the pattern allows: the pattern
   * matches iff some run qualifies, and then that run is the capture.
   */
  lemma CaptureAtIff(s: string, i: nat, seps: string, c: string)
    requires i <= |s|
    requires forall j :: 0 <= j < |seps| ==> !IsAlnum(seps[j])
    ensures CaptureAt(s, i, seps) == Some(c) <==> Captures(s, i, seps, c)
  {
    var n := AlnumRun(s, i);
    if Captures(s, i, seps, c) {
      assert forall j :: i <= j < i + |c| ==> s[j] == c[j - i];
    }
  }

  /** "^TS4[-_]([A-Za-z0-9]+)[-_]". */
  function Ts4Pattern(f: string): Option<string>
  {
    if |f| >= 4 && f[..3] == "TS4" && IsSep(f[3], "-_") then CaptureAt(f, 4, "-_") else None
  }

  /** normalize_creator: str.title(). */
  function NormalizeCreator(name: string): (r: string)
    ensures |r| == |name|
    ensures forall i :: 0 <= i < |name| && (i == 0 || !IsAsciiLetter(name[i - 1])) ==> r[i] == ToUpper(name[i])
    ensures forall i :: 0 < i < |name| && IsAsciiLetter(name[i - 1]) ==> r[i] == ToLower(name[i])
  {
    Title(name)
  }

  const UNCATEGORIZED: string := "_Uncategorized"

  /** extract_creator: the title-cased capture of the first pattern that matches, else "_Uncategorized". */
  function ExtractCreator(filename: string): (r: string)
    ensures r == UNCATEGORIZED || (|r| > 0 && IsAlnum(r[0]))
  {
    match Ts4Pattern(filename)
    case Some(c) => NormalizeCreator(c)
    case None =>
      match CaptureAt(filename, 0, "_")
      case Some(c) => NormalizeCreator(c)
      case None =>
        match CaptureAt(filename, 0, "-")
        case Some(c) => NormalizeCreator(c)
        case None => UNCATEGORIZED
  }

  /**
   * The decision extract_creator makes, stated against the patterns
   * themselves: a TS4-prefixed name with an alphanumeric run and a
   * separator after the prefix gives that run; otherwise a name that is an
   * alphanumeric run followed by "_" gives that run, then the same with "-".
   */
  lemma ExtractCreatorDecision(f: string, c: string)
    ensures (|f| >= 4 && f[..3] == "TS4" && IsSep(f[3], "-_") && Captures(f, 4, "-_", c)) ==>
      ExtractCreator(f) == Title(c)
    ensures (Ts4Pattern(f).None? && Captures(f, 0, "_", c)) ==> ExtractCreator(f) == Title(c)
    ensures (Ts4Pattern(f).None? && CaptureAt(f, 0, "_").None? && Captures(f, 0, "-", c)) ==>
      ExtractCreator(f) == Title(c)
  {
    if |f| >= 4 {
      CaptureAtIff(f, 4, "-_", c);
    }
    CaptureAtIff(f, 0, "_", c);
    CaptureAtIff(f, 0, "-", c);
  }

  /** A name is "_Uncategorized" exactly when none of the three patterns matches. */
  lemma UncategorizedIff(f: string)
    ensures ExtractCreator(f) == UNCATEGORIZED <==>
      (Ts4Pattern(f).None? && CaptureAt(f, 0, "_").None? && CaptureAt(f, 0, "-").None?)
  {
    var c := if Ts4Pattern(f).Some? then Ts4Pattern(f)
             else if CaptureAt(f, 0, "_").Some? then CaptureAt(f, 0, "_") else CaptureAt(f, 0, "-");
    if c.Some? {
      assert ExtractCreator(f) == NormalizeCreator(c.value);
      assert IsAlnum(c.value[0]);
      assert !IsAlnum(UNCATEGORIZED[0]);
    }
  }

  /** "Bobby" is already title-cased. */
  lemma BobbyTitled()
    ensures NormalizeCreator("Bobby") == "Bobby"
  {
    var r := NormalizeCreator("Bobby");
    assert r[0] == 'B' && r[1] == 'o' && r[2] == 'b' && r[3] == 'b' && r[4] == 'y';
  }

  /** "TS4", a separator, "Bobby", a separator, then anything: the TS4 pattern captures "Bobby". */
  lemma Ts4Bobby(f: string)
    requires |f| >= 10 && f[..3] == "TS4" && f[4..9] == "Bobby" && IsSep(f[3], "-_") && IsSep(f[9], "-_")
    ensures ExtractCreator(f) == "Bobby"
  {
    assert f[4] == 'B' && f[5] == 'o' && f[6] == 'b' && f[7] == 'b' && f[8] == 'y';
    assert AlnumRun(f, 9) == 0;
    assert AlnumRun(f, 8) == 1;
    assert AlnumRun(f, 7) == 2;
    assert AlnumRun(f, 6) == 3;
    assert AlnumRun(f, 5) == 4;
    assert AlnumRun(f, 4) == 5;
    assert CaptureAt(f, 4, "-_") == Some("Bobby");
    assert Ts4Pattern(f) == Some("Bobby");
    BobbyTitled();
  }

  lemma Ts4UnderscoreExample()
    ensures ExtractCreator("TS4_Bobby_Dress") == "Bobby"
  {
    var f := "TS4_Bobby_Dress";
    assert f[..3] == "TS4" && f[4..9] == "Bobby" && f[3] == '_' && f[9] == '_';
    Ts4Bobby(f);
  }

  lemma Ts4DashExample()
    ensures ExtractCreator("TS4-Bobby-Dress") == "Bobby"
  {
    var f := "TS4-Bobby-Dress";
    assert f[..3] == "TS4" && f[4..9] == "Bobby" && f[3] == '-' && f[9] == '-';
    Ts4Bobby(f);
  }

  /** "TS4-Bobby" has no separator after the name, so the dash pattern takes "TS4". */
  lemma Ts4FallThroughExample()
    ensures ExtractCreator("TS4-Bobby") == "Ts4"
  {
    var f := "TS4-Bobby";
    assert AlnumRun(f, 9) == 0;
    assert AlnumRun(f, 4) == 5;
    assert Ts4Pattern(f) == None;
    assert AlnumRun(f, 3) == 0;
    assert AlnumRun(f, 0) == 3;
    assert CaptureAt(f, 0, "_") == None;
    assert CaptureAt(f, 0, "-") == Some("TS4");
  }
}
