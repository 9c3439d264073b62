/**
 * detect_conflicts, detect_script_conflicts and
 * get_conflict_resolution_options of s4lt/conflicts/detector.py: the
 * resources of many packages grouped by (type, group, instance), each key
 * held more than once reported with a severity, the report sorted by
 * severity.
 */
module Detector {
  import opened Wrappers
  import opened Exceptions
  import opened Text
  import opened Paths
  import opened Dicts
  import opened Index
  import opened Types
  import opened Sorting

  datatype ConflictSeverity = ERROR | WARNING | INFO

  /** Types that mods override on purpose. */
  const OVERRIDE_OK_TYPES: set<nat> := {0x0333406C, 0x025ED6F4, 0x545AC67A, 0x220557DA}

  /** Types whose duplicates always cause trouble. */
  const CRITICAL_TYPES: set<nat> := {0x034AEECB, 0xC0DB5AE7, 0x319E4F1D}

  datatype Conflict = Conflict(
    kind: string,
    severity: ConflictSeverity,
    resourceType: nat,
    resourceTypeName: string,
    instanceId: nat,
    groupId: nat,
    packages: seq<string>,
    description: string)

  /** A scan_errors entry: "Failed to scan {name}: {error}". */
  datatype ScanError = ScanError(name: string, error: Error)

  datatype ConflictReport = ConflictReport(
    conflicts: seq<Conflict>,
    packagesScanned: nat,
    totalResources: nat,
    scanErrors: seq<ScanError>)
  {
    function ErrorCount(): nat { CountSeverity(conflicts, ERROR) }
    function WarningCount(): nat { CountSeverity(conflicts, WARNING) }
    function InfoCount(): nat { CountSeverity(conflicts, INFO) }
  }

  /** How many conflicts have the severity. */
  function CountSeverity(cs: seq<Conflict>, s: ConflictSeverity): (n: nat)
    ensures n <= |cs|
  {
    if cs == [] then 0 else CountSeverity(cs[..|cs| - 1], s) + (if cs[|cs| - 1].severity == s then 1 else 0)
  }

  /** The three counts cover every conflict once. */
  lemma {:induction false} CountsAddUp(r: ConflictReport)
    ensures r.ErrorCount() + r.WarningCount() + r.InfoCount() == |r.conflicts|
  {
    CountsAddUpSeq(r.conflicts);
  }

  lemma {:induction false} CountsAddUpSeq(cs: seq<Conflict>)
    ensures CountSeverity(cs, ERROR) + CountSeverity(cs, WARNING) + CountSeverity(cs, INFO) == |cs|
  {
    if cs != [] {
      CountsAddUpSeq(cs[..|cs| - 1]);
    }
  }

  // ------------------------------------------------------------ severity

  /** The severity of a duplicated type: critical types are errors, override-ok types information. */
  function Severity(typeId: nat): (s: ConflictSeverity)
    ensures s == ERROR <==> typeId in CRITICAL_TYPES
    ensures s == INFO <==> typeId in OVERRIDE_OK_TYPES
    ensures s == WARNING <==> typeId !in CRITICAL_TYPES && typeId !in OVERRIDE_OK_TYPES
  {
    if typeId in CRITICAL_TYPES then ERROR
    else if typeId in OVERRIDE_OK_TYPES then INFO
    else WARNING
  }

  /** severity_order: errors first, then warnings, then information. */
  function SeverityOrder(c: Conflict): Key
  {
    match c.severity
    case ERROR => (0, 0)
    case WARNING => (1, 0)
    case INFO => (2, 0)
  }

  // ------------------------------------------------------------ the scan

  /** A path handed to Package.open, with the resources of the package or the error open raised. */
  datatype ScannedPackage = ScannedPackage(path: string, outcome: Result<seq<IndexEntry>, Error>)

  /** One (tgi, path) pair per resource of a package: what tgi_map collects. */
  function PathPairs(path: string, es: seq<IndexEntry>): seq<(Tgi, string)>
  {
    seq(|es|, j requires 0 <= j < |es| => (es[j].Tgi(), path))
  }

  /** The pairs of every package that opened, in path order. */
  function Pairs(ps: seq<ScannedPackage>): seq<(Tgi, string)>
  {
    if ps == [] then []
    else
      var p := ps[|ps| - 1];
      Pairs(ps[..|ps| - 1]) + (if p.outcome.Success? then PathPairs(p.path, p.outcome.value) else [])
  }

  /** One error per package that did not open, in path order. */
  function ScanErrors(ps: seq<ScannedPackage>): seq<ScanError>
  {
    if ps == [] then []
    else
      var p := ps[|ps| - 1];
      ScanErrors(ps[..|ps| - 1]) + (if p.outcome.Failure? then [ScanError(Name(p.path), p.outcome.error)] else [])
  }

  /** The duplicate conflict for a key held by the given packages, one entry per occurrence. */
  function DuplicateConflict(t: Tgi, packages: seq<string>): Conflict
  {
    var typeName := GetTypeName(t.0);
    Conflict("duplicate", Severity(t.0), t.0, typeName, t.2, t.1, packages,
             "Duplicate " + typeName + " found in " + Decimal(|packages|) + " packages")
  }

  /** The conflicts of the keys, in key order: make(k, values) for each key with more than one value. */
  function DuplicatesOf<K(==,!new)>(keys: seq<K>, xs: seq<(K, string)>, make: (K, seq<string>) -> Conflict): (r: seq<Conflict>)
    ensures |r| <= |keys|
  {
    if keys == [] then []
    else
      var k := keys[|keys| - 1];
      var vs := ValuesOf(xs, k);
      DuplicatesOf(keys[..|keys| - 1], xs, make) + (if |vs| > 1 then [make(k, vs)] else [])
  }

  lemma DuplicatesOfStep<K(!new)>(keys: seq<K>, xs: seq<(K, string)>, make: (K, seq<string>) -> Conflict, j: nat)
    requires j < |keys|
    ensures DuplicatesOf(keys[..j + 1], xs, make) ==
      DuplicatesOf(keys[..j], xs, make) + (if |ValuesOf(xs, keys[j])| > 1 then [make(keys[j], ValuesOf(xs, keys[j]))] else [])
  {
    assert keys[..j + 1][..j] == keys[..j];
  }

  /** The conflict made for key i when it has more than one value. */
  ghost predicate MadeAt<K(!new)>(keys: seq<K>, xs: seq<(K, string)>, make: (K, seq<string>) -> Conflict, c: Conflict, i: int)
  {
    0 <= i < |keys| && |ValuesOf(xs, keys[i])| > 1 && c == make(keys[i], ValuesOf(xs, keys[i]))
  }

  /** Every conflict was made for some key with more than one value. */
  lemma {:induction false} DuplicatesOfSound<K(!new)>(keys: seq<K>, xs: seq<(K, string)>, make: (K, seq<string>) -> Conflict, c: Conflict)
    requires c in DuplicatesOf(keys, xs, make)
    ensures exists i :: MadeAt(keys, xs, make, c, i)
  {
    var init := keys[..|keys| - 1];
    if c in DuplicatesOf(init, xs, make) {
      DuplicatesOfSound(init, xs, make, c);
      var i :| MadeAt(init, xs, make, c, i);
      assert keys[i] == init[i];
      assert MadeAt(keys, xs, make, c, i);
    } else {
      assert MadeAt(keys, xs, make, c, |keys| - 1);
    }
  }

  /** Every key with more than one value has its conflict. */
  lemma {:induction false} DuplicatesOfComplete<K(!new)>(keys: seq<K>, xs: seq<(K, string)>, make: (K, seq<string>) -> Conflict, c: Conflict, i: int)
    requires MadeAt(keys, xs, make, c, i)
    ensures c in DuplicatesOf(keys, xs, make)
  {
    var init := keys[..|keys| - 1];
    if i < |init| {
      assert init[i] == keys[i];
      assert MadeAt(init, xs, make, c, i);
      DuplicatesOfComplete(init, xs, make, c, i);
    }
  }

  /** The conflicts are exactly one per key with more than one value. */
  lemma {:induction false} DuplicatesOfIff<K(!new)>(keys: seq<K>, xs: seq<(K, string)>, make: (K, seq<string>) -> Conflict, c: Conflict)
    ensures c in DuplicatesOf(keys, xs, make) <==>
      exists i :: 0 <= i < |keys| && |ValuesOf(xs, keys[i])| > 1 && c == make(keys[i], ValuesOf(xs, keys[i]))
  {
    if c in DuplicatesOf(keys, xs, make) {
      DuplicatesOfSound(keys, xs, make, c);
    }
    if exists i :: 0 <= i < |keys| && |ValuesOf(xs, keys[i])| > 1 && c == make(keys[i], ValuesOf(xs, keys[i])) {
      var i :| 0 <= i < |keys| && |ValuesOf(xs, keys[i])| > 1 && c == make(keys[i], ValuesOf(xs, keys[i]));
      DuplicatesOfComplete(keys, xs, make, c, i);
    }
  }

  /** The report detect_conflicts returns. */
  function DetectSpec(ps: seq<ScannedPackage>): ConflictReport
  {
    var xs := Pairs(ps);
    ConflictReport(SortBy(DuplicatesOf(KeysOf(xs), xs, DuplicateConflict), SeverityOrder), |ps|, |xs|, ScanErrors(ps))
  }

  /** ps[..i + 1] adds the pairs, or the error, of ps[i]. */
  lemma ScanStep(ps: seq<ScannedPackage>, i: nat)
    requires i < |ps|
    ensures Pairs(ps[..i + 1]) == Pairs(ps[..i]) + (if ps[i].outcome.Success? then PathPairs(ps[i].path, ps[i].outcome.value) else [])
    ensures ScanErrors(ps[..i + 1]) == ScanErrors(ps[..i]) + (if ps[i].outcome.Failure? then [ScanError(Name(ps[i].path), ps[i].outcome.error)] else [])
  {
    assert ps[..i + 1][..i] == ps[..i];
  }

  /** The inner loop: every resource of one package appended under its key. */
  method AddPackage(path: string, es: seq<IndexEntry>, keys: seq<Tgi>, tgiMap: map<Tgi, seq<string>>, ghost xs: seq<(Tgi, string)>)
    returns (keys': seq<Tgi>, tgiMap': map<Tgi, seq<string>>)
    requires Grouped(keys, tgiMap, xs)
    ensures Grouped(keys', tgiMap', xs + PathPairs(path, es))
  {
    keys', tgiMap' := keys, tgiMap;
    ghost var done := xs;
    assert xs + PathPairs(path, es[..0]) == xs;
    var j := 0;
    while j < |es|
      invariant 0 <= j <= |es|
      invariant done == xs + PathPairs(path, es[..j])
      invariant Grouped(keys', tgiMap', done)
    {
      var tgi := es[j].Tgi();
      PathPairsStep(xs, path, es, j);
      keys', tgiMap' := AppendPath(keys', tgiMap', tgi, path, done);
      done := done + [(tgi, path)];
      j := j + 1;
    }
    assert es[..j] == es;
  }

  /** "if tgi not in tgi_map: tgi_map[tgi] = []" then "tgi_map[tgi].append(str(path))". */
  method AppendPath<K(==,!new)>(keys: seq<K>, tgiMap: map<K, seq<string>>, tgi: K, path: string, ghost done: seq<(K, string)>)
    returns (keys': seq<K>, tgiMap': map<K, seq<string>>)
    requires Grouped(keys, tgiMap, done)
    ensures Grouped(keys', tgiMap', done + [(tgi, path)])
  {
    GroupedStep(keys, tgiMap, done, (tgi, path));
    keys' := if tgi in tgiMap then keys else keys + [tgi];
    tgiMap' := tgiMap[tgi := (if tgi in tgiMap then tgiMap[tgi] else []) + [path]];
  }

  lemma PathPairsStep(xs: seq<(Tgi, string)>, path: string, es: seq<IndexEntry>, j: nat)
    requires j < |es|
    ensures xs + PathPairs(path, es[..j + 1]) == xs + PathPairs(path, es[..j]) + [(es[j].Tgi(), path)]
  {
    assert PathPairs(path, es[..j + 1]) == PathPairs(path, es[..j]) + [(es[j].Tgi(), path)];
  }

  /** The body of the second loop for a key held more than once: severity, type name, description. */
  method MakeConflict(tgi: Tgi, packages: seq<string>) returns (c: Conflict)
    ensures c == DuplicateConflict(tgi, packages)
  {
    var typeId, groupId, instanceId := tgi.0, tgi.1, tgi.2;
    var severity := Severity(typeId);
    var typeName := GetTypeName(typeId);
    var desc;
    if |packages| == 2 {
      desc := "Duplicate " + typeName + " found in 2 packages";
      assert Decimal(2) == "2";
    } else {
      desc := "Duplicate " + typeName + " found in " + Decimal(|packages|) + " packages";
    }
    c := Conflict("duplicate", severity, typeId, typeName, instanceId, groupId, packages, desc);
  }

  /** The second loop: one conflict per key held more than once, in dict order. */
  method CollectConflicts(keys: seq<Tgi>, tgiMap: map<Tgi, seq<string>>, ghost xs: seq<(Tgi, string)>)
    returns (conflicts: seq<Conflict>)
    requires Grouped(keys, tgiMap, xs)
    ensures conflicts == DuplicatesOf(keys, xs, DuplicateConflict)
  {
    conflicts := [];
    var j := 0;
    while j < |keys|
      invariant 0 <= j <= |keys|
      invariant conflicts == DuplicatesOf(keys[..j], xs, DuplicateConflict)
    {
      var tgi := keys[j];
      var packages := tgiMap[tgi];
      DuplicatesOfStep(keys, xs, DuplicateConflict, j);
      if |packages| > 1 {
        var c := MakeConflict(tgi, packages);
        conflicts := conflicts + [c];
      }
      j := j + 1;
    }
    assert keys[..j] == keys;
  }

  /** detect_conflicts, given the outcome of Package.open for each path; the progress callback is left out. */
  method DetectConflicts(ps: seq<ScannedPackage>) returns (report: ConflictReport)
    ensures report == DetectSpec(ps)
  {
    var totalResources := 0;
    var scanErrors: seq<ScanError> := [];
    var keys: seq<Tgi> := [];
    var tgiMap: map<Tgi, seq<string>> := map[];
    ghost var xs: seq<(Tgi, string)> := [];
    var i := 0;
    while i < |ps|
      invariant 0 <= i <= |ps|
      invariant xs == Pairs(ps[..i])
      invariant Grouped(keys, tgiMap, xs)
      invariant totalResources == |xs|
      invariant scanErrors == ScanErrors(ps[..i])
    {
      var p := ps[i];
      ScanStep(ps, i);
      if p.outcome.Success? {
        keys, tgiMap := AddPackage(p.path, p.outcome.value, keys, tgiMap, xs);
        xs := xs + PathPairs(p.path, p.outcome.value);
        totalResources := totalResources + |p.outcome.value|;
      } else {
        scanErrors := scanErrors + [ScanError(Name(p.path), p.outcome.error)];
      }
      i := i + 1;
    }
    assert ps[..i] == ps;
    var conflicts := CollectConflicts(keys, tgiMap, Pairs(ps));
    report := ConflictReport(SortBy(conflicts, SeverityOrder), |ps|, totalResources, scanErrors);
  }
  // ------------------------------------------------------------ properties of the report

  function ConflictKey(c: Conflict): Tgi
  {
    (c.resourceType, c.groupId, c.instanceId)
  }

  /** How many resources of es have the key t. */
  function CountTgi(es: seq<IndexEntry>, t: Tgi): (n: nat)
    ensures n <= |es|
  {
    if es == [] then 0 else CountTgi(es[..|es| - 1], t) + (if es[|es| - 1].Tgi() == t then 1 else 0)
  }

  /** How many resources with the key t the packages that opened hold, repeats inside one package included. */
  function Occurrences(ps: seq<ScannedPackage>, t: Tgi): nat
  {
    if ps == [] then 0
    else
      var p := ps[|ps| - 1];
      Occurrences(ps[..|ps| - 1], t) + (if p.outcome.Success? then CountTgi(p.outcome.value, t) else 0)
  }

  /** The resources of the packages that opened. */
  function OpenedResources(ps: seq<ScannedPackage>): nat
  {
    if ps == [] then 0
    else
      var p := ps[|ps| - 1];
      OpenedResources(ps[..|ps| - 1]) + (if p.outcome.Success? then |p.outcome.value| else 0)
  }

  /** The packages that did not open. */
  function FailedCount(ps: seq<ScannedPackage>): nat
  {
    if ps == [] then 0 else FailedCount(ps[..|ps| - 1]) + (if ps[|ps| - 1].outcome.Failure? then 1 else 0)
  }

  /** The list tgi_map holds for t within one package: its path once per resource with that key. */
  lemma {:induction false} PathPairsValues(path: string, es: seq<IndexEntry>, t: Tgi)
    ensures |ValuesOf(PathPairs(path, es), t)| == CountTgi(es, t)
    ensures forall j :: 0 <= j < |ValuesOf(PathPairs(path, es), t)| ==> ValuesOf(PathPairs(path, es), t)[j] == path
  {
    if es != [] {
      var init := es[..|es| - 1];
      assert PathPairs(path, es) == PathPairs(path, init) + [(es[|es| - 1].Tgi(), path)];
      PathPairsValues(path, init, t);
      ValuesOfSnoc(PathPairs(path, init), (es[|es| - 1].Tgi(), path), t);
    }
  }

  /** Every occurrence of t in a package that opened adds one entry to its list. */
  lemma {:induction false} PairsValues(ps: seq<ScannedPackage>, t: Tgi)
    ensures |ValuesOf(Pairs(ps), t)| == Occurrences(ps, t)
  {
    if ps != [] {
      var init, p := ps[..|ps| - 1], ps[|ps| - 1];
      PairsValues(init, t);
      if p.outcome.Success? {
        var es := p.outcome.value;
        assert Pairs(ps) == Pairs(init) + PathPairs(p.path, es);
        ValuesOfConcat(Pairs(init), PathPairs(p.path, es), t);
        PathPairsValues(p.path, es, t);
        assert Occurrences(ps, t) == Occurrences(init, t) + CountTgi(es, t);
      } else {
        assert Pairs(ps) == Pairs(init);
      }
    }
  }

  /**
   * The totals of the report: every path is counted as scanned, each
   * package that does not open adds one scan error and no resources, the
   * others add all their resources.
   */
  lemma {:induction false} ReportTotals(ps: seq<ScannedPackage>)
    ensures DetectSpec(ps).packagesScanned == |ps|
    ensures |DetectSpec(ps).scanErrors| == FailedCount(ps)
    ensures DetectSpec(ps).totalResources == OpenedResources(ps)
  {
    if ps != [] {
      ReportTotals(ps[..|ps| - 1]);
    }
  }

  /** Before the sort: a key has a conflict iff it has more than one entry, and that conflict is its duplicate conflict. */
  lemma FoundIff(xs: seq<(Tgi, string)>, t: Tgi)
    ensures var found := DuplicatesOf(KeysOf(xs), xs, DuplicateConflict);
      (exists c :: c in found && ConflictKey(c) == t) <==> |ValuesOf(xs, t)| > 1
    ensures var found := DuplicatesOf(KeysOf(xs), xs, DuplicateConflict);
      forall c :: c in found && ConflictKey(c) == t ==> c == DuplicateConflict(t, ValuesOf(xs, t))
  {
    var keys := KeysOf(xs);
    var found := DuplicatesOf(keys, xs, DuplicateConflict);
    forall c | c in found
      ensures exists m :: (0 <= m < |keys| && |ValuesOf(xs, keys[m])| > 1 &&
                           c == DuplicateConflict(keys[m], ValuesOf(xs, keys[m])))
    {
      DuplicatesOfIff(keys, xs, DuplicateConflict, c);
    }
    if |ValuesOf(xs, t)| > 1 {
      var c := DuplicateConflict(t, ValuesOf(xs, t));
      var m :| 0 <= m < |keys| && keys[m] == t;
      DuplicatesOfIff(keys, xs, DuplicateConflict, c);
      assert ConflictKey(c) == t;
    }
  }

  /**
   * A key is reported iff the packages that opened hold it more than once;
   * its conflict lists the path of each occurrence and has the severity of
   * its type.
   */
  lemma ConflictIff(ps: seq<ScannedPackage>, t: Tgi)
    ensures (exists c :: c in DetectSpec(ps).conflicts && ConflictKey(c) == t) <==> Occurrences(ps, t) > 1
    ensures forall c :: c in DetectSpec(ps).conflicts && ConflictKey(c) == t ==>
      c == DuplicateConflict(t, ValuesOf(Pairs(ps), t)) && c.severity == Severity(t.0)
  {
    var xs := Pairs(ps);
    var found := DuplicatesOf(KeysOf(xs), xs, DuplicateConflict);
    SortBySorted(found, SeverityOrder);
    assert forall c :: c in DetectSpec(ps).conflicts <==> c in found by {
      forall c ensures c in DetectSpec(ps).conflicts <==> c in found {
        assert c in DetectSpec(ps).conflicts <==> c in multiset(DetectSpec(ps).conflicts);
        assert c in found <==> c in multiset(found);
      }
    }
    PairsValues(ps, t);
    FoundIff(xs, t);
  }

  /** The report lists errors, then warnings, then information, each in dict order, and loses nothing. */
  lemma ReportOrdered(ps: seq<ScannedPackage>, k: Key)
    ensures var xs := Pairs(ps);
      var found := DuplicatesOf(KeysOf(xs), xs, DuplicateConflict);
      var cs := DetectSpec(ps).conflicts;
      SortedBy(cs, SeverityOrder) && multiset(cs) == multiset(found) &&
      WithKey(cs, SeverityOrder, k) == WithKey(found, SeverityOrder, k)
  {
    var xs := Pairs(ps);
    var found := DuplicatesOf(KeysOf(xs), xs, DuplicateConflict);
    SortBySorted(found, SeverityOrder);
    SortByStable(found, SeverityOrder, k);
  }

  /** Every reported conflict names at least two packages. */
  lemma ConflictsHaveTwoPackages(ps: seq<ScannedPackage>, i: nat)
    requires i < |DetectSpec(ps).conflicts|
    ensures |DetectSpec(ps).conflicts[i].packages| >= 2
  {
    var xs := Pairs(ps);
    var keys := KeysOf(xs);
    var found := DuplicatesOf(keys, xs, DuplicateConflict);
    var c := DetectSpec(ps).conflicts[i];
    SortBySorted(found, SeverityOrder);
    assert c in multiset(DetectSpec(ps).conflicts);
    assert c in found;
    DuplicatesOfIff(keys, xs, DuplicateConflict, c);
  }

  // ------------------------------------------------------------ detect_script_conflicts

  /** path.stem.lower(): the key a script is grouped under. */
  function ScriptName(path: string): string
  {
    Lower(Stem(Name(path)))
  }

  /** One (lower-cased stem, path) pair per script path: what name_map collects. */
  function ScriptPairs(paths: seq<string>): seq<(string, string)>
  {
    seq(|paths|, i requires 0 <= i < |paths| => (ScriptName(paths[i]), paths[i]))
  }

  lemma ScriptPairsStep(paths: seq<string>, i: nat)
    requires i < |paths|
    ensures ScriptPairs(paths)[..i + 1] == ScriptPairs(paths)[..i] + [(ScriptName(paths[i]), paths[i])]
  {
  }

  /** The warning for scripts that share a name. */
  function ScriptConflict(name: string, paths: seq<string>): Conflict
  {
    Conflict("script_duplicate", WARNING, 0, "Script", 0, 0, paths, "Multiple script mods with same name: " + name)
  }

  /** The first loop of detect_script_conflicts: each path appended under its lower-cased stem. */
  method GroupScripts(scriptPaths: seq<string>) returns (names: seq<string>, nameMap: map<string, seq<string>>)
    ensures Grouped(names, nameMap, ScriptPairs(scriptPaths))
  {
    names, nameMap := [], map[];
    ghost var xs := ScriptPairs(scriptPaths);
    ghost var done: seq<(string, string)> := [];
    var i := 0;
    while i < |scriptPaths|
      invariant 0 <= i <= |scriptPaths|
      invariant done == xs[..i]
      invariant Grouped(names, nameMap, done)
    {
      var path := scriptPaths[i];
      var name := ScriptName(path);
      ScriptPairsStep(scriptPaths, i);
      names, nameMap := AppendPath(names, nameMap, name, path, done);
      done := done + [(name, path)];
      i := i + 1;
    }
    assert xs[..i] == xs;
  }

  /** The second loop: one warning per name held by more than one script, in dict order. */
  method CollectScriptConflicts(names: seq<string>, nameMap: map<string, seq<string>>, ghost xs: seq<(string, string)>)
    returns (conflicts: seq<Conflict>)
    requires Grouped(names, nameMap, xs)
    ensures conflicts == DuplicatesOf(names, xs, ScriptConflict)
  {
    conflicts := [];
    var j := 0;
    while j < |names|
      invariant 0 <= j <= |names|
      invariant conflicts == DuplicatesOf(names[..j], xs, ScriptConflict)
    {
      var name := names[j];
      var paths := nameMap[name];
      DuplicatesOfStep(names, xs, ScriptConflict, j);
      if |paths| > 1 {
        conflicts := conflicts + [ScriptConflict(name, paths)];
      }
      j := j + 1;
    }
    assert names[..j] == names;
  }

  /** detect_script_conflicts. */
  method DetectScriptConflicts(scriptPaths: seq<string>) returns (conflicts: seq<Conflict>)
    ensures var xs := ScriptPairs(scriptPaths); conflicts == DuplicatesOf(KeysOf(xs), xs, ScriptConflict)
  {
    var names, nameMap := GroupScripts(scriptPaths);
    conflicts := CollectScriptConflicts(names, nameMap, ScriptPairs(scriptPaths));
  }

  /**
   * A stem, lower-cased, shared by more than one script gives one warning
   * listing those scripts in order; no other warning is given.
   */
  lemma ScriptConflictIff(scriptPaths: seq<string>, name: string)
    ensures var xs := ScriptPairs(scriptPaths);
      ScriptConflict(name, ValuesOf(xs, name)) in DuplicatesOf(KeysOf(xs), xs, ScriptConflict) <==>
        |ValuesOf(xs, name)| > 1
    ensures var xs := ScriptPairs(scriptPaths);
      forall c :: c in DuplicatesOf(KeysOf(xs), xs, ScriptConflict) ==> c.severity == WARNING && |c.packages| > 1
  {
    var xs := ScriptPairs(scriptPaths);
    var keys := KeysOf(xs);
    DuplicatesOfIff(keys, xs, ScriptConflict, ScriptConflict(name, ValuesOf(xs, name)));
    forall c | c in DuplicatesOf(keys, xs, ScriptConflict) ensures c.severity == WARNING && |c.packages| > 1 {
      DuplicatesOfIff(keys, xs, ScriptConflict, c);
    }
    if |ValuesOf(xs, name)| > 1 {
      var m :| 0 <= m < |keys| && keys[m] == name;
    }
  }

  // ------------------------------------------------------------ get_conflict_resolution_options

  /** One option dict: its "action", "label" and "description" keys ("label" is a Dafny keyword, hence optionLabel). */
  datatype ResolutionOption = ResolutionOption(action: string, optionLabel: string, description: string)

  function Actions(options: seq<ResolutionOption>): seq<string>
  {
    seq(|options|, i requires 0 <= i < |options| => options[i].action)
  }

  /**
   * get_conflict_resolution_options; packages[0] is read, so the conflict
   * must name a package (every reported one names two or more).
   */
  function ResolutionOptions(c: Conflict): (r: seq<ResolutionOption>)
    requires |c.packages| >= 1
    ensures |c.packages| == 2 ==> Actions(r) == ["keep_first", "keep_second", "disable_all", "ignore"]
    ensures |c.packages| != 2 ==> Actions(r) == ["keep_first", "disable_all", "ignore"]
    ensures r[0].optionLabel == "Keep " + Name(c.packages[0])
    ensures |c.packages| == 2 ==>
      r[0].description == "Disable " + Name(c.packages[1]) &&
      r[1].optionLabel == "Keep " + Name(c.packages[1]) && r[1].description == "Disable " + Name(c.packages[0])
    ensures |c.packages| != 2 ==> r[0].description == "Disable " + Decimal(|c.packages| - 1) + " other packages"
  {
    var keep := if |c.packages| == 2 then
        [ResolutionOption("keep_first", "Keep " + Name(c.packages[0]), "Disable " + Name(c.packages[1])),
         ResolutionOption("keep_second", "Keep " + Name(c.packages[1]), "Disable " + Name(c.packages[0]))]
      else
        [ResolutionOption("keep_first", "Keep " + Name(c.packages[0]),
                          "Disable " + Decimal(|c.packages| - 1) + " other packages")];
    keep + [ResolutionOption("disable_all", "Disable All", "Disable all conflicting packages"),
            ResolutionOption("ignore", "Ignore", "Mark as reviewed and ignore this conflict")]
  }
}
