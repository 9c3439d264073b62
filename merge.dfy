/**
 * Merging packages (s4lt/editor/merge.py). Both operations walk the given
 * packages in order and each package's resources in index order, keyed by
 * (type, group, instance). find_conflicts groups the (path, size) sources of
 * every key and reports the keys seen more than once; merge_packages keeps,
 * per key, the last occurrence that the resolutions accept and writes the
 * kept records to one package.
 */
module Merge {
  import opened Bytes
  import opened Wrappers
  import opened Exceptions
  import opened Index
  import opened Compression
  import opened Files
  import opened Writer
  import opened Dicts
  import opened Opened

  datatype MergeConflict = MergeConflict(typeId: nat, groupId: nat, instanceId: nat, sources: seq<(string, nat)>)
  {
    function Key(): Tgi { (typeId, groupId, instanceId) }
  }

  function RecordKey(r: ResourceRecord): Tgi { (r.typeId, r.groupId, r.instanceId) }

  // ------------------------------------------------------------ find_conflicts

  /** The (key, (path, uncompressed size)) pairs one package contributes, in resource order. */
  function SourcesIn(path: string, rs: seq<ResourceView>): seq<(Tgi, (string, nat))>
  {
    seq(|rs|, j requires 0 <= j < |rs| => (rs[j].entry.Tgi(), (path, rs[j].entry.uncompressedSize)))
  }

  /**
   * The pairs the first loop of find_conflicts appends, package after
   * package; the first package that fails to open raises its error.
   */
  function Sources(ps: seq<OpenedPackage>): (r: Result<seq<(Tgi, (string, nat))>, Error>)
    ensures r.Failure? <==> exists i :: 0 <= i < |ps| && ps[i].outcome.Failure?
    ensures r.Failure? ==>
      exists i :: 0 <= i < |ps| && ps[i].outcome == Failure(r.error) &&
        forall k :: 0 <= k < i ==> ps[k].outcome.Success?
  {
    if ps == [] then Success([])
    else
      var init, p := ps[..|ps| - 1], ps[|ps| - 1];
      assert forall k :: 0 <= k < |init| ==> init[k] == ps[k];
      match Sources(init)
      case Failure(e) => Failure(e)
      case Success(xs) =>
        match p.outcome
        case Failure(e) => Failure(e)
        case Success(rs) => Success(xs + SourcesIn(p.path, rs))
  }

  /** The conflicts of the given keys, in key order: those with more than one source. */
  function ConflictsOf(keys: seq<Tgi>, xs: seq<(Tgi, (string, nat))>): (r: seq<MergeConflict>)
    ensures |r| <= |keys|
    ensures forall i :: 0 <= i < |r| ==>
      r[i].Key() in keys && r[i].sources == ValuesOf(xs, r[i].Key()) && |r[i].sources| > 1
    ensures forall k :: k in keys && |ValuesOf(xs, k)| > 1 ==> exists i :: 0 <= i < |r| && r[i].Key() == k
  {
    if keys == [] then []
    else
      var init, k := keys[..|keys| - 1], keys[|keys| - 1];
      var rest := ConflictsOf(init, xs);
      assert forall k' :: k' in keys ==> k' in init || k' == k;
      var vs := ValuesOf(xs, k);
      if |vs| > 1 then
        var r := rest + [MergeConflict(k.0, k.1, k.2, vs)];
        assert r[|rest|].Key() == k;
        assert forall i :: 0 <= i < |rest| ==> r[i] == rest[i];
        r
      else rest
  }

  /** What find_conflicts returns or raises. */
  function FindConflictsSpec(ps: seq<OpenedPackage>): (r: Result<seq<MergeConflict>, Error>)
    ensures r.Failure? <==> Sources(ps).Failure?
  {
    match Sources(ps)
    case Failure(e) => Failure(e)
    case Success(xs) => Success(ConflictsOf(KeysOf(xs), xs))
  }

  /**
   * A key is reported iff it occurs more than once over all inputs, repeats
   * within one package included, and its sources are all its occurrences.
   */
  lemma ConflictIff(ps: seq<OpenedPackage>, t: Tgi)
    requires Sources(ps).Success?
    ensures var xs := Sources(ps).value;
      var cs := FindConflictsSpec(ps).value;
      ((exists i :: 0 <= i < |cs| && cs[i].Key() == t) <==> |ValuesOf(xs, t)| > 1) &&
      (forall i :: 0 <= i < |cs| ==> cs[i].sources == ValuesOf(xs, cs[i].Key()))
  {
    var xs := Sources(ps).value;
    assert FindConflictsSpec(ps).value == ConflictsOf(KeysOf(xs), xs);
    if |ValuesOf(xs, t)| > 1 {
      assert t in KeysOf(xs);
    }
  }

  /** The keys of the given conflicts, in order. */
  function ConflictKeys(cs: seq<MergeConflict>): seq<Tgi>
  {
    seq(|cs|, i requires 0 <= i < |cs| => cs[i].Key())
  }

  /** Reported keys are distinct. */
  lemma {:induction false} ConflictsDistinct(keys: seq<Tgi>, xs: seq<(Tgi, (string, nat))>)
    requires Distinct(keys)
    ensures Distinct(ConflictKeys(ConflictsOf(keys, xs)))
  {
    if keys != [] {
      var init, k := keys[..|keys| - 1], keys[|keys| - 1];
      DistinctInit(keys);
      ConflictsDistinct(init, xs);
      var rest := ConflictsOf(init, xs);
      if |ValuesOf(xs, k)| > 1 {
        var c := MergeConflict(k.0, k.1, k.2, ValuesOf(xs, k));
        assert ConflictKeys(rest + [c]) == ConflictKeys(rest) + [k];
        DistinctSnoc(ConflictKeys(rest), k);
      }
    }
  }

  /** The sources of two runs of packages: those of the first run, then those of the second. */
  lemma {:induction false} SourcesConcat(a: seq<OpenedPackage>, b: seq<OpenedPackage>)
    requires Sources(a).Success? && Sources(b).Success?
    ensures Sources(a + b) == Success(Sources(a).value + Sources(b).value)
    decreases |b|
  {
    if b == [] {
      assert a + b == a;
      assert Sources(a).value + [] == Sources(a).value;
    } else {
      var init := b[..|b| - 1];
      assert (a + b)[..|a + b| - 1] == a + init;
      var last := b[|b| - 1];
      assert (a + b)[|a + b| - 1] == last;
      assert Sources(init).Success?;
      SourcesConcat(a, init);
      var A, I := Sources(a).value, Sources(init).value;
      assert Sources(b) == Success(I + SourcesIn(last.path, last.outcome.value));
      assert Sources(a + b) == Success((A + I) + SourcesIn(last.path, last.outcome.value));
      assert (A + I) + SourcesIn(last.path, last.outcome.value) == A + (I + SourcesIn(last.path, last.outcome.value));
    }
  }

  /** A conflict lists its sources in input-file order: those from earlier packages come first. */
  lemma SourcesInFileOrder(a: seq<OpenedPackage>, b: seq<OpenedPackage>, t: Tgi)
    requires Sources(a).Success? && Sources(b).Success?
    ensures ValuesOf(Sources(a + b).value, t) == ValuesOf(Sources(a).value, t) + ValuesOf(Sources(b).value, t)
  {
    SourcesConcat(a, b);
    ValuesOfConcat(Sources(a).value, Sources(b).value, t);
  }

  /** One more package: its pairs follow, or its open failure is raised. */
  lemma SourcesStep(ps: seq<OpenedPackage>, i: nat, xs: seq<(Tgi, (string, nat))>)
    requires i < |ps| && Sources(ps[..i]) == Success(xs)
    ensures ps[i].outcome.Success? ==> Sources(ps[..i + 1]) == Success(xs + SourcesIn(ps[i].path, ps[i].outcome.value))
    ensures ps[i].outcome.Failure? ==> Sources(ps[..i + 1]) == Failure(ps[i].outcome.error)
  {
    assert ps[..i + 1][..i] == ps[..i];
  }

  /** Once a prefix fails, the whole run fails with its error. */
  lemma {:induction false} SourcesFailed(ps: seq<OpenedPackage>, i: nat)
    requires i <= |ps| && Sources(ps[..i]).Failure?
    ensures Sources(ps) == Sources(ps[..i])
    decreases |ps| - i
  {
    if i == |ps| {
      assert ps[..i] == ps;
    } else {
      assert ps[..i + 1][..i] == ps[..i];
      SourcesFailed(ps, i + 1);
    }
  }

  /** The first loop of find_conflicts for one package: append each resource's source under its key. */
  method AddSources(path: string, rs: seq<ResourceView>, keys: seq<Tgi>, tgiSources: map<Tgi, seq<(string, nat)>>,
                    ghost xs: seq<(Tgi, (string, nat))>)
    returns (keys': seq<Tgi>, tgiSources': map<Tgi, seq<(string, nat)>>)
    requires Grouped(keys, tgiSources, xs)
    ensures Grouped(keys', tgiSources', xs + SourcesIn(path, rs))
  {
    keys', tgiSources' := keys, tgiSources;
    ghost var done := xs;
    assert xs + SourcesIn(path, rs[..0]) == xs;
    var j := 0;
    while j < |rs|
      invariant 0 <= j <= |rs|
      invariant done == xs + SourcesIn(path, rs[..j])
      invariant Grouped(keys', tgiSources', done)
    {
      var res := rs[j];
      var tgi := res.entry.Tgi();
      var source := (path, res.entry.uncompressedSize);
      SourcesInStep(xs, path, rs, j);
      keys', tgiSources' := AppendSource(keys', tgiSources', tgi, source, done);
      done := done + [(tgi, source)];
      j := j + 1;
    }
    assert rs[..j] == rs;
  }

  /** "if tgi not in tgi_sources: tgi_sources[tgi] = []" then "tgi_sources[tgi].append(source)". */
  method AppendSource(keys: seq<Tgi>, tgiSources: map<Tgi, seq<(string, nat)>>, tgi: Tgi, source: (string, nat),
                      ghost done: seq<(Tgi, (string, nat))>)
    returns (keys': seq<Tgi>, tgiSources': map<Tgi, seq<(string, nat)>>)
    requires Grouped(keys, tgiSources, done)
    ensures Grouped(keys', tgiSources', done + [(tgi, source)])
  {
    GroupedStep(keys, tgiSources, done, (tgi, source));
    keys' := if tgi in tgiSources then keys else keys + [tgi];
    tgiSources' := tgiSources[tgi := (if tgi in tgiSources then tgiSources[tgi] else []) + [source]];
  }

  lemma SourcesInStep(xs: seq<(Tgi, (string, nat))>, path: string, rs: seq<ResourceView>, j: nat)
    requires j < |rs|
    ensures xs + SourcesIn(path, rs[..j + 1]) == xs + SourcesIn(path, rs[..j]) + [(rs[j].entry.Tgi(), (path, rs[j].entry.uncompressedSize))]
  {
    assert SourcesIn(path, rs[..j + 1]) == SourcesIn(path, rs[..j]) + [(rs[j].entry.Tgi(), (path, rs[j].entry.uncompressedSize))];
  }

  /** The second loop of find_conflicts: one conflict per key with more than one source, in dict order. */
  method CollectConflicts(keys: seq<Tgi>, tgiSources: map<Tgi, seq<(string, nat)>>, ghost xs: seq<(Tgi, (string, nat))>)
    returns (conflicts: seq<MergeConflict>)
    requires Grouped(keys, tgiSources, xs)
    ensures conflicts == ConflictsOf(keys, xs)
  {
    conflicts := [];
    var j := 0;
    while j < |keys|
      invariant 0 <= j <= |keys|
      invariant conflicts == ConflictsOf(keys[..j], xs)
    {
      var tgi := keys[j];
      var sources := tgiSources[tgi];
      assert keys[..j + 1][..j] == keys[..j];
      if |sources| > 1 {
        conflicts := conflicts + [MergeConflict(tgi.0, tgi.1, tgi.2, sources)];
      }
      j := j + 1;
    }
    assert keys[..j] == keys;
  }

  /** find_conflicts. */
  method FindConflicts(ps: seq<OpenedPackage>) returns (r: Result<seq<MergeConflict>, Error>)
    ensures r == FindConflictsSpec(ps)
  {
    var keys: seq<Tgi> := [];
    var tgiSources: map<Tgi, seq<(string, nat)>> := map[];
    ghost var xs: seq<(Tgi, (string, nat))> := [];
    var i := 0;
    while i < |ps|
      invariant 0 <= i <= |ps|
      invariant Sources(ps[..i]) == Success(xs)
      invariant Grouped(keys, tgiSources, xs)
    {
      var p := ps[i];
      SourcesStep(ps, i, xs);
      if p.outcome.Failure? {
        SourcesFailed(ps, i + 1);
        return Failure(p.outcome.error);
      }
      keys, tgiSources := AddSources(p.path, p.outcome.value, keys, tgiSources, xs);
      xs := xs + SourcesIn(p.path, p.outcome.value);
      i := i + 1;
    }
    assert ps[..i] == ps;
    var conflicts := CollectConflicts(keys, tgiSources, xs);
    return Success(conflicts);
  }

  // ------------------------------------------------------------ merge_packages

  /** The resolutions let this path's occurrence of the key through: none for the key, or one naming the path. */
  predicate Accepts(resolutions: map<Tgi, string>, t: Tgi, path: string)
  {
    t !in resolutions || resolutions[t] == path
  }

  /**
   * The (key, record) pairs the loop of merge_packages assigns for one
   * package, in resource order: skipped occurrences are not extracted, and
   * the first extract that raises is raised.
   */
  function AcceptedIn(path: string, rs: seq<ResourceView>, resolutions: map<Tgi, string>)
    : (r: Result<seq<(Tgi, ResourceRecord)>, Error>)
    ensures r.Success? ==> forall i :: 0 <= i < |r.value| ==> RecordKey(r.value[i].1) == r.value[i].0
  {
    if rs == [] then Success([])
    else
      var init, res := rs[..|rs| - 1], rs[|rs| - 1];
      assert forall j :: 0 <= j < |init| ==> init[j] == rs[j];
      var tgi := res.entry.Tgi();
      match AcceptedIn(path, init, resolutions)
      case Failure(e) => Failure(e)
      case Success(xs) =>
        if !Accepts(resolutions, tgi, path) then Success(xs)
        else
          match res.extracted
          case Failure(e) => Failure(e)
          case Success(data) => Success(xs + [(tgi, RecordOf(res.entry, data))])
  }

  /** A failed collection raises the error of an extract that the resolutions let through. */
  lemma {:induction false} AcceptedInFailure(path: string, rs: seq<ResourceView>, resolutions: map<Tgi, string>)
    requires AcceptedIn(path, rs, resolutions).Failure?
    ensures exists j :: (0 <= j < |rs| &&
      rs[j].extracted == Failure(AcceptedIn(path, rs, resolutions).error) && Accepts(resolutions, rs[j].entry.Tgi(), path))
  {
    var init := rs[..|rs| - 1];
    if AcceptedIn(path, init, resolutions).Failure? {
      AcceptedInFailure(path, init, resolutions);
      var j :| 0 <= j < |init| && init[j].extracted == Failure(AcceptedIn(path, init, resolutions).error) &&
        Accepts(resolutions, init[j].entry.Tgi(), path);
      assert init[j] == rs[j];
    } else {
      assert rs[|rs| - 1].extracted == Failure(AcceptedIn(path, rs, resolutions).error);
    }
  }

  /** The pairs over all packages; the first open or extract that raises is raised. */
  function Accepted(ps: seq<OpenedPackage>, resolutions: map<Tgi, string>): (r: Result<seq<(Tgi, ResourceRecord)>, Error>)
    ensures r.Success? ==> forall i :: 0 <= i < |r.value| ==> RecordKey(r.value[i].1) == r.value[i].0
    ensures r.Success? ==> forall i :: 0 <= i < |ps| ==> ps[i].outcome.Success?
  {
    if ps == [] then Success([])
    else
      var init, p := ps[..|ps| - 1], ps[|ps| - 1];
      assert forall k :: 0 <= k < |init| ==> init[k] == ps[k];
      match Accepted(init, resolutions)
      case Failure(e) => Failure(e)
      case Success(xs) =>
        match p.outcome
        case Failure(e) => Failure(e)
        case Success(rs) =>
          match AcceptedIn(p.path, rs, resolutions)
          case Failure(e) => Failure(e)
          case Success(ys) => Success(xs + ys)
  }

  /**
   * The records merge_packages writes: list(all_resources.values()), one per
   * key in the slot of its first accepted occurrence, holding the last one.
   */
  function MergeSpec(ps: seq<OpenedPackage>, resolutions: map<Tgi, string>): (r: Result<seq<ResourceRecord>, Error>)
    ensures r.Failure? <==> Accepted(ps, resolutions).Failure?
    ensures r.Success? ==>
      var keys := KeysOf(Accepted(ps, resolutions).value);
      |r.value| == |keys| && forall i :: 0 <= i < |r.value| ==> RecordKey(r.value[i]) == keys[i]
  {
    match Accepted(ps, resolutions)
    case Failure(e) => Failure(e)
    case Success(xs) =>
      var r := LatestValues(xs);
      var keys := KeysOf(xs);
      assert forall i :: 0 <= i < |r| ==> RecordKey(r[i]) == keys[i] by {
        forall i | 0 <= i < |r| ensures RecordKey(r[i]) == keys[i] {
          var vs := ValuesOf(xs, keys[i]);
          assert (keys[i], vs[|vs| - 1]) in xs;
          var m :| 0 <= m < |xs| && xs[m] == (keys[i], vs[|vs| - 1]);
        }
      }
      Success(r)
  }

  /** The merged package holds at most one record per key. */
  lemma MergedKeysDistinct(ps: seq<OpenedPackage>, resolutions: map<Tgi, string>)
    requires MergeSpec(ps, resolutions).Success?
    ensures var recs := MergeSpec(ps, resolutions).value;
      forall i, j :: 0 <= i < j < |recs| ==> RecordKey(recs[i]) != RecordKey(recs[j])
  {
    var keys := KeysOf(Accepted(ps, resolutions).value);
    assert Distinct(keys);
  }

  // ------------------------------------------------------------ which occurrence is kept

  /** The occurrences of key t in one package that the resolutions accept, in resource order. */
  function KeptIn(path: string, rs: seq<ResourceView>, resolutions: map<Tgi, string>, t: Tgi): (r: seq<ResourceView>)
    ensures forall m :: 0 <= m < |r| ==> r[m] in rs && r[m].entry.Tgi() == t
  {
    if rs == [] then []
    else
      var rest := KeptIn(path, rs[..|rs| - 1], resolutions, t);
      var res := rs[|rs| - 1];
      if res.entry.Tgi() == t && Accepts(resolutions, t, path) then rest + [res] else rest
  }

  /** The accepted occurrences of key t over all packages that opened, in input order. */
  function KeptAll(ps: seq<OpenedPackage>, resolutions: map<Tgi, string>, t: Tgi): seq<ResourceView>
  {
    if ps == [] then []
    else
      var p := ps[|ps| - 1];
      KeptAll(ps[..|ps| - 1], resolutions, t) + if p.outcome.Success? then KeptIn(p.path, p.outcome.value, resolutions, t) else []
  }

  /** The records are those the views extract to: same count, and each one built from its view's data. */
  predicate RecordsOfViews(recs: seq<ResourceRecord>, views: seq<ResourceView>)
  {
    |recs| == |views| &&
    forall m :: 0 <= m < |recs| ==> views[m].extracted.Success? && recs[m] == RecordOf(views[m].entry, views[m].extracted.value)
  }

  lemma RecordsOfViewsConcat(a: seq<ResourceRecord>, b: seq<ResourceView>, c: seq<ResourceRecord>, d: seq<ResourceView>)
    requires RecordsOfViews(a, b) && RecordsOfViews(c, d)
    ensures RecordsOfViews(a + c, b + d)
  {
    forall m | 0 <= m < |a + c|
      ensures (b + d)[m].extracted.Success? && (a + c)[m] == RecordOf((b + d)[m].entry, (b + d)[m].extracted.value)
    {
      if m < |a| {
        assert (a + c)[m] == a[m] && (b + d)[m] == b[m];
      } else {
        assert (a + c)[m] == c[m - |a|] && (b + d)[m] == d[m - |a|];
      }
    }
  }

  /** Within one package, the records assigned under key t are those of its accepted occurrences in order. */
  lemma {:induction false} AcceptedInKept(path: string, rs: seq<ResourceView>, resolutions: map<Tgi, string>, t: Tgi)
    requires AcceptedIn(path, rs, resolutions).Success?
    ensures RecordsOfViews(ValuesOf(AcceptedIn(path, rs, resolutions).value, t), KeptIn(path, rs, resolutions, t))
  {
    if rs != [] {
      var init, res := rs[..|rs| - 1], rs[|rs| - 1];
      var xs := AcceptedIn(path, init, resolutions).value;
      AcceptedInKept(path, init, resolutions, t);
      if Accepts(resolutions, res.entry.Tgi(), path) {
        var x := (res.entry.Tgi(), RecordOf(res.entry, res.extracted.value));
        ValuesOfSnoc(xs, x, t);
        if res.entry.Tgi() == t {
          RecordsOfViewsConcat(ValuesOf(xs, t), KeptIn(path, init, resolutions, t), [x.1], [res]);
        }
      }
    }
  }

  /** Over all packages, the records assigned under key t are those of its accepted occurrences in order. */
  lemma {:induction false} AcceptedKept(ps: seq<OpenedPackage>, resolutions: map<Tgi, string>, t: Tgi)
    requires Accepted(ps, resolutions).Success?
    ensures RecordsOfViews(ValuesOf(Accepted(ps, resolutions).value, t), KeptAll(ps, resolutions, t))
  {
    if ps != [] {
      var init, p := ps[..|ps| - 1], ps[|ps| - 1];
      var xs := Accepted(init, resolutions).value;
      var ys := AcceptedIn(p.path, p.outcome.value, resolutions).value;
      AcceptedKept(init, resolutions, t);
      AcceptedInKept(p.path, p.outcome.value, resolutions, t);
      ValuesOfConcat(xs, ys, t);
      RecordsOfViewsConcat(ValuesOf(xs, t), KeptAll(init, resolutions, t), ValuesOf(ys, t),
                           KeptIn(p.path, p.outcome.value, resolutions, t));
    }
  }

  /**
   * The merged package holds a record for key t iff some occurrence of t is
   * accepted, and that record is built from the last accepted occurrence:
   * its extracted data and its is_compressed flag.
   */
  lemma LastAcceptedWins(ps: seq<OpenedPackage>, resolutions: map<Tgi, string>, t: Tgi)
    requires MergeSpec(ps, resolutions).Success?
    ensures var recs := MergeSpec(ps, resolutions).value;
      var kept := KeptAll(ps, resolutions, t);
      ((exists i :: 0 <= i < |recs| && RecordKey(recs[i]) == t) <==> kept != []) &&
      forall i :: 0 <= i < |recs| && RecordKey(recs[i]) == t ==>
        Last(kept).extracted.Success? && recs[i] == RecordOf(Last(kept).entry, Last(kept).extracted.value)
  {
    var xs := Accepted(ps, resolutions).value;
    var recs := MergeSpec(ps, resolutions).value;
    var kept := KeptAll(ps, resolutions, t);
    AcceptedKept(ps, resolutions, t);
    forall i | 0 <= i < |recs| && RecordKey(recs[i]) == t
      ensures Last(kept).extracted.Success? && recs[i] == RecordOf(Last(kept).entry, Last(kept).extracted.value)
    {
      MergedRecord(ps, resolutions, i);
      LastOfViews(ValuesOf(xs, t), kept);
    }
    if kept != [] {
      MergedHasKey(ps, resolutions, t);
    }
  }

  /** The i-th merged record is the last one assigned under its key. */
  lemma MergedRecord(ps: seq<OpenedPackage>, resolutions: map<Tgi, string>, i: nat)
    requires MergeSpec(ps, resolutions).Success? && i < |MergeSpec(ps, resolutions).value|
    ensures var xs := Accepted(ps, resolutions).value;
      var rec := MergeSpec(ps, resolutions).value[i];
      ValuesOf(xs, RecordKey(rec)) != [] && rec == Last(ValuesOf(xs, RecordKey(rec)))
  {
    var xs := Accepted(ps, resolutions).value;
    assert MergeSpec(ps, resolutions).value == LatestValues(xs);
  }

  /** A key with an assigned record has a merged record. */
  lemma MergedHasKey(ps: seq<OpenedPackage>, resolutions: map<Tgi, string>, t: Tgi)
    requires MergeSpec(ps, resolutions).Success?
    requires ValuesOf(Accepted(ps, resolutions).value, t) != []
    ensures exists i :: 0 <= i < |MergeSpec(ps, resolutions).value| && RecordKey(MergeSpec(ps, resolutions).value[i]) == t
  {
    var keys := KeysOf(Accepted(ps, resolutions).value);
    assert t in keys;
    var i :| 0 <= i < |keys| && keys[i] == t;
    assert RecordKey(MergeSpec(ps, resolutions).value[i]) == t;
  }

  lemma LastOfViews(recs: seq<ResourceRecord>, views: seq<ResourceView>)
    requires RecordsOfViews(recs, views) && recs != []
    ensures views != [] && Last(views).extracted.Success? && Last(recs) == RecordOf(Last(views).entry, Last(views).extracted.value)
  {
  }

  /** Without a resolution for the key, every occurrence is accepted: the last one over all packages wins. */
  lemma {:induction false} UnresolvedKeepsAll(ps: seq<OpenedPackage>, resolutions: map<Tgi, string>, t: Tgi)
    requires t !in resolutions
    ensures KeptAll(ps, resolutions, t) == KeptAll(ps, map[], t)
  {
    if ps != [] {
      UnresolvedKeepsAll(ps[..|ps| - 1], resolutions, t);
      var p := ps[|ps| - 1];
      if p.outcome.Success? {
        KeptInResolution(p.path, p.outcome.value, resolutions, t);
      }
    }
  }

  /**
   * Within one package a resolution for key t keeps the package's
   * occurrences of t when it names the package's path and none of them
   * otherwise; no resolution keeps them all.
   */
  lemma {:induction false} KeptInResolution(path: string, rs: seq<ResourceView>, resolutions: map<Tgi, string>, t: Tgi)
    ensures t !in resolutions ==> KeptIn(path, rs, resolutions, t) == KeptIn(path, rs, map[], t)
    ensures t in resolutions ==>
      KeptIn(path, rs, resolutions, t) == if resolutions[t] == path then KeptIn(path, rs, map[], t) else []
  {
    if rs != [] {
      KeptInResolution(path, rs[..|rs| - 1], resolutions, t);
    }
  }

  /**
   * With a resolution naming path p for key t, only occurrences from
   * packages at p are kept; when no package at p holds t, the key is dropped.
   */
  lemma {:induction false} ResolvedKeepsOnlyChosen(ps: seq<OpenedPackage>, resolutions: map<Tgi, string>, t: Tgi)
    requires t in resolutions
    ensures forall v :: v in KeptAll(ps, resolutions, t) ==>
      exists i :: 0 <= i < |ps| && ps[i].path == resolutions[t] && ps[i].outcome.Success? && v in ps[i].outcome.value
    ensures (forall i :: 0 <= i < |ps| && ps[i].path == resolutions[t] && ps[i].outcome.Success? ==>
               KeptIn(ps[i].path, ps[i].outcome.value, map[], t) == []) ==>
            KeptAll(ps, resolutions, t) == []
  {
    if ps != [] {
      var init, p := ps[..|ps| - 1], ps[|ps| - 1];
      ResolvedKeepsOnlyChosen(init, resolutions, t);
      assert forall k :: 0 <= k < |init| ==> init[k] == ps[k];
      if p.outcome.Success? {
        KeptInResolution(p.path, p.outcome.value, resolutions, t);
        assert |ps| - 1 < |ps| && ps[|ps| - 1] == p;
      }
    }
  }

  /** One more package of merge_packages: its pairs follow, or its open or extract failure is raised. */
  lemma AcceptedStep(ps: seq<OpenedPackage>, i: nat, resolutions: map<Tgi, string>, xs: seq<(Tgi, ResourceRecord)>)
    requires i < |ps| && Accepted(ps[..i], resolutions) == Success(xs)
    ensures ps[i].outcome.Failure? ==> Accepted(ps[..i + 1], resolutions) == Failure(ps[i].outcome.error)
    ensures ps[i].outcome.Success? ==>
      var a := AcceptedIn(ps[i].path, ps[i].outcome.value, resolutions);
      (a.Failure? ==> Accepted(ps[..i + 1], resolutions) == Failure(a.error)) &&
      (a.Success? ==> Accepted(ps[..i + 1], resolutions) == Success(xs + a.value))
  {
    assert ps[..i + 1][..i] == ps[..i];
  }

  /** Once a prefix fails, the whole merge fails with its error. */
  lemma {:induction false} AcceptedFailed(ps: seq<OpenedPackage>, i: nat, resolutions: map<Tgi, string>)
    requires i <= |ps| && Accepted(ps[..i], resolutions).Failure?
    ensures Accepted(ps, resolutions) == Accepted(ps[..i], resolutions)
    decreases |ps| - i
  {
    if i == |ps| {
      assert ps[..i] == ps;
    } else {
      assert ps[..i + 1][..i] == ps[..i];
      AcceptedFailed(ps, i + 1, resolutions);
    }
  }

  lemma AcceptedInStep(path: string, rs: seq<ResourceView>, j: nat, resolutions: map<Tgi, string>, ys: seq<(Tgi, ResourceRecord)>)
    requires j < |rs| && AcceptedIn(path, rs[..j], resolutions) == Success(ys)
    ensures var res := rs[j];
      AcceptedIn(path, rs[..j + 1], resolutions) ==
        if !Accepts(resolutions, res.entry.Tgi(), path) then Success(ys)
        else match res.extracted
          case Failure(e) => Failure(e)
          case Success(data) => Success(ys + [(res.entry.Tgi(), RecordOf(res.entry, data))])
  {
    assert rs[..j + 1][..j] == rs[..j];
  }

  lemma {:induction false} AcceptedInFailed(path: string, rs: seq<ResourceView>, j: nat, resolutions: map<Tgi, string>)
    requires j <= |rs| && AcceptedIn(path, rs[..j], resolutions).Failure?
    ensures AcceptedIn(path, rs, resolutions) == AcceptedIn(path, rs[..j], resolutions)
    decreases |rs| - j
  {
    if j == |rs| {
      assert rs[..j] == rs;
    } else {
      assert rs[..j + 1][..j] == rs[..j];
      AcceptedInFailed(path, rs, j + 1, resolutions);
    }
  }

  /** The loop of merge_packages for one package: skip, extract, assign all_resources[tgi]. */
  method AddAccepted(path: string, rs: seq<ResourceView>, resolutions: map<Tgi, string>,
                     keys: seq<Tgi>, allResources: map<Tgi, ResourceRecord>, ghost xs: seq<(Tgi, ResourceRecord)>)
    returns (r: Result<(seq<Tgi>, map<Tgi, ResourceRecord>), Error>)
    requires Latest(keys, allResources, xs)
    ensures var a := AcceptedIn(path, rs, resolutions);
      (a.Failure? ==> r == Failure(a.error)) &&
      (a.Success? ==> r.Success? && Latest(r.value.0, r.value.1, xs + a.value))
  {
    var keys', allResources' := keys, allResources;
    ghost var ys: seq<(Tgi, ResourceRecord)> := [];
    assert xs + ys == xs;
    var j := 0;
    while j < |rs|
      invariant 0 <= j <= |rs|
      invariant AcceptedIn(path, rs[..j], resolutions) == Success(ys)
      invariant Latest(keys', allResources', xs + ys)
    {
      var step;
      step, ys := AcceptOne(path, rs, j, resolutions, keys', allResources', xs, ys);
      if step.Failure? {
        return Failure(step.error);
      }
      keys', allResources' := step.value.0, step.value.1;
      j := j + 1;
    }
    assert rs[..j] == rs;
    return Success((keys', allResources'));
  }

  /** One turn of that loop: resource j is skipped, or fails its extract, or is assigned. */
  method AcceptOne(path: string, rs: seq<ResourceView>, j: nat, resolutions: map<Tgi, string>,
                   keys: seq<Tgi>, allResources: map<Tgi, ResourceRecord>,
                   ghost xs: seq<(Tgi, ResourceRecord)>, ghost ys: seq<(Tgi, ResourceRecord)>)
    returns (r: Result<(seq<Tgi>, map<Tgi, ResourceRecord>), Error>, ghost ys': seq<(Tgi, ResourceRecord)>)
    requires j < |rs| && AcceptedIn(path, rs[..j], resolutions) == Success(ys)
    requires Latest(keys, allResources, xs + ys)
    ensures r.Failure? ==> AcceptedIn(path, rs, resolutions) == Failure(r.error)
    ensures r.Success? ==>
      AcceptedIn(path, rs[..j + 1], resolutions) == Success(ys') && Latest(r.value.0, r.value.1, xs + ys')
  {
    var res := rs[j];
    var tgi := res.entry.Tgi();
    if !Accepts(resolutions, tgi, path) {
      SkipStep(path, rs, j, resolutions, ys);
      return Success((keys, allResources)), ys;
    }
    if res.extracted.Failure? {
      FailStep(path, rs, j, resolutions, ys);
      return Failure(res.extracted.error), ys;
    }
    var record := RecordOf(res.entry, res.extracted.value);
    TakeStep(path, rs, j, resolutions, ys);
    var keys', allResources' := Assign(keys, allResources, tgi, record, xs, ys);
    return Success((keys', allResources')), ys + [(tgi, record)];
  }

  lemma SkipStep(path: string, rs: seq<ResourceView>, j: nat, resolutions: map<Tgi, string>, ys: seq<(Tgi, ResourceRecord)>)
    requires j < |rs| && AcceptedIn(path, rs[..j], resolutions) == Success(ys)
    requires !Accepts(resolutions, rs[j].entry.Tgi(), path)
    ensures AcceptedIn(path, rs[..j + 1], resolutions) == Success(ys)
  {
    AcceptedInStep(path, rs, j, resolutions, ys);
  }

  lemma FailStep(path: string, rs: seq<ResourceView>, j: nat, resolutions: map<Tgi, string>, ys: seq<(Tgi, ResourceRecord)>)
    requires j < |rs| && AcceptedIn(path, rs[..j], resolutions) == Success(ys)
    requires Accepts(resolutions, rs[j].entry.Tgi(), path) && rs[j].extracted.Failure?
    ensures AcceptedIn(path, rs, resolutions) == Failure(rs[j].extracted.error)
  {
    AcceptedInStep(path, rs, j, resolutions, ys);
    AcceptedInFailed(path, rs, j + 1, resolutions);
  }

  lemma TakeStep(path: string, rs: seq<ResourceView>, j: nat, resolutions: map<Tgi, string>, ys: seq<(Tgi, ResourceRecord)>)
    requires j < |rs| && AcceptedIn(path, rs[..j], resolutions) == Success(ys)
    requires Accepts(resolutions, rs[j].entry.Tgi(), path) && rs[j].extracted.Success?
    ensures AcceptedIn(path, rs[..j + 1], resolutions) ==
      Success(ys + [(rs[j].entry.Tgi(), RecordOf(rs[j].entry, rs[j].extracted.value))])
  {
    AcceptedInStep(path, rs, j, resolutions, ys);
  }

  /** all_resources[tgi] = record, after the pairs xs + ys. */
  method Assign(keys: seq<Tgi>, allResources: map<Tgi, ResourceRecord>, tgi: Tgi, record: ResourceRecord,
                ghost xs: seq<(Tgi, ResourceRecord)>, ghost ys: seq<(Tgi, ResourceRecord)>)
    returns (keys': seq<Tgi>, allResources': map<Tgi, ResourceRecord>)
    requires Latest(keys, allResources, xs + ys)
    ensures Latest(keys', allResources', xs + (ys + [(tgi, record)]))
  {
    assert xs + ys + [(tgi, record)] == xs + (ys + [(tgi, record)]);
    LatestStep(keys, allResources, xs + ys, (tgi, record));
    keys' := if tgi in allResources then keys else keys + [tgi];
    allResources' := allResources[tgi := record];
  }

  /** list(all_resources.values()): the latest record of every key, in dict order. */
  function ValuesInOrder(keys: seq<Tgi>, allResources: map<Tgi, ResourceRecord>, ghost xs: seq<(Tgi, ResourceRecord)>)
    : (r: seq<ResourceRecord>)
    requires Latest(keys, allResources, xs)
    ensures r == LatestValues(xs)
  {
    assert forall i :: 0 <= i < |keys| ==> keys[i] in allResources;
    seq(|keys|, i requires 0 <= i < |keys| && keys[i] in allResources => allResources[keys[i]])
  }

  /** The collecting loops of merge_packages: all_resources filled package by package, then its values. */
  method CollectMerged(ps: seq<OpenedPackage>, resolutions: map<Tgi, string>) returns (r: Result<seq<ResourceRecord>, Error>)
    ensures r == MergeSpec(ps, resolutions)
  {
    var keys: seq<Tgi> := [];
    var allResources: map<Tgi, ResourceRecord> := map[];
    ghost var xs: seq<(Tgi, ResourceRecord)> := [];
    var i := 0;
    while i < |ps|
      invariant 0 <= i <= |ps|
      invariant Accepted(ps[..i], resolutions) == Success(xs)
      invariant Latest(keys, allResources, xs)
    {
      var p := ps[i];
      AcceptedStep(ps, i, resolutions, xs);
      if p.outcome.Failure? {
        AcceptedFailed(ps, i + 1, resolutions);
        return Failure(p.outcome.error);
      }
      var added := AddAccepted(p.path, p.outcome.value, resolutions, keys, allResources, xs);
      if added.Failure? {
        AcceptedFailed(ps, i + 1, resolutions);
        return Failure(added.error);
      }
      keys, allResources := added.value.0, added.value.1;
      xs := xs + AcceptedIn(p.path, p.outcome.value, resolutions).value;
      i := i + 1;
    }
    assert ps[..i] == ps;
    return Success(ValuesInOrder(keys, allResources, xs));
  }

  /**
   * merge_packages: collect the accepted records, then write them to the
   * output path without a backup. An open or extract that raises leaves
   * the file system as it was.
   */
  method MergePackages(fs: FileSystem, ps: seq<OpenedPackage>, outputPath: string, resolutions: map<Tgi, string>, z: Deflate)
    returns (r: Result<(), Error>)
    modifies fs
    ensures var m := MergeSpec(ps, resolutions);
      (m.Failure? ==> r == Failure(m.error) && fs.files == old(fs.files)) &&
      (m.Success? ==>
        var bytes := PackageBytes(m.value, z);
        (bytes.Failure? ==> r == Failure(bytes.error) && fs.files == old(fs.files)) &&
        (bytes.Success? ==> r == Success(()) && fs.files == old(fs.files)[outputPath := bytes.value]))
  {
    var values :- CollectMerged(ps, resolutions);
    assert Backup(fs.files, outputPath, false) == Success(fs.files);
    r := WritePackage(fs, outputPath, values, false, z);
  }
}
