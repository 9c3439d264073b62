/**
 * Splitting a package (s4lt/editor/split.py). split_by_type and
 * split_by_group extract every resource of one package, group the records
 * by type id or by group id in a dict of lists, and write one package per
 * group, in dict order, without backups. extract_all writes each resource's
 * extracted bytes to its own ".bin" file.
 */
module Split {
  import opened Bytes
  import opened Wrappers
  import opened Exceptions
  import opened Index
  import opened Compression
  import opened Files
  import opened Writer
  import opened Dicts
  import opened Opened
  import opened Paths
  import opened Text
  import opened Types

  /** What the resources are grouped by. */
  datatype SplitKey = ByType | ByGroup

  function KeyOf(kind: SplitKey, typeId: nat, groupId: nat): nat
  {
    match kind
    case ByType => typeId
    case ByGroup => groupId
  }

  /** The file name of one group's package: "{prefix}_{type_name}.package" or "{prefix}_G{group:08X}.package". */
  function OutputName(kind: SplitKey, prefix: string, key: nat): string
  {
    match kind
    case ByType => prefix + "_" + GetTypeName(key) + ".package"
    case ByGroup => prefix + "_G" + Hex(key, 8) + ".package"
  }

  lemma Unwrap(p: string, x: string, y: string, s: string)
    requires p + x + s == p + y + s
    ensures x == y
  {
    assert |x| == |y|;
    assert (p + x + s)[|p|..|p| + |x|] == x;
    assert (p + y + s)[|p|..|p| + |y|] == y;
  }

  /** Different keys give different file names. */
  lemma OutputNameInjective(kind: SplitKey, prefix: string, a: nat, b: nat)
    requires OutputName(kind, prefix, a) == OutputName(kind, prefix, b)
    ensures a == b
  {
    match kind
    case ByType =>
      Unwrap(prefix + "_", GetTypeName(a), GetTypeName(b), ".package");
      TypeNameInjective(a, b);
    case ByGroup =>
      Unwrap(prefix + "_G", Hex(a, 8), Hex(b, 8), ".package");
      HexValue(a, 8);
      HexValue(b, 8);
  }

  /** The prefix argument, or the stem of the package's file name when it is None. */
  function PrefixOf(packagePath: string, prefix: Option<string>): (r: string)
    ensures prefix.Some? ==> r == prefix.value
    ensures prefix.None? ==> r + Suffix(Name(packagePath)) == Name(packagePath)
  {
    if prefix.Some? then prefix.value else Stem(Name(packagePath))
  }

  // ------------------------------------------------------------ grouping

  /**
   * The (key, record) pairs the grouping loop appends, in resource order:
   * every resource is extracted, and the first extract that raises is raised.
   */
  function KeyedRecords(kind: SplitKey, rs: seq<ResourceView>): (r: Result<seq<(nat, ResourceRecord)>, Error>)
    ensures r.Success? ==> |r.value| == |rs|
    ensures r.Success? ==> forall j :: 0 <= j < |rs| ==>
      rs[j].extracted.Success? &&
      r.value[j] == (KeyOf(kind, rs[j].entry.typeId, rs[j].entry.groupId), RecordOf(rs[j].entry, rs[j].extracted.value))
  {
    if rs == [] then Success([])
    else
      var init, res := rs[..|rs| - 1], rs[|rs| - 1];
      match KeyedRecords(kind, init)
      case Failure(e) => Failure(e)
      case Success(xs) =>
        match res.extracted
        case Failure(e) => Failure(e)
        case Success(data) =>
          assert forall j :: 0 <= j < |init| ==> rs[j] == init[j];
          Success(xs + [(KeyOf(kind, res.entry.typeId, res.entry.groupId), RecordOf(res.entry, data))])
  }

  /** Grouping fails exactly when some resource fails to extract. */
  lemma {:induction false} KeyedRecordsFailure(kind: SplitKey, rs: seq<ResourceView>)
    ensures KeyedRecords(kind, rs).Failure? <==> exists j :: 0 <= j < |rs| && rs[j].extracted.Failure?
  {
    if rs != [] {
      var init := rs[..|rs| - 1];
      KeyedRecordsFailure(kind, init);
      assert forall j :: 0 <= j < |init| ==> rs[j] == init[j];
    }
  }

  /** The record a resource contributes has that resource's key. */
  function RecordKeyOf(kind: SplitKey, r: ResourceRecord): nat { KeyOf(kind, r.typeId, r.groupId) }

  /**
   * The groups partition the resources: one group per distinct key, a key
   * has a group iff some resource has that key, every record of a group
   * has the group's key, and the group sizes add up to the resource count.
   */
  lemma GroupsPartitionResources(kind: SplitKey, rs: seq<ResourceView>)
    requires KeyedRecords(kind, rs).Success?
    ensures var xs := KeyedRecords(kind, rs).value;
      var keys := KeysOf(xs);
      Distinct(keys) &&
      (forall k :: k in keys <==> exists j :: 0 <= j < |rs| && KeyOf(kind, rs[j].entry.typeId, rs[j].entry.groupId) == k) &&
      (forall k, m :: 0 <= m < |ValuesOf(xs, k)| ==> RecordKeyOf(kind, ValuesOf(xs, k)[m]) == k) &&
      GroupSizes(keys, xs) == |rs|
  {
    var xs := KeyedRecords(kind, rs).value;
    GroupsPartition(xs);
    forall k ensures k in KeysOf(xs) <==> exists j :: 0 <= j < |rs| && KeyOf(kind, rs[j].entry.typeId, rs[j].entry.groupId) == k {
      if k in KeysOf(xs) {
        var j :| 0 <= j < |xs| && xs[j].0 == k;
        assert KeyOf(kind, rs[j].entry.typeId, rs[j].entry.groupId) == k;
      }
      if exists j :: 0 <= j < |rs| && KeyOf(kind, rs[j].entry.typeId, rs[j].entry.groupId) == k {
        var j :| 0 <= j < |rs| && KeyOf(kind, rs[j].entry.typeId, rs[j].entry.groupId) == k;
        assert xs[j].0 == k;
      }
    }
    forall k, m | 0 <= m < |ValuesOf(xs, k)| ensures RecordKeyOf(kind, ValuesOf(xs, k)[m]) == k {
      assert (k, ValuesOf(xs, k)[m]) in xs;
    }
  }

  /** Every resource's record sits in the group of its key. */
  lemma EveryResourceGrouped(kind: SplitKey, rs: seq<ResourceView>, j: nat)
    requires KeyedRecords(kind, rs).Success? && j < |rs|
    ensures var xs := KeyedRecords(kind, rs).value;
      RecordOf(rs[j].entry, rs[j].extracted.value) in ValuesOf(xs, KeyOf(kind, rs[j].entry.typeId, rs[j].entry.groupId))
  {
    ValueInGroup(KeyedRecords(kind, rs).value, j);
  }

  lemma KeyedRecordsStep(kind: SplitKey, rs: seq<ResourceView>, j: nat, xs: seq<(nat, ResourceRecord)>)
    requires j < |rs| && KeyedRecords(kind, rs[..j]) == Success(xs)
    ensures var res := rs[j];
      KeyedRecords(kind, rs[..j + 1]) ==
        match res.extracted
        case Failure(e) => Failure(e)
        case Success(data) => Success(xs + [(KeyOf(kind, res.entry.typeId, res.entry.groupId), RecordOf(res.entry, data))])
  {
    assert rs[..j + 1][..j] == rs[..j];
  }

  lemma {:induction false} KeyedRecordsFailed(kind: SplitKey, rs: seq<ResourceView>, j: nat)
    requires j <= |rs| && KeyedRecords(kind, rs[..j]).Failure?
    ensures KeyedRecords(kind, rs) == KeyedRecords(kind, rs[..j])
    decreases |rs| - j
  {
    if j == |rs| {
      assert rs[..j] == rs;
    } else {
      assert rs[..j + 1][..j] == rs[..j];
      KeyedRecordsFailed(kind, rs, j + 1);
    }
  }

  /** by_key[key].append(record) on a defaultdict(list). */
  method AppendRecord(keys: seq<nat>, groups: map<nat, seq<ResourceRecord>>, key: nat, record: ResourceRecord,
                      ghost done: seq<(nat, ResourceRecord)>)
    returns (keys': seq<nat>, groups': map<nat, seq<ResourceRecord>>)
    requires Grouped(keys, groups, done)
    ensures Grouped(keys', groups', done + [(key, record)])
  {
    GroupedStep(keys, groups, done, (key, record));
    keys' := if key in groups then keys else keys + [key];
    groups' := groups[key := (if key in groups then groups[key] else []) + [record]];
  }

  /** The grouping loop: extract every resource and append its record under its key. */
  method GroupRecords(kind: SplitKey, rs: seq<ResourceView>) returns (r: Result<(seq<nat>, map<nat, seq<ResourceRecord>>), Error>)
    ensures var g := KeyedRecords(kind, rs);
      (g.Failure? ==> r == Failure(g.error)) &&
      (g.Success? ==> r.Success? && Grouped(r.value.0, r.value.1, g.value))
  {
    var keys: seq<nat> := [];
    var groups: map<nat, seq<ResourceRecord>> := map[];
    ghost var xs: seq<(nat, ResourceRecord)> := [];
    var j := 0;
    while j < |rs|
      invariant 0 <= j <= |rs|
      invariant KeyedRecords(kind, rs[..j]) == Success(xs)
      invariant Grouped(keys, groups, xs)
    {
      var res := rs[j];
      KeyedRecordsStep(kind, rs, j, xs);
      if res.extracted.Failure? {
        KeyedRecordsFailed(kind, rs, j + 1);
        return Failure(res.extracted.error);
      }
      var key := KeyOf(kind, res.entry.typeId, res.entry.groupId);
      var record := RecordOf(res.entry, res.extracted.value);
      keys, groups := AppendRecord(keys, groups, key, record, xs);
      xs := xs + [(key, record)];
      j := j + 1;
    }
    assert rs[..j] == rs;
    return Success((keys, groups));
  }

  // ------------------------------------------------------------ writing

  /** What a run of writes returns or raises, and the files it leaves. */
  datatype Outcome = Outcome(result: Result<seq<string>, Error>, files: map<string, seq<byte>>)

  /**
   * A run of writes: each job is a path and the bytes to write there, or
   * the error computing them raises. Jobs run in order, collecting their
   * paths; the first error is raised and the files written before it stay
   * written.
   */
  function WriteAll(files: map<string, seq<byte>>, jobs: seq<(string, Result<seq<byte>, Error>)>): (o: Outcome)
    ensures o.result.Success? ==> |o.result.value| == |jobs| && forall j :: 0 <= j < |jobs| ==> o.result.value[j] == jobs[j].0
    ensures o.result.Failure? ==> exists j :: 0 <= j < |jobs| && jobs[j].1 == Failure(o.result.error)
    decreases |jobs|
  {
    if jobs == [] then Outcome(Success([]), files)
    else
      match jobs[0].1
      case Failure(e) => Outcome(Failure(e), files)
      case Success(b) =>
        var o := WriteAll(files[jobs[0].0 := b], jobs[1..]);
        assert forall j :: 0 <= j < |jobs[1..]| ==> jobs[1..][j] == jobs[j + 1];
        Outcome(if o.result.Success? then Success([jobs[0].0] + o.result.value) else o.result, o.files)
  }

  /** The created list so far, followed by what the remaining writes return. */
  function Prepend(created: seq<string>, o: Outcome): Outcome
  {
    Outcome(if o.result.Success? then Success(created + o.result.value) else o.result, o.files)
  }

  lemma WriteAllStart(files: map<string, seq<byte>>, jobs: seq<(string, Result<seq<byte>, Error>)>)
    ensures Prepend([], WriteAll(files, jobs[0..])) == WriteAll(files, jobs)
  {
    assert jobs[0..] == jobs;
    var o := WriteAll(files, jobs);
    if o.result.Success? {
      assert [] + o.result.value == o.result.value;
    }
  }

  lemma WriteAllStep(files: map<string, seq<byte>>, jobs: seq<(string, Result<seq<byte>, Error>)>, i: nat, created: seq<string>)
    requires i < |jobs|
    ensures jobs[i].1.Failure? ==> Prepend(created, WriteAll(files, jobs[i..])) == Outcome(Failure(jobs[i].1.error), files)
    ensures jobs[i].1.Success? ==>
      Prepend(created, WriteAll(files, jobs[i..])) ==
      Prepend(created + [jobs[i].0], WriteAll(files[jobs[i].0 := jobs[i].1.value], jobs[i + 1..]))
  {
    assert jobs[i..][0] == jobs[i] && jobs[i..][1..] == jobs[i + 1..];
    if jobs[i].1.Success? {
      var o := WriteAll(files[jobs[i].0 := jobs[i].1.value], jobs[i + 1..]);
      if o.result.Success? {
        assert created + ([jobs[i].0] + o.result.value) == created + [jobs[i].0] + o.result.value;
      }
    }
  }

  /** Writes touch only the jobs' paths. */
  lemma {:induction false} WriteAllFrame(files: map<string, seq<byte>>, jobs: seq<(string, Result<seq<byte>, Error>)>, q: string)
    requires forall j :: 0 <= j < |jobs| ==> jobs[j].0 != q
    ensures var o := WriteAll(files, jobs);
      (q in o.files <==> q in files) && (q in files ==> o.files[q] == files[q])
    decreases |jobs|
  {
    if jobs != [] && jobs[0].1.Success? {
      assert forall j :: 0 <= j < |jobs[1..]| ==> jobs[1..][j] == jobs[j + 1];
      WriteAllFrame(files[jobs[0].0 := jobs[0].1.value], jobs[1..], q);
    }
  }

  /** After a run of writes to distinct paths succeeds, each path holds its job's bytes. */
  lemma {:induction false} WriteAllWritten(files: map<string, seq<byte>>, jobs: seq<(string, Result<seq<byte>, Error>)>)
    requires WriteAll(files, jobs).result.Success?
    requires forall i, j :: 0 <= i < j < |jobs| ==> jobs[i].0 != jobs[j].0
    ensures var o := WriteAll(files, jobs);
      forall j :: 0 <= j < |jobs| ==> jobs[j].1.Success? && jobs[j].0 in o.files && o.files[jobs[j].0] == jobs[j].1.value
    decreases |jobs|
  {
    if jobs != [] {
      var f := files[jobs[0].0 := jobs[0].1.value];
      var rest := jobs[1..];
      assert forall j :: 0 <= j < |rest| ==> rest[j] == jobs[j + 1];
      WriteAllWritten(f, rest);
      WriteAllFrame(f, rest, jobs[0].0);
      var o := WriteAll(files, jobs);
      assert jobs[0].1.Success?;
      assert o.files == WriteAll(f, rest).files;
      forall j | 0 <= j < |jobs| ensures jobs[j].1.Success? && jobs[j].0 in o.files && o.files[jobs[j].0] == jobs[j].1.value {
        if j > 0 { assert jobs[j] == rest[j - 1]; }
      }
    }
  }

  /** One write_package(path, records, create_backup=False): the built bytes, or the struct.error. */
  method WriteJob(fs: FileSystem, path: string, records: seq<ResourceRecord>, z: Deflate) returns (r: Result<(), Error>)
    modifies fs
    ensures var b := PackageBytes(records, z);
      (b.Failure? ==> r == Failure(b.error) && fs.files == old(fs.files)) &&
      (b.Success? ==> r == Success(()) && fs.files == old(fs.files)[path := b.value])
  {
    assert Backup(fs.files, path, false) == Success(fs.files);
    r := WritePackage(fs, path, records, false, z);
  }

  /** One job per group, in dict order: the output path of its key and the package of the group's records. */
  function SplitJobs(kind: SplitKey, outputDir: string, prefix: string, xs: seq<(nat, ResourceRecord)>, z: Deflate)
    : (r: seq<(string, Result<seq<byte>, Error>)>)
    ensures |r| == |KeysOf(xs)|
  {
    var ks := KeysOf(xs);
    seq(|ks|, i requires 0 <= i < |ks| => (Child(outputDir, OutputName(kind, prefix, ks[i])), PackageBytes(ValuesOf(xs, ks[i]), z)))
  }

  /** Distinct keys give distinct output paths. */
  lemma SplitJobsDistinct(kind: SplitKey, outputDir: string, prefix: string, xs: seq<(nat, ResourceRecord)>, z: Deflate)
    ensures var jobs := SplitJobs(kind, outputDir, prefix, xs, z);
      forall i, j :: 0 <= i < j < |jobs| ==> jobs[i].0 != jobs[j].0
  {
    var jobs := SplitJobs(kind, outputDir, prefix, xs, z);
    var ks := KeysOf(xs);
    forall i, j | 0 <= i < j < |jobs| ensures jobs[i].0 != jobs[j].0 {
      if jobs[i].0 == jobs[j].0 {
        ChildInjective(outputDir, OutputName(kind, prefix, ks[i]), OutputName(kind, prefix, ks[j]));
        OutputNameInjective(kind, prefix, ks[i], ks[j]);
      }
    }
  }

  /** The per-group write loop: one write_package per (key, records), in dict order. */
  method WriteGroups(fs: FileSystem, outputDir: string, keys: seq<nat>, groups: map<nat, seq<ResourceRecord>>,
                     paths: seq<string>, ghost jobs: seq<(string, Result<seq<byte>, Error>)>, z: Deflate)
    returns (r: Result<seq<string>, Error>)
    requires |paths| == |keys| == |jobs|
    requires forall i :: 0 <= i < |keys| ==> keys[i] in groups && jobs[i] == (paths[i], PackageBytes(groups[keys[i]], z))
    modifies fs
    ensures Outcome(r, fs.files) == WriteAll(old(fs.files), jobs)
  {
    var created: seq<string> := [];
    WriteAllStart(fs.files, jobs);
    var i := 0;
    while i < |keys|
      invariant 0 <= i <= |keys|
      invariant Prepend(created, WriteAll(fs.files, jobs[i..])) == WriteAll(old(fs.files), jobs)
    {
      WriteAllStep(fs.files, jobs, i, created);
      var w := WriteJob(fs, paths[i], groups[keys[i]], z);
      if w.Failure? {
        return Failure(w.error);
      }
      created := created + [paths[i]];
      i := i + 1;
    }
    assert jobs[i..] == [] && created + [] == created;
    return Success(created);
  }

  // ------------------------------------------------------------ split_by_type, split_by_group

  /** What split_by_type or split_by_group returns or raises, and the files it leaves. */
  function SplitSpec(kind: SplitKey, p: OpenedPackage, outputDir: string, prefix: Option<string>,
                     files: map<string, seq<byte>>, z: Deflate): Outcome
  {
    match p.outcome
    case Failure(e) => Outcome(Failure(e), files)
    case Success(rs) =>
      match KeyedRecords(kind, rs)
      case Failure(e) => Outcome(Failure(e), files)
      case Success(xs) => WriteAll(files, SplitJobs(kind, outputDir, PrefixOf(p.path, prefix), xs, z))
  }

  /**
   * A split that succeeds lists one output path per group, in dict order,
   * and each of those files holds the package of exactly that group's records.
   */
  lemma SplitWritesEveryGroup(kind: SplitKey, p: OpenedPackage, outputDir: string, prefix: Option<string>,
                              files: map<string, seq<byte>>, z: Deflate)
    requires SplitSpec(kind, p, outputDir, prefix, files, z).result.Success?
    ensures p.outcome.Success? && KeyedRecords(kind, p.outcome.value).Success?
    ensures var o := SplitSpec(kind, p, outputDir, prefix, files, z);
      var xs := KeyedRecords(kind, p.outcome.value).value;
      var keys := KeysOf(xs);
      |o.result.value| == |keys| &&
      forall i :: 0 <= i < |keys| ==>
        o.result.value[i] == Child(outputDir, OutputName(kind, PrefixOf(p.path, prefix), keys[i])) &&
        PackageBytes(ValuesOf(xs, keys[i]), z).Success? &&
        o.result.value[i] in o.files && o.files[o.result.value[i]] == PackageBytes(ValuesOf(xs, keys[i]), z).value
  {
    var xs := KeyedRecords(kind, p.outcome.value).value;
    var name := PrefixOf(p.path, prefix);
    var jobs := SplitJobs(kind, outputDir, name, xs, z);
    var o := WriteAll(files, jobs);
    assert o == SplitSpec(kind, p, outputDir, prefix, files, z);
    SplitJobsDistinct(kind, outputDir, name, xs, z);
    WriteAllWritten(files, jobs);
    var keys := KeysOf(xs);
    forall i | 0 <= i < |keys|
      ensures o.result.value[i] == Child(outputDir, OutputName(kind, name, keys[i]))
      ensures PackageBytes(ValuesOf(xs, keys[i]), z).Success?
      ensures o.result.value[i] in o.files && o.files[o.result.value[i]] == PackageBytes(ValuesOf(xs, keys[i]), z).value
    {
      assert jobs[i] == (Child(outputDir, OutputName(kind, name, keys[i])), PackageBytes(ValuesOf(xs, keys[i]), z));
    }
  }

  /** A split that raises names the error of the open, of an extract, or of a package build. */
  lemma SplitFailure(kind: SplitKey, p: OpenedPackage, outputDir: string, prefix: Option<string>,
                     files: map<string, seq<byte>>, z: Deflate)
    requires SplitSpec(kind, p, outputDir, prefix, files, z).result.Failure?
    ensures var e := SplitSpec(kind, p, outputDir, prefix, files, z).result.error;
      p.outcome == Failure(e) ||
      (p.outcome.Success? && exists j :: 0 <= j < |p.outcome.value| && p.outcome.value[j].extracted == Failure(e)) ||
      e == StructError
  {
    var e := SplitSpec(kind, p, outputDir, prefix, files, z).result.error;
    if p.outcome.Success? {
      if KeyedRecords(kind, p.outcome.value).Failure? {
        KeyedRecordsError(kind, p.outcome.value);
      } else {
        var jobs := SplitJobs(kind, outputDir, PrefixOf(p.path, prefix), KeyedRecords(kind, p.outcome.value).value, z);
        assert WriteAll(files, jobs).result.error == e;
        var j :| 0 <= j < |jobs| && jobs[j].1 == Failure(e);
      }
    }
  }

  lemma {:induction false} KeyedRecordsError(kind: SplitKey, rs: seq<ResourceView>)
    requires KeyedRecords(kind, rs).Failure?
    ensures exists j :: 0 <= j < |rs| && rs[j].extracted == Failure(KeyedRecords(kind, rs).error)
  {
    var init := rs[..|rs| - 1];
    if KeyedRecords(kind, init).Failure? {
      KeyedRecordsError(kind, init);
      var j :| 0 <= j < |init| && init[j].extracted == Failure(KeyedRecords(kind, init).error);
      assert rs[j] == init[j];
    } else {
      assert rs[|rs| - 1].extracted == Failure(KeyedRecords(kind, rs).error);
    }
  }

  /** The body of split_by_type and split_by_group: group, then write one package per group. */
  method SplitPackage(fs: FileSystem, kind: SplitKey, p: OpenedPackage, outputDir: string, prefix: Option<string>, z: Deflate)
    returns (r: Result<seq<string>, Error>)
    modifies fs
    ensures Outcome(r, fs.files) == SplitSpec(kind, p, outputDir, prefix, old(fs.files), z)
  {
    var name := if prefix.None? then Stem(Name(p.path)) else prefix.value;
    if p.outcome.Failure? {
      return Failure(p.outcome.error);
    }
    var grouped := GroupRecords(kind, p.outcome.value);
    if grouped.Failure? {
      return Failure(grouped.error);
    }
    ghost var xs := KeyedRecords(kind, p.outcome.value).value;
    var keys, groups := grouped.value.0, grouped.value.1;
    var paths := seq(|keys|, i requires 0 <= i < |keys| => Child(outputDir, OutputName(kind, name, keys[i])));
    ghost var jobs := SplitJobs(kind, outputDir, name, xs, z);
    assert forall i :: 0 <= i < |keys| ==> keys[i] in groups && jobs[i] == (paths[i], PackageBytes(groups[keys[i]], z));
    r := WriteGroups(fs, outputDir, keys, groups, paths, jobs, z);
  }

  /** split_by_type: one package per distinct type id, named after the type. */
  method SplitByType(fs: FileSystem, p: OpenedPackage, outputDir: string, prefix: Option<string>, z: Deflate)
    returns (r: Result<seq<string>, Error>)
    modifies fs
    ensures Outcome(r, fs.files) == SplitSpec(ByType, p, outputDir, prefix, old(fs.files), z)
  {
    r := SplitPackage(fs, ByType, p, outputDir, prefix, z);
  }

  /** split_by_group: one package per distinct group id, named "G" and the id in eight hex digits. */
  method SplitByGroup(fs: FileSystem, p: OpenedPackage, outputDir: string, prefix: Option<string>, z: Deflate)
    returns (r: Result<seq<string>, Error>)
    modifies fs
    ensures Outcome(r, fs.files) == SplitSpec(ByGroup, p, outputDir, prefix, old(fs.files), z)
  {
    r := SplitPackage(fs, ByGroup, p, outputDir, prefix, z);
  }

  // ------------------------------------------------------------ extract_all

  /** "{type_name}_{group:08X}_{instance:016X}.bin". */
  function ExtractName(e: IndexEntry): string
  {
    GetTypeName(e.typeId) + "_" + Hex(e.groupId, 8) + "_" + Hex(e.instanceId, 16) + ".bin"
  }

  /** The three fields of a name built like ExtractName, with fixed-width hex fields, can be read back. */
  lemma NameParts(ta: string, ga: string, ia: string, tb: string, gb: string, ib: string)
    requires |ga| == |gb| == 8 && |ia| == |ib| == 16
    requires ta + "_" + ga + "_" + ia + ".bin" == tb + "_" + gb + "_" + ib + ".bin"
    ensures ta == tb && ga == gb && ia == ib
  {
    var n := ta + "_" + ga + "_" + ia + ".bin";
    var m := tb + "_" + gb + "_" + ib + ".bin";
    assert n[..|ta|] == ta && m[..|tb|] == tb;
    assert n[|ta| + 1..|ta| + 9] == ga && m[|tb| + 1..|tb| + 9] == gb;
    assert n[|ta| + 10..|ta| + 26] == ia && m[|tb| + 10..|tb| + 26] == ib;
  }

  /** Entries whose group and instance ids fit their fields get different names for different keys. */
  lemma ExtractNameInjective(a: IndexEntry, b: IndexEntry)
    requires a.groupId < U32_LIMIT && b.groupId < U32_LIMIT
    requires a.instanceId < U64_LIMIT && b.instanceId < U64_LIMIT
    requires ExtractName(a) == ExtractName(b)
    ensures a.Tgi() == b.Tgi()
  {
    Pow16Limits();
    HexWidth(a.groupId, 8);
    HexWidth(b.groupId, 8);
    HexWidth(a.instanceId, 16);
    HexWidth(b.instanceId, 16);
    NameParts(GetTypeName(a.typeId), Hex(a.groupId, 8), Hex(a.instanceId, 16),
              GetTypeName(b.typeId), Hex(b.groupId, 8), Hex(b.instanceId, 16));
    TypeNameInjective(a.typeId, b.typeId);
    HexValue(a.groupId, 8);
    HexValue(b.groupId, 8);
    HexValue(a.instanceId, 16);
    HexValue(b.instanceId, 16);
  }

  lemma Pow16Limits()
    ensures Pow16(8) == U32_LIMIT && Pow16(16) == U64_LIMIT
  {
    assert Pow16(8) == U32_LIMIT;
    Pow16Add(8, 8);
  }

  lemma {:induction false} Pow16Add(a: nat, b: nat)
    ensures Pow16(a + b) == Pow16(a) * Pow16(b)
  {
    if a > 0 {
      Pow16Add(a - 1, b);
    }
  }

  /** One job per resource, in index order: its ".bin" path and its extracted bytes. */
  function ExtractJobs(outputDir: string, rs: seq<ResourceView>): seq<(string, Result<seq<byte>, Error>)>
  {
    seq(|rs|, j requires 0 <= j < |rs| => (Child(outputDir, ExtractName(rs[j].entry)), rs[j].extracted))
  }

  /** What extract_all returns or raises, and the files it leaves. */
  function ExtractAllSpec(p: OpenedPackage, outputDir: string, files: map<string, seq<byte>>): Outcome
  {
    match p.outcome
    case Failure(e) => Outcome(Failure(e), files)
    case Success(rs) => WriteAll(files, ExtractJobs(outputDir, rs))
  }

  /** A run of writes that succeeds had bytes for every job. */
  lemma {:induction false} WriteAllOk(files: map<string, seq<byte>>, jobs: seq<(string, Result<seq<byte>, Error>)>)
    requires WriteAll(files, jobs).result.Success?
    ensures forall j :: 0 <= j < |jobs| ==> jobs[j].1.Success?
    decreases |jobs|
  {
    if jobs != [] {
      var rest := jobs[1..];
      assert forall j :: 0 <= j < |rest| ==> rest[j] == jobs[j + 1];
      WriteAllOk(files[jobs[0].0 := jobs[0].1.value], rest);
    }
  }

  /** extract_all that succeeds created one file per resource, in index order, named from its key. */
  lemma ExtractAllCreates(p: OpenedPackage, outputDir: string, files: map<string, seq<byte>>)
    requires ExtractAllSpec(p, outputDir, files).result.Success?
    ensures p.outcome.Success?
    ensures var o := ExtractAllSpec(p, outputDir, files);
      var rs := p.outcome.value;
      |o.result.value| == |rs| &&
      forall j :: 0 <= j < |rs| ==> rs[j].extracted.Success? && o.result.value[j] == Child(outputDir, ExtractName(rs[j].entry))
  {
    var rs := p.outcome.value;
    var jobs := ExtractJobs(outputDir, rs);
    WriteAllOk(files, jobs);
    forall j | 0 <= j < |rs| ensures rs[j].extracted == jobs[j].1 { }
  }

  /**
   * With 32-bit groups, 64-bit instances and distinct keys, each file
   * extract_all created holds exactly its resource's extracted bytes.
   */
  lemma ExtractAllWrites(p: OpenedPackage, outputDir: string, files: map<string, seq<byte>>)
    requires ExtractAllSpec(p, outputDir, files).result.Success?
    requires p.outcome.Success?
    requires forall j :: 0 <= j < |p.outcome.value| ==>
      p.outcome.value[j].entry.groupId < U32_LIMIT && p.outcome.value[j].entry.instanceId < U64_LIMIT
    requires forall i, j :: 0 <= i < j < |p.outcome.value| ==> p.outcome.value[i].entry.Tgi() != p.outcome.value[j].entry.Tgi()
    ensures var o := ExtractAllSpec(p, outputDir, files);
      var rs := p.outcome.value;
      forall j :: 0 <= j < |rs| ==>
        rs[j].extracted.Success? && Child(outputDir, ExtractName(rs[j].entry)) in o.files &&
        o.files[Child(outputDir, ExtractName(rs[j].entry))] == rs[j].extracted.value
  {
    var rs := p.outcome.value;
    var jobs := ExtractJobs(outputDir, rs);
    forall i, j | 0 <= i < j < |jobs| ensures jobs[i].0 != jobs[j].0 {
      if jobs[i].0 == jobs[j].0 {
        ChildInjective(outputDir, ExtractName(rs[i].entry), ExtractName(rs[j].entry));
        ExtractNameInjective(rs[i].entry, rs[j].entry);
      }
    }
    WriteAllWritten(files, jobs);
    forall j | 0 <= j < |rs| ensures jobs[j] == (Child(outputDir, ExtractName(rs[j].entry)), rs[j].extracted) { }
  }

  /** extract_all. */
  method ExtractAll(fs: FileSystem, p: OpenedPackage, outputDir: string) returns (r: Result<seq<string>, Error>)
    modifies fs
    ensures Outcome(r, fs.files) == ExtractAllSpec(p, outputDir, old(fs.files))
  {
    if p.outcome.Failure? {
      return Failure(p.outcome.error);
    }
    var rs := p.outcome.value;
    ghost var jobs := ExtractJobs(outputDir, rs);
    var created: seq<string> := [];
    WriteAllStart(fs.files, jobs);
    var i := 0;
    while i < |rs|
      invariant 0 <= i <= |rs|
      invariant Prepend(created, WriteAll(fs.files, jobs[i..])) == WriteAll(old(fs.files), jobs)
    {
      var res := rs[i];
      var outputPath := Child(outputDir, ExtractName(res.entry));
      assert jobs[i] == (outputPath, res.extracted);
      WriteAllStep(fs.files, jobs, i, created);
      if res.extracted.Failure? {
        return Failure(res.extracted.error);
      }
      fs.WriteFile(outputPath, res.extracted.value);
      created := created + [outputPath];
      i := i + 1;
    }
    assert jobs[i..] == [] && created + [] == created;
    return Success(created);
  }
}
