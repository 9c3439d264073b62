/**
 * Custom-content references of tray items (s4lt/tray/cc_tracker.py): a
 * sliding 16-byte window over the item's binary files picks out
 * type/group/instance keys of CC resource types, each key is classified as
 * EA content, a mod's resource or missing, and the classifications are counted.
 */
module CcTracker {
  import opened Bytes
  import opened Wrappers
  import opened Text
  import opened Paths
  import opened Dicts

  datatype TGI = TGI(typeId: nat, groupId: nat, instanceId: nat)

  /** The resource types whose keys count as custom content. */
  const CC_RESOURCE_TYPES: set<nat> := {0x034AEECB, 0x319E4F1D, 0x00B2D882, 0xC0DB5AE7, 0x025ED6F4, 0x545AC67A}

  /** The suffixes of the tray files that are scanned, compared in lower case. */
  const BINARY_EXTENSIONS: set<string> := {".householdbinary", ".blueprint", ".room"}

  // ------------------------------------------------------------ extract_tgis_from_binary

  /** The window at offset o: u32 type, u32 group, u64 instance. */
  function TgiAt(data: seq<byte>, o: nat): TGI
    requires o + 16 <= |data|
  {
    TGI(U32At(data, o), U32At(data, o + 4), U64At(data, o + 8))
  }

  /** The window at o fits in the data and holds a CC type with a nonzero instance. */
  predicate Kept(data: seq<byte>, o: nat)
  {
    o + 16 <= |data| && U32At(data, o) in CC_RESOURCE_TYPES && U64At(data, o + 8) > 0
  }

  /** The keys the scan appends at offsets below n, in offset order. */
  function Hits(data: seq<byte>, n: nat): (r: seq<TGI>)
  {
    if n == 0 then []
    else Hits(data, n - 1) + (if Kept(data, n - 1) then [TgiAt(data, n - 1)] else [])
  }

  /** A key is found below n iff some window below n is kept and holds it. */
  lemma {:induction false} HitsIff(data: seq<byte>, n: nat, t: TGI)
    ensures t in Hits(data, n) <==> exists o :: 0 <= o < n && Kept(data, o) && TgiAt(data, o) == t
  {
    if n > 0 {
      HitsIff(data, n - 1, t);
      if t in Hits(data, n) && t !in Hits(data, n - 1) {
        assert Kept(data, n - 1) && TgiAt(data, n - 1) == t;
      }
    }
  }

  /** No window starts past the last full one. */
  lemma {:induction false} HitsSaturate(data: seq<byte>, n: nat)
    requires n + 15 >= |data|
    ensures Hits(data, n) == Hits(data, if |data| >= 15 then |data| - 15 else 0)
    decreases n
  {
    var m := if |data| >= 15 then |data| - 15 else 0;
    if n > m {
      HitsSaturate(data, n - 1);
      assert !Kept(data, n - 1);
    }
  }

  /** Every key of the scan of the whole data. */
  function ScanAll(data: seq<byte>): seq<TGI>
  {
    Hits(data, if |data| >= 15 then |data| - 15 else 0)
  }

  /** The scan loop: offsets 0, 1, ... while a full window fits, appending kept keys. */
  method Scan(data: seq<byte>) returns (tgis: seq<TGI>)
    ensures tgis == ScanAll(data)
  {
    tgis := [];
    var offset := 0;
    while offset + 16 <= |data|
      invariant offset <= |data| && (offset > 0 ==> offset + 15 <= |data|)
      invariant tgis == Hits(data, offset)
    {
      var typeId := LE(data[offset..offset + 4]);
      var groupId := LE(data[offset + 4..offset + 8]);
      var instanceId := LE(data[offset + 8..offset + 16]);
      if typeId in CC_RESOURCE_TYPES && instanceId > 0 {
        tgis := tgis + [TGI(typeId, groupId, instanceId)];
      }
      offset := offset + 1;
    }
    HitsSaturate(data, offset);
  }

  /**
   * extract_tgis_from_binary, given the file's contents or None when it
   * cannot be read: the distinct keys of every kept window, in no promised order.
   */
  method ExtractTgisFromBinary(file: Option<seq<byte>>) returns (r: seq<TGI>)
    ensures file.None? ==> r == []
    ensures file.Some? ==> r == Dedup(ScanAll(file.value))
  {
    if file.None? {
      return [];
    }
    var tgis := Scan(file.value);
    r := Dedup(tgis);
  }

  /**
   * What ExtractTgisFromBinary returns: no key twice, and a key is there iff
   * some 16-byte window at an offset o with o + 16 <= len holds it with a CC
   * type and a nonzero instance.
   */
  lemma ExtractedIff(data: seq<byte>, t: TGI)
    ensures Distinct(Dedup(ScanAll(data)))
    ensures t in Dedup(ScanAll(data)) <==> exists o :: 0 <= o && o + 16 <= |data| && Kept(data, o) && TgiAt(data, o) == t
  {
    HitsIff(data, if |data| >= 15 then |data| - 15 else 0, t);
  }

  // ------------------------------------------------------------ extract_tgis_from_tray_item

  /** Whether a file of the item is scanned: its suffix, lower-cased, is one of exts. */
  predicate Scanned(path: string, exts: set<string>)
  {
    Lower(Suffix(Name(path))) in exts
  }

  /** The keys extract_tgis_from_tray_item takes from one file: none unless it is scanned and readable. */
  function FileTgis(f: (string, Option<seq<byte>>), exts: set<string>): seq<TGI>
  {
    if Scanned(f.0, exts) && f.1.Some? then Dedup(ScanAll(f.1.value)) else []
  }

  /** The keys of each file, in file order. */
  function PerFile(files: seq<(string, Option<seq<byte>>)>, exts: set<string>): seq<seq<TGI>>
  {
    seq(|files|, i requires 0 <= i < |files| => FileTgis(files[i], exts))
  }

  /**
   * extract_tgis_from_tray_item over the item's files, each given with its
   * contents or None when it cannot be read.
   */
  method ExtractTgisFromTrayItem(files: seq<(string, Option<seq<byte>>)>) returns (r: seq<TGI>)
    ensures r == Dedup(Flatten(PerFile(files, BINARY_EXTENSIONS)))
  {
    var exts := BINARY_EXTENSIONS;
    ghost var found := PerFile(files, exts);
    var allTgis: seq<TGI> := [];
    var i := 0;
    while i < |files|
      invariant i <= |files| && allTgis == Flatten(found[..i])
    {
      FlattenStep(found, i);
      var path := files[i].0;
      if Lower(Suffix(Name(path))) in exts {
        var tgis := ExtractTgisFromBinary(files[i].1);
        allTgis := allTgis + tgis;
      } else {
        assert found[i] == [];
        assert allTgis + found[i] == allTgis;
      }
      i := i + 1;
    }
    assert found[..i] == found;
    r := Dedup(allTgis);
  }

  /**
   * The item's keys: no key twice, and a key is there iff the window scan
   * of some readable file with a scanned suffix finds it.
   */
  lemma TrayItemTgisIff(files: seq<(string, Option<seq<byte>>)>, t: TGI)
    ensures Distinct(Dedup(Flatten(PerFile(files, BINARY_EXTENSIONS))))
    ensures t in Dedup(Flatten(PerFile(files, BINARY_EXTENSIONS))) <==>
      exists i :: 0 <= i < |files| && Scanned(files[i].0, BINARY_EXTENSIONS) && files[i].1.Some? && t in ScanAll(files[i].1.value)
  {
    var found := PerFile(files, BINARY_EXTENSIONS);
    FlattenIff(found, t);
    forall i | 0 <= i < |files|
      ensures t in found[i] <==> Scanned(files[i].0, BINARY_EXTENSIONS) && files[i].1.Some? && t in ScanAll(files[i].1.value)
    {
    }
  }

  // ------------------------------------------------------------ classify_tgis

  datatype Source = Ea | Mod | Missing

  /** A classified key; a mod reference carries the mod's path and file name column. */
  datatype CCReference = CCReference(tgi: TGI, source: Source, modPath: Option<string>, modName: Option<string>)

  /**
   * The two database lookups by instance id: whether the EA index has it,
   * and the first (path, filename) row of a mod resource with it.
   */
  datatype Lookups = Lookups(ea: nat -> bool, mods: nat -> Option<(string, Option<string>)>)

  /** The reference classify_tgis makes of one key: EA wins, then a mod, else missing. */
  function Classify(t: TGI, db: Lookups): (r: CCReference)
    ensures r.tgi == t
    ensures r.source == Ea <==> db.ea(t.instanceId)
    ensures r.source == Mod <==> !db.ea(t.instanceId) && db.mods(t.instanceId).Some?
    ensures r.source == Mod ==> r.modPath == Some(db.mods(t.instanceId).value.0) && r.modName == db.mods(t.instanceId).value.1
    ensures r.source != Mod ==> r.modPath.None? && r.modName.None?
  {
    if db.ea(t.instanceId) then CCReference(t, Ea, None, None)
    else match db.mods(t.instanceId)
      case Some((path, name)) => CCReference(t, Mod, Some(path), name)
      case None => CCReference(t, Missing, None, None)
  }

  /** classify_tgis: one reference per key, in order. */
  method ClassifyTgis(tgis: seq<TGI>, db: Lookups) returns (results: seq<CCReference>)
    ensures |results| == |tgis|
    ensures forall i :: 0 <= i < |tgis| ==> results[i] == Classify(tgis[i], db)
  {
    results := [];
    for i := 0 to |tgis|
      invariant |results| == i
      invariant forall j :: 0 <= j < i ==> results[j] == Classify(tgis[j], db)
    {
      var tgi := tgis[i];
      if db.ea(tgi.instanceId) {
        results := results + [CCReference(tgi, Ea, None, None)];
        continue;
      }
      var row := db.mods(tgi.instanceId);
      if row.Some? {
        results := results + [CCReference(tgi, Mod, Some(row.value.0), row.value.1)];
        continue;
      }
      results := results + [CCReference(tgi, Missing, None, None)];
    }
  }

  // ------------------------------------------------------------ get_cc_summary

  /** The counts get_cc_summary returns; modNames is the key order of the mods dict. */
  datatype Summary = Summary(modNames: seq<string>, mods: map<string, nat>, missingCount: nat, eaCount: nat, total: nat)

  /** ref.mod_name or "Unknown": a missing or empty name counts as "Unknown". */
  function ModLabel(name: Option<string>): string
  {
    if name.None? || name.value == "" then "Unknown" else name.value
  }

  /** One (name, ref) pair per mod reference, in order: what the mods dict counts. */
  function ModPairs(refs: seq<CCReference>): (r: seq<(string, CCReference)>)
  {
    if refs == [] then []
    else
      var init, x := refs[..|refs| - 1], refs[|refs| - 1];
      ModPairs(init) + (if x.source == Mod then [(ModLabel(x.modName), x)] else [])
  }

  /** How many references have the given source. */
  function CountOf(refs: seq<CCReference>, s: Source): (n: nat)
    ensures n <= |refs|
  {
    if refs == [] then 0 else CountOf(refs[..|refs| - 1], s) + (if refs[|refs| - 1].source == s then 1 else 0)
  }

  /** The summary of a list of references: each mod name with how many references name it. */
  ghost predicate Summarizes(s: Summary, refs: seq<CCReference>)
  {
    Counted(s.modNames, s.mods, ModPairs(refs)) &&
    s.eaCount == CountOf(refs, Ea) && s.missingCount == CountOf(refs, Missing) && s.total == |refs|
  }

  lemma ModPairsSnoc(done: seq<CCReference>, ref: CCReference)
    ensures ref.source == Mod ==> ModPairs(done + [ref]) == ModPairs(done) + [(ModLabel(ref.modName), ref)]
    ensures ref.source != Mod ==> ModPairs(done + [ref]) == ModPairs(done)
    ensures CountOf(done + [ref], Ea) == CountOf(done, Ea) + (if ref.source == Ea then 1 else 0)
    ensures CountOf(done + [ref], Missing) == CountOf(done, Missing) + (if ref.source == Missing then 1 else 0)
  {
    assert (done + [ref])[..|done|] == done;
  }

  /** One more reference: counted under its source, or, for a mod, under its name. */
  method Count(s: Summary, ghost done: seq<CCReference>, ref: CCReference) returns (s': Summary)
    requires Summarizes(s, done)
    ensures Summarizes(s', done + [ref])
  {
    ModPairsSnoc(done, ref);
    var names, mods := CountMod(s.modNames, s.mods, done, ref);
    s' := Summary(names, mods,
                  s.missingCount + (if ref.source == Missing then 1 else 0),
                  s.eaCount + (if ref.source == Ea then 1 else 0),
                  s.total + 1);
  }

  /** mods[name] = mods.get(name, 0) + 1 for a mod reference; nothing for the others. */
  method CountMod(names: seq<string>, mods: map<string, nat>, ghost done: seq<CCReference>, ref: CCReference)
    returns (names': seq<string>, mods': map<string, nat>)
    requires Counted(names, mods, ModPairs(done))
    ensures Counted(names', mods', ModPairs(done + [ref]))
  {
    ModPairsSnoc(done, ref);
    if ref.source == Mod {
      var name := ModLabel(ref.modName);
      CountedStep(names, mods, ModPairs(done), (name, ref));
      names', mods' := CountKeys(names, mods, name), CountBump(mods, name);
    } else {
      names', mods' := names, mods;
    }
  }

  /** The counting loop of get_cc_summary. */
  method Summarize(refs: seq<CCReference>) returns (s: Summary)
    ensures Summarizes(s, refs)
  {
    s := Summary([], map[], 0, 0, 0);
    for i := 0 to |refs|
      invariant Summarizes(s, refs[..i])
    {
      assert refs[..i + 1] == refs[..i] + [refs[i]];
      s := Count(s, refs[..i], refs[i]);
    }
    assert refs[..|refs|] == refs;
  }

  /** The counts add up: EA, missing and the per-mod counts together are every reference. */
  lemma SummaryAddsUp(s: Summary, refs: seq<CCReference>)
    requires Summarizes(s, refs)
    ensures s.eaCount + s.missingCount + SumOf(s.modNames, s.mods) == s.total == |refs|
  {
    CountedSum(s.modNames, s.mods, ModPairs(refs));
    SourcesPartition(refs);
  }

  /** Every reference is EA, missing, or one of the mod pairs. */
  lemma {:induction false} SourcesPartition(refs: seq<CCReference>)
    ensures CountOf(refs, Ea) + CountOf(refs, Missing) + |ModPairs(refs)| == |refs|
  {
    if refs != [] {
      SourcesPartition(refs[..|refs| - 1]);
    }
  }

  /** get_cc_summary of a tray item: extract its keys, classify them, count them. */
  method GetCcSummary(files: seq<(string, Option<seq<byte>>)>, db: Lookups) returns (s: Summary)
    ensures var tgis := Dedup(Flatten(PerFile(files, BINARY_EXTENSIONS)));
      s.total == |tgis| &&
      exists refs :: |refs| == |tgis| && (forall i :: 0 <= i < |tgis| ==> refs[i] == Classify(tgis[i], db)) && Summarizes(s, refs)
  {
    var tgis := ExtractTgisFromTrayItem(files);
    var refs := ClassifyTgis(tgis, db);
    s := Summarize(refs);
  }
}
