/**
 * categorize_package of s4lt/core/categorizer.py: the resources of a
 * package are counted by type, and the category is the kind of content
 * (CAS, Build/Buy, tuning) with the most resources, ties going to the
 * earlier kind; a fixed precedence chain per kind picks the subcategory.
 */
module Categorizer {
  import opened Wrappers
  import opened Exceptions
  import opened Text
  import opened Paths
  import opened Dicts
  import opened Index
  import opened Types

  const CAS_TYPES: set<nat> := {
    0x034AEECB, 0x0354796A, 0x9D1AB874, 0x105205BA, 0x71BDB8A2, 0xEAA32ADD, 0xC5F6763E, 0x0355E0A6,
    0x015A1849, 0x067CAA11, 0xAC16FBEC, 0xA7815676, 0x9D7E7558, 0x26AF8338, 0xC4DFAE6D}

  const BUILDBUY_TYPES: set<nat> := {
    0xC0DB5AE7, 0x319E4F1D, 0xB91E18DB, 0xA0451CBD, 0x9917EACD,
    0x07936CE0, 0x1D6DF1CF, 0x13CF0ED2, 0x0418FE2A, 0xB4F762C9, 0x84C23219, 0x2FAE983E, 0xE7ADA79D,
    0xA057811C, 0x9151E6BC, 0x5003333C, 0xA5DFFCF3, 0x1C1CF1F7, 0x91EDBD3E, 0xF1EDBD86, 0xB0311D0F,
    0x9A20CD1C, 0xEBCBB16C, 0x1427C109, 0x76BCF80C, 0xD5F0F921, 0xFE33068E, 0xA8F7B517}

  const TUNING_TYPES: set<nat> := {
    0x0333406C, 0x025ED6F4, 0x545AC67A, 0x62ECC59A, 0xB61DE6B4, 0xE231B3D8, 0x6017E896, 0xCB5FDDC7,
    0xE882D22F, 0x0C772E27}

  const THUMBNAIL_TYPES: set<nat> := {0x3C1AF1F2, 0x3C2A8647, 0x5B282D45, 0xCD9DE247, 0x9C925813, 0x8E71065D, 0xB67673A2}

  const SCRIPT_SUFFIX: string := ".ts4script"

  /**
   * PackageCategory; resourceNames is the key order of the resource_counts
   * dict, which follows the order in which the types first occur.
   */
  datatype PackageCategory = PackageCategory(
    category: string,
    subcategory: string,
    resourceNames: seq<string>,
    resourceCounts: map<string, nat>,
    instanceIds: seq<nat>,
    hasThumbnail: bool,
    totalResources: nat)

  /** What a .ts4script file is given, without being opened. */
  const SCRIPT_CATEGORY: PackageCategory :=
    PackageCategory("script", "script_mod", ["Script"], map["Script" := 1], [], false, 1)

  // ------------------------------------------------------------ counting by type

  /** One (type id, entry) pair per resource, in order: what the type_counts dict counts. */
  function TypePairs(es: seq<IndexEntry>): seq<(nat, IndexEntry)>
  {
    seq(|es|, i requires 0 <= i < |es| => (es[i].typeId, es[i]))
  }

  /** type_counts.get(t, 0). */
  function Get(tc: map<nat, nat>, t: nat): nat
  {
    if t in tc then tc[t] else 0
  }

  /** How many resources have a type in ts. */
  function CountIn(es: seq<IndexEntry>, ts: set<nat>): (n: nat)
    ensures n <= |es|
  {
    if es == [] then 0 else CountIn(es[..|es| - 1], ts) + (if es[|es| - 1].typeId in ts then 1 else 0)
  }

  /** The instance ids of the resources, in order. */
  function InstanceIds(es: seq<IndexEntry>): seq<nat>
  {
    seq(|es|, i requires 0 <= i < |es| => es[i].instanceId)
  }

  /** The type_counts dict as a map. */
  function TypeCounts(es: seq<IndexEntry>): (tc: map<nat, nat>)
    ensures forall t :: t in tc <==> t in KeysOf(TypePairs(es))
  {
    var xs := TypePairs(es);
    map t | t in KeysOf(xs) :: |ValuesOf(xs, t)|
  }

  lemma TypePairsInit(es: seq<IndexEntry>)
    requires es != []
    ensures TypePairs(es) == TypePairs(es[..|es| - 1]) + [(es[|es| - 1].typeId, es[|es| - 1])]
  {
  }

  /** The count of one type is the number of resources of that type. */
  lemma {:induction false} GroupIsCount(es: seq<IndexEntry>, t: nat)
    ensures |ValuesOf(TypePairs(es), t)| == CountIn(es, {t})
  {
    if es != [] {
      var init := es[..|es| - 1];
      TypePairsInit(es);
      GroupIsCount(init, t);
      ValuesOfSnoc(TypePairs(init), (es[|es| - 1].typeId, es[|es| - 1]), t);
    }
  }

  /** Counting over a set with one more type adds that type's resources. */
  lemma {:induction false} CountInAdd(es: seq<IndexEntry>, ts: set<nat>, t: nat)
    requires t !in ts
    ensures CountIn(es, ts + {t}) == CountIn(es, ts) + CountIn(es, {t})
  {
    if es != [] {
      CountInAdd(es[..|es| - 1], ts, t);
    }
  }

  /** Get is the number of resources of the type, also for a type not in the dict. */
  lemma CountedGet(keys: seq<nat>, tc: map<nat, nat>, es: seq<IndexEntry>, t: nat)
    requires Counted(keys, tc, TypePairs(es))
    ensures Get(tc, t) == CountIn(es, {t})
  {
    GroupIsCount(es, t);
  }

  /** keys, tc, ids and thumb are what the loop over pkg.resources holds after the resources es. */
  ghost predicate Tallied(es: seq<IndexEntry>, keys: seq<nat>, tc: map<nat, nat>, ids: seq<nat>, thumb: bool)
  {
    Counted(keys, tc, TypePairs(es)) &&
    ids == InstanceIds(es) &&
    (thumb <==> exists i :: 0 <= i < |es| && es[i].typeId in THUMBNAIL_TYPES)
  }

  /** One iteration of the loop: count the type, record the instance, note a thumbnail. */
  method CountOne(ghost done: seq<IndexEntry>, keys: seq<nat>, tc: map<nat, nat>, ids: seq<nat>, thumb: bool, e: IndexEntry)
    returns (keys': seq<nat>, tc': map<nat, nat>, ids': seq<nat>, thumb': bool)
    requires Tallied(done, keys, tc, ids, thumb)
    ensures Tallied(done + [e], keys', tc', ids', thumb')
  {
    var typeId := e.typeId;
    SnocFacts(done, e);
    CountedStep(keys, tc, TypePairs(done), (typeId, e));
    keys', tc' := CountKeys(keys, tc, typeId), CountBump(tc, typeId);
    ids' := ids + [e.instanceId];
    thumb' := thumb || typeId in THUMBNAIL_TYPES;
  }

  lemma SnocFacts(done: seq<IndexEntry>, e: IndexEntry)
    ensures TypePairs(done + [e]) == TypePairs(done) + [(e.typeId, e)]
    ensures InstanceIds(done + [e]) == InstanceIds(done) + [e.instanceId]
    ensures (exists i :: 0 <= i < |done| + 1 && (done + [e])[i].typeId in THUMBNAIL_TYPES) <==>
      (exists i :: 0 <= i < |done| && done[i].typeId in THUMBNAIL_TYPES) || e.typeId in THUMBNAIL_TYPES
  {
    var es := done + [e];
    assert forall i :: 0 <= i < |done| ==> es[i] == done[i];
    assert es[|done|] == e;
  }

  /** The loop over pkg.resources: type_counts, instance_ids and has_thumbnail. */
  method CountTypes(es: seq<IndexEntry>) returns (keys: seq<nat>, tc: map<nat, nat>, ids: seq<nat>, thumb: bool)
    ensures Tallied(es, keys, tc, ids, thumb)
  {
    keys, tc, ids, thumb := [], map[], [], false;
    for i := 0 to |es|
      invariant Tallied(es[..i], keys, tc, ids, thumb)
    {
      assert es[..i + 1] == es[..i] + [es[i]];
      keys, tc, ids, thumb := CountOne(es[..i], keys, tc, ids, thumb, es[i]);
    }
    assert es[..|es|] == es;
  }

  lemma {:induction false} CountInEmpty(es: seq<IndexEntry>)
    ensures CountIn(es, {}) == 0
  {
    if es != [] {
      CountInEmpty(es[..|es| - 1]);
    }
  }

  /** sum(type_counts.get(t, 0) for t in ts), over the set in whatever order it is iterated. */
  method SumCounts(ts: set<nat>, tc: map<nat, nat>, ghost keys: seq<nat>, ghost es: seq<IndexEntry>) returns (n: nat)
    requires Counted(keys, tc, TypePairs(es))
    ensures n == CountIn(es, ts)
  {
    var todo := ts;
    n := 0;
    assert ts - todo == {};
    CountInEmpty(es);
    while todo != {}
      invariant todo <= ts
      invariant n == CountIn(es, ts - todo)
      decreases |todo|
    {
      var t :| t in todo;
      CountedGet(keys, tc, es, t);
      CountInAdd(es, ts - todo, t);
      assert (ts - todo) + {t} == ts - (todo - {t});
      n := n + Get(tc, t);
      todo := todo - {t};
    }
    assert ts - todo == ts;
  }

  // ------------------------------------------------------------ the category

  /**
   * The decision chain, "mixed" branch included: the kind with the most
   * resources, ties favouring CAS, then Build/Buy. The "mixed" branch is
   * never taken, because a positive CAS or Build/Buy count is caught by
   * one of the branches before it.
   */
  function Category(cas: nat, buildbuy: nat, tuning: nat): (r: string)
    ensures r == "cas" <==> cas > 0 && cas >= buildbuy && cas >= tuning
    ensures r == "buildbuy" <==> buildbuy > 0 && buildbuy > cas && buildbuy >= tuning
    ensures r == "tuning" <==> tuning > 0 && tuning > cas && tuning > buildbuy
    ensures r == "other" <==> cas == 0 && buildbuy == 0 && tuning == 0
    ensures r != "mixed"
  {
    if cas > 0 && cas >= buildbuy && cas >= tuning then "cas"
    else if buildbuy > 0 && buildbuy >= tuning then "buildbuy"
    else if tuning > 0 then "tuning"
    else if cas > 0 || buildbuy > 0 then "mixed"
    else "other"
  }

  /** One step of a subcategory chain: its name if any of its types has a resource. */
  datatype Rule = Rule(types: seq<nat>, name: string)

  predicate Fires(tc: map<nat, nat>, rule: Rule)
  {
    exists i :: 0 <= i < |rule.types| && Get(tc, rule.types[i]) > 0
  }

  /** The name of the first rule that fires, or the fallback when none does. */
  function FirstRule(rules: seq<Rule>, tc: map<nat, nat>, fallback: string): (r: string)
    ensures (exists i :: 0 <= i < |rules| && Fires(tc, rules[i]) && r == rules[i].name &&
               forall j :: 0 <= j < i ==> !Fires(tc, rules[j])) ||
            (r == fallback && forall j :: 0 <= j < |rules| ==> !Fires(tc, rules[j]))
  {
    if rules == [] then fallback
    else if Fires(tc, rules[0]) then rules[0].name
    else
      var r := FirstRule(rules[1..], tc, fallback);
      assert forall j :: 0 < j < |rules| ==> rules[j] == rules[1..][j - 1];
      r
  }

  const CAS_RULES: seq<Rule> := [
    Rule([0x034AEECB], "cas_part"), Rule([0x0354796A], "skintone"), Rule([0x9D1AB874], "sculpt"),
    Rule([0x105205BA], "preset"), Rule([0xC5F6763E], "slider"), Rule([0xC4DFAE6D], "pet_coat")]

  const BUILDBUY_RULES: seq<Rule> := [
    Rule([0xFE33068E], "wall"), Rule([0xB4F762C9], "floor"), Rule([0x91EDBD3E, 0xF1EDBD86], "roof"),
    Rule([0x0418FE2A], "fence"), Rule([0xEBCBB16C], "stairs"), Rule([0xA8F7B517], "window"),
    Rule([0xC0DB5AE7, 0x319E4F1D], "object")]

  const TUNING_RULES: seq<Rule> := [
    Rule([0x6017E896], "buff"), Rule([0xCB5FDDC7], "trait"), Rule([0xE882D22F], "interaction"),
    Rule([0x0C772E27], "loot")]

  /** The subcategory the category's chain picks; the other categories have fixed ones. */
  function Subcategory(category: string, tc: map<nat, nat>): string
  {
    if category == "cas" then FirstRule(CAS_RULES, tc, "cas_other")
    else if category == "buildbuy" then FirstRule(BUILDBUY_RULES, tc, "buildbuy_other")
    else if category == "tuning" then FirstRule(TUNING_RULES, tc, "tuning_other")
    else if category == "mixed" then "mixed_content"
    else "unknown"
  }

  // ------------------------------------------------------------ resource_counts

  /** The names of the given type ids, in order. */
  function NamesOf(keys: seq<nat>): seq<string>
  {
    seq(|keys|, i requires 0 <= i < |keys| => GetTypeName(keys[i]))
  }

  lemma TypeNamesDiffer(a: nat, b: nat)
    ensures a != b ==> GetTypeName(a) != GetTypeName(b)
  {
    if GetTypeName(a) == GetTypeName(b) {
      TypeNameInjective(a, b);
    }
  }

  /** resource_counts holds, under each type's name, that type's count. */
  ghost predicate NamedCounts(keys: seq<nat>, tc: map<nat, nat>, names: seq<string>, rc: map<string, nat>)
  {
    names == NamesOf(keys) &&
    (forall n :: n in rc <==> n in names) &&
    (forall i :: 0 <= i < |keys| ==> keys[i] in tc && rc[names[i]] == tc[keys[i]])
  }

  /** The loop over type_counts.items() that fills resource_counts. */
  method NameCounts(keys: seq<nat>, tc: map<nat, nat>) returns (names: seq<string>, rc: map<string, nat>)
    requires Distinct(keys) && forall k :: k in keys ==> k in tc
    ensures NamedCounts(keys, tc, names, rc)
  {
    names, rc := [], map[];
    for i := 0 to |keys|
      invariant NamedCounts(keys[..i], tc, names, rc)
    {
      var typeId := keys[i];
      var name := GetTypeName(typeId);
      forall j | 0 <= j < i ensures names[j] != name {
        TypeNamesDiffer(keys[j], typeId);
      }
      assert keys[..i + 1] == keys[..i] + [typeId];
      names := names + [name];
      rc := rc[name := tc[typeId]];
    }
    assert keys[..|keys|] == keys;
  }

  /** The counts under resource_counts add up over its names. */
  lemma {:induction false} NamedSum(keys: seq<nat>, tc: map<nat, nat>, names: seq<string>, rc: map<string, nat>)
    requires |names| == |keys|
    requires forall i :: 0 <= i < |keys| ==> keys[i] in tc && names[i] in rc && rc[names[i]] == tc[keys[i]]
    ensures SumOf(names, rc) == SumOf(keys, tc)
  {
    if keys != [] {
      var n := |keys| - 1;
      NamedSum(keys[..n], tc, names[..n], rc);
    }
  }

  // ------------------------------------------------------------ categorize_package

  /** What categorize_package returns for the resources of an opened package. */
  ghost predicate Describes(es: seq<IndexEntry>, c: PackageCategory)
  {
    var xs := TypePairs(es);
    var keys := KeysOf(xs);
    c.totalResources == |es| &&
    c.instanceIds == InstanceIds(es) &&
    (c.hasThumbnail <==> exists i :: 0 <= i < |es| && es[i].typeId in THUMBNAIL_TYPES) &&
    NamedCounts(keys, TypeCounts(es), c.resourceNames, c.resourceCounts) &&
    c.category == Category(CountIn(es, CAS_TYPES), CountIn(es, BUILDBUY_TYPES), CountIn(es, TUNING_TYPES)) &&
    c.subcategory == Subcategory(c.category, TypeCounts(es))
  }

  lemma CountedIsTypeCounts(keys: seq<nat>, tc: map<nat, nat>, es: seq<IndexEntry>)
    requires Counted(keys, tc, TypePairs(es))
    ensures tc == TypeCounts(es) && keys == KeysOf(TypePairs(es))
  {
  }

  /**
   * categorize_package, given the outcome of Package.open on the path: a
   * .ts4script file is never opened; a package that does not open gives
   * None.
   */
  method CategorizePackage(path: string, outcome: Result<seq<IndexEntry>, Error>) returns (r: Option<PackageCategory>)
    ensures Lower(Suffix(Name(path))) == SCRIPT_SUFFIX ==> r == Some(SCRIPT_CATEGORY)
    ensures Lower(Suffix(Name(path))) != SCRIPT_SUFFIX ==> (r.Some? <==> outcome.Success?)
    ensures Lower(Suffix(Name(path))) != SCRIPT_SUFFIX && r.Some? ==> Describes(outcome.value, r.value)
  {
    if Lower(Suffix(Name(path))) == SCRIPT_SUFFIX {
      return Some(SCRIPT_CATEGORY);
    }
    if outcome.Failure? {
      return None;
    }
    var es := outcome.value;
    var keys, tc, ids, thumb := CountTypes(es);
    CountedIsTypeCounts(keys, tc, es);
    var names, rc := NameCounts(keys, tc);
    var cas := SumCounts(CAS_TYPES, tc, keys, es);
    var buildbuy := SumCounts(BUILDBUY_TYPES, tc, keys, es);
    var tuning := SumCounts(TUNING_TYPES, tc, keys, es);
    var category := Category(cas, buildbuy, tuning);
    var subcategory := Subcategory(category, tc);
    r := Some(PackageCategory(category, subcategory, names, rc, ids, thumb, |es|));
  }

  // ------------------------------------------------------------ properties

  /** total_resources is the sum of resource_counts over its names. */
  lemma TotalIsSumOfCounts(es: seq<IndexEntry>, c: PackageCategory)
    requires Describes(es, c)
    ensures SumOf(c.resourceNames, c.resourceCounts) == c.totalResources
  {
    var xs := TypePairs(es);
    var keys := KeysOf(xs);
    var tc := TypeCounts(es);
    assert Counted(keys, tc, xs);
    CountedSum(keys, tc, xs);
    NamedSum(keys, tc, c.resourceNames, c.resourceCounts);
  }

  /** Each name in resource_counts appears once and holds the number of resources of its type. */
  lemma ResourceCountsAreCounts(es: seq<IndexEntry>, c: PackageCategory, i: nat)
    requires Describes(es, c) && i < |c.resourceNames|
    ensures Distinct(c.resourceNames)
    ensures c.resourceCounts[c.resourceNames[i]] == CountIn(es, {KeysOf(TypePairs(es))[i]})
  {
    var keys := KeysOf(TypePairs(es));
    forall a, b | 0 <= a < b < |keys| ensures c.resourceNames[a] != c.resourceNames[b] {
      TypeNamesDiffer(keys[a], keys[b]);
    }
    GroupIsCount(es, keys[i]);
  }
  // ------------------------------------------------------------ display names

  const CATEGORY_NAMES: map<string, string> := map[
    "cas" := "CAS CC", "buildbuy" := "Build/Buy", "tuning" := "Tuning Mod", "script" := "Script Mod",
    "mixed" := "Mixed Content", "other" := "Other"]

  const SUBCATEGORY_NAMES: map<string, string> := map[
    "cas_part" := "CAS Part", "skintone" := "Skintone", "sculpt" := "Sculpt", "preset" := "Preset",
    "slider" := "Slider", "pet_coat" := "Pet Coat", "cas_other" := "Other CAS",
    "wall" := "Wall", "floor" := "Floor", "roof" := "Roof", "fence" := "Fence", "stairs" := "Stairs",
    "window" := "Window", "object" := "Object", "buildbuy_other" := "Other Build/Buy",
    "buff" := "Buff", "trait" := "Trait", "interaction" := "Interaction", "loot" := "Loot",
    "tuning_other" := "Other Tuning", "script_mod" := "Script Mod", "mixed_content" := "Mixed",
    "unknown" := "Unknown"]

  /** get_category_display_name: the table entry, or the category title-cased. */
  function CategoryDisplayName(category: string): (r: string)
    ensures category in CATEGORY_NAMES ==> r == CATEGORY_NAMES[category]
    ensures category !in CATEGORY_NAMES ==> r == Title(category) && |r| == |category|
  {
    if category in CATEGORY_NAMES then CATEGORY_NAMES[category] else Title(category)
  }

  /** get_subcategory_display_name: the table entry, or the subcategory with '_' as ' ', title-cased. */
  function SubcategoryDisplayName(subcategory: string): (r: string)
    ensures subcategory in SUBCATEGORY_NAMES ==> r == SUBCATEGORY_NAMES[subcategory]
    ensures subcategory !in SUBCATEGORY_NAMES ==>
      r == Title(ReplaceChar(subcategory, '_', ' ')) && |r| == |subcategory| &&
      forall i :: 0 <= i < |r| ==> r[i] != '_' && (subcategory[i] in "_ " <==> r[i] == ' ')
  {
    if subcategory in SUBCATEGORY_NAMES then SUBCATEGORY_NAMES[subcategory]
    else
      var spaced := ReplaceChar(subcategory, '_', ' ');
      var r := Title(spaced);
      assert forall i :: 0 <= i < |r| ==> r[i] != '_' && (subcategory[i] in "_ " <==> r[i] == ' ') by {
        forall i | 0 <= i < |r| ensures r[i] != '_' && (subcategory[i] in "_ " <==> r[i] == ' ') {
          assert spaced[i] != '_';
        }
      }
      r
  }

  /** Each chain ends in a name of the table: its rules' names or its fallback. */
  lemma ChainNamesKnown(rules: seq<Rule>, tc: map<nat, nat>, fallback: string)
    requires fallback in SUBCATEGORY_NAMES
    requires forall i :: 0 <= i < |rules| ==> rules[i].name in SUBCATEGORY_NAMES
    ensures FirstRule(rules, tc, fallback) in SUBCATEGORY_NAMES
  {
  }

  lemma CasNamesKnown(tc: map<nat, nat>)
    ensures FirstRule(CAS_RULES, tc, "cas_other") in SUBCATEGORY_NAMES
  {
    assert forall i :: 0 <= i < |CAS_RULES| ==> CAS_RULES[i].name in SUBCATEGORY_NAMES;
    ChainNamesKnown(CAS_RULES, tc, "cas_other");
  }

  lemma BuildBuyNamesKnown(tc: map<nat, nat>)
    ensures FirstRule(BUILDBUY_RULES, tc, "buildbuy_other") in SUBCATEGORY_NAMES
  {
    assert forall i :: 0 <= i < |BUILDBUY_RULES| ==> BUILDBUY_RULES[i].name in SUBCATEGORY_NAMES;
    ChainNamesKnown(BUILDBUY_RULES, tc, "buildbuy_other");
  }

  lemma TuningNamesKnown(tc: map<nat, nat>)
    ensures FirstRule(TUNING_RULES, tc, "tuning_other") in SUBCATEGORY_NAMES
  {
    assert forall i :: 0 <= i < |TUNING_RULES| ==> TUNING_RULES[i].name in SUBCATEGORY_NAMES;
    ChainNamesKnown(TUNING_RULES, tc, "tuning_other");
  }

  /**
   * Every category and subcategory categorize_package gives has an entry
   * in the display tables, so neither display name falls back to title-casing.
   */
  lemma DisplayNamesKnown(cas: nat, buildbuy: nat, tuning: nat, tc: map<nat, nat>)
    ensures var category := Category(cas, buildbuy, tuning);
      category in CATEGORY_NAMES && Subcategory(category, tc) in SUBCATEGORY_NAMES
  {
    var category := Category(cas, buildbuy, tuning);
    if category == "cas" {
      CasNamesKnown(tc);
    } else if category == "buildbuy" {
      BuildBuyNamesKnown(tc);
    } else if category == "tuning" {
      TuningNamesKnown(tc);
    }
  }
}
