/**
 * Conflict clusters between installed mods (s4lt/mods/conflicts.py). The
 * collision query is an input: one row per TGI held by more than one mod,
 * with the paths of those mods. find_conflicts builds the graph "shares a
 * colliding TGI", finds its connected components by depth-first search and
 * reports every component of two or more mods, most severe first.
 */
module ModConflicts {
  import opened Wrappers
  import opened Dicts
  import opened Sorting
  import StrOrder
  import Index

  // ------------------------------------------------------------ severity

  const HIGH_SEVERITY_TYPES: set<string> := {"CASPart", "Geometry", "DDS", "PNG", "DST"}
  const MEDIUM_SEVERITY_TYPES: set<string> := {"Tuning", "SimData", "CombinedTuning"}
  /** Declared by the source and used nowhere: any other type is low as well. */
  const LOW_SEVERITY_TYPES: set<string> := {"StringTable", "Thumbnail", "ThumbnailAlt"}

  /** determine_severity: high if any type is high-severity, else medium if any is medium-severity, else low. */
  function DetermineSeverity(resourceTypes: set<string>): (r: string)
    ensures r == "high" <==> exists t :: t in resourceTypes && t in HIGH_SEVERITY_TYPES
    ensures r == "medium" <==>
      (forall t :: t in resourceTypes ==> t !in HIGH_SEVERITY_TYPES) && exists t :: t in resourceTypes && t in MEDIUM_SEVERITY_TYPES
    ensures r == "low" <==>
      forall t :: t in resourceTypes ==> t !in HIGH_SEVERITY_TYPES && t !in MEDIUM_SEVERITY_TYPES
  {
    var high, medium := resourceTypes * HIGH_SEVERITY_TYPES, resourceTypes * MEDIUM_SEVERITY_TYPES;
    assert forall t :: t in high <==> t in resourceTypes && t in HIGH_SEVERITY_TYPES;
    assert forall t :: t in medium <==> t in resourceTypes && t in MEDIUM_SEVERITY_TYPES;
    if high != {} then
      assert exists t :: t in high;
      "high"
    else if medium != {} then
      assert exists t :: t in medium;
      "medium"
    else
      "low"
  }

  /** The severity_order dict: high 0, medium 1, low 2. */
  function SeverityRank(severity: string): int
  {
    if severity == "high" then 0 else if severity == "medium" then 1 else 2
  }

  /** The severity of a union of type sets is the more severe of the two. */
  lemma SeverityOfUnion(a: set<string>, b: set<string>)
    ensures SeverityRank(DetermineSeverity(a + b)) ==
      if SeverityRank(DetermineSeverity(a)) <= SeverityRank(DetermineSeverity(b))
      then SeverityRank(DetermineSeverity(a)) else SeverityRank(DetermineSeverity(b))
  {
    assert (a + b) * HIGH_SEVERITY_TYPES == a * HIGH_SEVERITY_TYPES + b * HIGH_SEVERITY_TYPES;
    assert (a + b) * MEDIUM_SEVERITY_TYPES == a * MEDIUM_SEVERITY_TYPES + b * MEDIUM_SEVERITY_TYPES;
  }

  /** A set of mods that share colliding resources, with those resources, their type names and the severity. */
  datatype ConflictCluster = ConflictCluster(mods: seq<string>, resources: set<Index.Tgi>, resourceTypes: set<string>,
                                             severity: string)

  // ------------------------------------------------------------ the collision rows

  /** One row of the collision query: the TGI, its type name (NULL as None) and the paths of the mods that hold it. */
  datatype CollisionRow = CollisionRow(typeId: nat, groupId: nat, instanceId: nat, typeName: Option<string>, modPaths: seq<string>)

  /** An entry of mod_tgis: the TGI and the type name, "Unknown" when the name is NULL or empty. */
  type Tagged = (nat, nat, nat, string)

  function TagOf(r: CollisionRow): Tagged
  {
    (r.typeId, r.groupId, r.instanceId, if r.typeName.Some? && r.typeName.value != "" then r.typeName.value else "Unknown")
  }

  /** The TGI part of a mod_tgis entry. */
  function TgiOf(t: Tagged): Index.Tgi
  {
    (t.0, t.1, t.2)
  }

  /** mod_tgis[mod].append(...) for each mod of a row, as (mod, entry) pairs. */
  function RowPairs(r: CollisionRow): (ps: seq<(string, Tagged)>)
    ensures |ps| == |r.modPaths|
    ensures forall j :: 0 <= j < |ps| ==> ps[j] == (r.modPaths[j], TagOf(r))
  {
    seq(|r.modPaths|, j requires 0 <= j < |r.modPaths| => (r.modPaths[j], TagOf(r)))
  }

  /** Every append the row loop makes to mod_tgis, in order. */
  function TgiPairs(rows: seq<CollisionRow>): seq<(string, Tagged)>
  {
    if rows == [] then [] else TgiPairs(rows[..|rows| - 1]) + RowPairs(rows[|rows| - 1])
  }

  /** The other mods of a row. */
  function Others(r: CollisionRow, m: string): set<string>
  {
    set p | p in r.modPaths && p != m
  }

  /** adjacency[m] after the rows: every mod sharing a row with m, m itself discarded. */
  function NeighborsIn(rows: seq<CollisionRow>, m: string): set<string>
  {
    if rows == [] then {}
    else NeighborsIn(rows[..|rows| - 1], m) + (if m in rows[|rows| - 1].modPaths then Others(rows[|rows| - 1], m) else {})
  }

  /** Some row lists m. */
  ghost predicate InRow(rows: seq<CollisionRow>, m: string)
  {
    exists k :: 0 <= k < |rows| && m in rows[k].modPaths
  }

  /** Some row lists both x and y: they hold a common colliding TGI. */
  ghost predicate Share(rows: seq<CollisionRow>, x: string, y: string)
  {
    exists k :: 0 <= k < |rows| && x in rows[k].modPaths && y in rows[k].modPaths
  }

  /** The adjacency dict the row loop builds. */
  function Graph(rows: seq<CollisionRow>): map<string, set<string>>
  {
    map m | m in KeysOf(TgiPairs(rows)) :: NeighborsIn(rows, m)
  }

  lemma {:induction false} NeighborsIff(rows: seq<CollisionRow>, x: string, y: string)
    ensures y in NeighborsIn(rows, x) <==> x != y && Share(rows, x, y)
  {
    if rows != [] {
      var init, last := rows[..|rows| - 1], rows[|rows| - 1];
      NeighborsIff(init, x, y);
      if Share(rows, x, y) {
        var k :| 0 <= k < |rows| && x in rows[k].modPaths && y in rows[k].modPaths;
        if k < |init| {
          assert init[k] == rows[k];
        }
      }
      if Share(init, x, y) {
        var k :| 0 <= k < |init| && x in init[k].modPaths && y in init[k].modPaths;
        assert rows[k] == init[k];
      }
    }
  }

  lemma {:induction false} TgiPairsIff(rows: seq<CollisionRow>, m: string, t: Tagged)
    ensures (m, t) in TgiPairs(rows) <==> exists k :: 0 <= k < |rows| && m in rows[k].modPaths && t == TagOf(rows[k])
  {
    if rows != [] {
      var init, last := rows[..|rows| - 1], rows[|rows| - 1];
      TgiPairsIff(init, m, t);
      var ps := RowPairs(last);
      assert (m, t) in ps <==> m in last.modPaths && t == TagOf(last) by {
        if (m, t) in ps {
          var j :| 0 <= j < |ps| && ps[j] == (m, t);
        }
        if m in last.modPaths && t == TagOf(last) {
          var j :| 0 <= j < |last.modPaths| && last.modPaths[j] == m;
          assert ps[j] == (m, t);
        }
      }
      if exists k :: 0 <= k < |rows| && m in rows[k].modPaths && t == TagOf(rows[k]) {
        var k :| 0 <= k < |rows| && m in rows[k].modPaths && t == TagOf(rows[k]);
        if k < |init| {
          assert init[k] == rows[k];
        }
      }
      if exists k :: 0 <= k < |init| && m in init[k].modPaths && t == TagOf(init[k]) {
        var k :| 0 <= k < |init| && m in init[k].modPaths && t == TagOf(init[k]);
        assert rows[k] == init[k];
      }
    }
  }

  /** The keys of the dicts are the mods of the rows. */
  lemma {:induction false} KeysIff(rows: seq<CollisionRow>, m: string)
    ensures m in KeysOf(TgiPairs(rows)) <==> InRow(rows, m)
  {
    var xs := TgiPairs(rows);
    if Has(xs, m) {
      var i :| 0 <= i < |xs| && xs[i].0 == m;
      TgiPairsIff(rows, m, xs[i].1);
    }
    if InRow(rows, m) {
      var k :| 0 <= k < |rows| && m in rows[k].modPaths;
      TgiPairsIff(rows, m, TagOf(rows[k]));
      var i :| 0 <= i < |xs| && xs[i] == (m, TagOf(rows[k]));
    }
  }

  // ------------------------------------------------------------ building the graph

  /** The three dicts after a prefix of the rows: mod_tgis as grouped pairs, adjacency over the same keys. */
  ghost predicate Built(mods: seq<string>, adjacency: map<string, set<string>>, modTgis: map<string, seq<Tagged>>,
                        rows: seq<CollisionRow>)
  {
    Grouped(mods, modTgis, TgiPairs(rows)) &&
    adjacency.Keys == modTgis.Keys &&
    (forall m :: m in adjacency ==> adjacency[m] == NeighborsIn(rows, m)) &&
    (forall m :: NeighborsIn(rows, m) != {} ==> m in adjacency)
  }

  lemma {:induction false} NoSelfNeighbor(rows: seq<CollisionRow>, m: string)
    ensures m !in NeighborsIn(rows, m)
  {
    NeighborsIff(rows, m, m);
  }

  /** adjacency while the inner loop is at mod j of row: the rows before it plus the first j mods of the row. */
  ghost predicate Linking(adjacency: map<string, set<string>>, done: seq<CollisionRow>, row: CollisionRow, j: nat)
    requires j <= |row.modPaths|
  {
    (forall m :: m in adjacency ==>
      adjacency[m] == NeighborsIn(done, m) + (if m in row.modPaths[..j] then Others(row, m) else {})) &&
    (forall m :: NeighborsIn(done, m) != {} ==> m in adjacency) &&
    (forall m :: m in row.modPaths[..j] ==> m in adjacency)
  }

  /** "adjacency[mod].update(mod_paths)" then "adjacency[mod].discard(mod)", after creating the empty set. */
  method Link(adjacency: map<string, set<string>>, row: CollisionRow, j: nat, ghost done: seq<CollisionRow>)
    returns (adjacency': map<string, set<string>>)
    requires j < |row.modPaths|
    requires Linking(adjacency, done, row, j)
    ensures Linking(adjacency', done, row, j + 1)
    ensures adjacency'.Keys == adjacency.Keys + {row.modPaths[j]}
  {
    var mod := row.modPaths[j];
    assert row.modPaths[..j + 1] == row.modPaths[..j] + [mod];
    NoSelfNeighbor(done, mod);
    var before := if mod in adjacency then adjacency[mod] else {};
    assert before == NeighborsIn(done, mod) + (if mod in row.modPaths[..j] then Others(row, mod) else {});
    adjacency' := adjacency[mod := (before + (set p | p in row.modPaths)) - {mod}];
    assert adjacency'[mod] == NeighborsIn(done, mod) + Others(row, mod);
  }

  /** "mod_tgis[mod].append(...)", after creating the empty list. */
  method AppendTag(mods: seq<string>, modTgis: map<string, seq<Tagged>>, mod: string, tag: Tagged,
                   ghost xs: seq<(string, Tagged)>)
    returns (mods': seq<string>, modTgis': map<string, seq<Tagged>>)
    requires Grouped(mods, modTgis, xs)
    ensures Grouped(mods', modTgis', xs + [(mod, tag)])
    ensures modTgis'.Keys == modTgis.Keys + {mod}
  {
    GroupedStep(mods, modTgis, xs, (mod, tag));
    mods' := if mod in modTgis then mods else mods + [mod];
    modTgis' := modTgis[mod := (if mod in modTgis then modTgis[mod] else []) + [tag]];
  }

  lemma {:induction false} RowPairsStep(done: seq<CollisionRow>, row: CollisionRow, j: nat)
    requires j < |row.modPaths|
    ensures TgiPairs(done) + RowPairs(row)[..j + 1] == TgiPairs(done) + RowPairs(row)[..j] + [(row.modPaths[j], TagOf(row))]
  {
    assert RowPairs(row)[..j + 1] == RowPairs(row)[..j] + [(row.modPaths[j], TagOf(row))];
  }

  /** Once the inner loop has seen the whole row, the dicts are those of the rows up to it. */
  lemma {:induction false} LinkingDone(mods: seq<string>, adjacency: map<string, set<string>>, modTgis: map<string, seq<Tagged>>,
                    done: seq<CollisionRow>, row: CollisionRow)
    requires Grouped(mods, modTgis, TgiPairs(done) + RowPairs(row)[..|row.modPaths|])
    requires adjacency.Keys == modTgis.Keys
    requires Linking(adjacency, done, row, |row.modPaths|)
    ensures Built(mods, adjacency, modTgis, done + [row])
  {
    var rows := done + [row];
    assert rows[..|rows| - 1] == done;
    assert row.modPaths[..|row.modPaths|] == row.modPaths;
    assert RowPairs(row)[..|row.modPaths|] == RowPairs(row);
  }

  /** Before the inner loop, the dicts are those of the rows before the row. */
  lemma {:induction false} LinkingStart(mods: seq<string>, adjacency: map<string, set<string>>, modTgis: map<string, seq<Tagged>>,
                     done: seq<CollisionRow>, row: CollisionRow)
    requires Built(mods, adjacency, modTgis, done)
    ensures Grouped(mods, modTgis, TgiPairs(done) + RowPairs(row)[..0])
    ensures Linking(adjacency, done, row, 0)
  {
    assert TgiPairs(done) + RowPairs(row)[..0] == TgiPairs(done);
  }

  /** The body of the row loop: every mod of the row in turn. */
  method AddRow(mods: seq<string>, adjacency: map<string, set<string>>, modTgis: map<string, seq<Tagged>>,
                row: CollisionRow, ghost done: seq<CollisionRow>)
    returns (mods': seq<string>, adjacency': map<string, set<string>>, modTgis': map<string, seq<Tagged>>)
    requires Built(mods, adjacency, modTgis, done)
    ensures Built(mods', adjacency', modTgis', done + [row])
  {
    mods', adjacency', modTgis' := mods, adjacency, modTgis;
    LinkingStart(mods, adjacency, modTgis, done, row);
    var j := 0;
    while j < |row.modPaths|
      invariant 0 <= j <= |row.modPaths|
      invariant Grouped(mods', modTgis', TgiPairs(done) + RowPairs(row)[..j])
      invariant adjacency'.Keys == modTgis'.Keys
      invariant Linking(adjacency', done, row, j)
    {
      adjacency' := Link(adjacency', row, j, done);
      RowPairsStep(done, row, j);
      mods', modTgis' := AppendTag(mods', modTgis', row.modPaths[j], TagOf(row), TgiPairs(done) + RowPairs(row)[..j]);
      j := j + 1;
    }
    LinkingDone(mods', adjacency', modTgis', done, row);
  }

  /** The row loop of find_conflicts: adjacency and mod_tgis, with their common key order. */
  method BuildGraph(rows: seq<CollisionRow>)
    returns (mods: seq<string>, adjacency: map<string, set<string>>, modTgis: map<string, seq<Tagged>>)
    ensures Grouped(mods, modTgis, TgiPairs(rows))
    ensures adjacency == Graph(rows)
  {
    mods, adjacency, modTgis := [], map[], map[];
    var i := 0;
    while i < |rows|
      invariant 0 <= i <= |rows|
      invariant Built(mods, adjacency, modTgis, rows[..i])
    {
      assert rows[..i + 1] == rows[..i] + [rows[i]];
      mods, adjacency, modTgis := AddRow(mods, adjacency, modTgis, rows[i], rows[..i]);
      i := i + 1;
    }
    assert rows[..i] == rows;
    assert adjacency.Keys == Graph(rows).Keys;
  }

  // ------------------------------------------------------------ the graph

  /** adjacency.get(mod, []). */
  function Get(g: map<string, set<string>>, m: string): set<string>
  {
    if m in g then g[m] else {}
  }

  /** Consecutive mods of p are adjacent. */
  ghost predicate Path(g: map<string, set<string>>, p: seq<string>)
  {
    |p| >= 1 && forall i :: 0 <= i < |p| - 1 ==> p[i + 1] in Get(g, p[i])
  }

  /** b can be reached from a. */
  ghost predicate Linked(g: map<string, set<string>>, a: string, b: string)
  {
    exists p :: Path(g, p) && p[0] == a && p[|p| - 1] == b
  }

  /** Every neighbor of a member is a member. */
  ghost predicate ClosedSet(g: map<string, set<string>>, s: set<string>)
  {
    forall x :: x in s ==> Get(g, x) <= s
  }

  ghost predicate Symmetric(g: map<string, set<string>>)
  {
    forall x, y :: y in Get(g, x) ==> x in Get(g, y)
  }

  ghost predicate Loopless(g: map<string, set<string>>)
  {
    forall x :: x !in Get(g, x)
  }

  /** The members of ms are exactly the mods linked to any one of them: ms is a connected component. */
  ghost predicate IsComponent(g: map<string, set<string>>, ms: seq<string>)
  {
    forall x, y :: x in ms ==> (y in ms <==> Linked(g, x, y))
  }

  lemma LinkedSelf(g: map<string, set<string>>, a: string)
    ensures Linked(g, a, a)
  {
    assert Path(g, [a]);
  }

  lemma LinkedStep(g: map<string, set<string>>, a: string, n: string, b: string)
    requires n in Get(g, a) && Linked(g, n, b)
    ensures Linked(g, a, b)
  {
    var p :| Path(g, p) && p[0] == n && p[|p| - 1] == b;
    var q := [a] + p;
    assert forall i :: 1 <= i < |q| ==> q[i] == p[i - 1];
    assert Path(g, q);
  }

  lemma LinkedTransitive(g: map<string, set<string>>, a: string, b: string, c: string)
    requires Linked(g, a, b) && Linked(g, b, c)
    ensures Linked(g, a, c)
  {
    var p :| Path(g, p) && p[0] == a && p[|p| - 1] == b;
    var q :| Path(g, q) && q[0] == b && q[|q| - 1] == c;
    var r := p + q[1..];
    forall i | 0 <= i < |r| - 1 ensures r[i + 1] in Get(g, r[i]) {
      if i < |p| - 1 {
        assert r[i] == p[i] && r[i + 1] == p[i + 1];
      } else {
        assert r[i] == q[i - |p| + 1] && r[i + 1] == q[i - |p| + 2];
      }
    }
    assert Path(g, r);
  }

  lemma {:induction false} PathReversed(g: map<string, set<string>>, p: seq<string>)
    requires Symmetric(g) && Path(g, p)
    ensures Linked(g, p[|p| - 1], p[0])
  {
    if |p| == 1 {
      LinkedSelf(g, p[0]);
    } else {
      var init := p[..|p| - 1];
      assert Path(g, init);
      PathReversed(g, init);
      assert p[|p| - 2] in Get(g, p[|p| - 1]);
      LinkedStep(g, p[|p| - 1], p[|p| - 2], p[0]);
    }
  }

  lemma LinkedSymmetric(g: map<string, set<string>>, a: string, b: string)
    requires Symmetric(g) && Linked(g, a, b)
    ensures Linked(g, b, a)
  {
    var p :| Path(g, p) && p[0] == a && p[|p| - 1] == b;
    PathReversed(g, p);
  }

  lemma {:induction false} PathInside(g: map<string, set<string>>, s: set<string>, p: seq<string>, i: nat)
    requires ClosedSet(g, s) && Path(g, p) && p[0] in s && i < |p|
    ensures p[i] in s
  {
    if i > 0 {
      PathInside(g, s, p, i - 1);
    }
  }

  /** Nothing outside a closed set can be reached from inside it. */
  lemma ClosedReach(g: map<string, set<string>>, s: set<string>, a: string, b: string)
    requires ClosedSet(g, s) && a in s && Linked(g, a, b)
    ensures b in s
  {
    var p :| Path(g, p) && p[0] == a && p[|p| - 1] == b;
    PathInside(g, s, p, |p| - 1);
  }

  // ------------------------------------------------------------ depth-first search

  /**
   * What a call dfs(root, cluster_mods) did, from visited and cluster to
   * visited2 and cluster2: it appended the newly visited mods, each once, and
   * each of them is reachable from root.
   */
  ghost predicate Explores(g: map<string, set<string>>, root: string,
                           visited: set<string>, cluster: seq<string>, visited2: set<string>, cluster2: seq<string>)
  {
    visited <= visited2 && |cluster| <= |cluster2| && cluster2[..|cluster|] == cluster &&
    (forall x :: x in cluster2[|cluster|..] <==> x in visited2 - visited) &&
    Distinct(cluster2[|cluster|..]) &&
    (forall x :: x in visited2 - visited ==> Linked(g, root, x))
  }

  /** Every newly visited mod has had all its neighbors visited. */
  ghost predicate Finished(g: map<string, set<string>>, visited: set<string>, visited2: set<string>)
  {
    forall x :: x in visited2 - visited ==> Get(g, x) <= visited2
  }

  lemma ExploresNothing(g: map<string, set<string>>, root: string, visited: set<string>, cluster: seq<string>)
    ensures Explores(g, root, visited, cluster, visited, cluster)
  {
    assert cluster[|cluster|..] == [];
  }

  /** Visiting root itself: the first step of dfs. */
  lemma ExploresRoot(g: map<string, set<string>>, root: string, visited: set<string>, cluster: seq<string>)
    requires root !in visited
    ensures Explores(g, root, visited, cluster, visited + {root}, cluster + [root])
  {
    assert (cluster + [root])[..|cluster|] == cluster;
    assert (cluster + [root])[|cluster|..] == [root];
    LinkedSelf(g, root);
  }

  /** A recursive call on a neighbor n of root extends what the call on root has explored. */
  lemma ExploresStep(g: map<string, set<string>>, root: string, n: string,
                     visited: set<string>, cluster: seq<string>, visited2: set<string>, cluster2: seq<string>,
                     visited3: set<string>, cluster3: seq<string>)
    requires Explores(g, root, visited, cluster, visited2, cluster2)
    requires Explores(g, n, visited2, cluster2, visited3, cluster3)
    requires n in Get(g, root)
    ensures Explores(g, root, visited, cluster, visited3, cluster3)
  {
    assert cluster3[..|cluster|] == cluster3[..|cluster2|][..|cluster|];
    var a, b := cluster2[|cluster|..], cluster3[|cluster2|..];
    assert cluster3[|cluster|..] == a + b by {
      assert cluster3 == cluster2 + b;
    }
    forall i, j | 0 <= i < j < |a + b| ensures (a + b)[i] != (a + b)[j] {
      if i < |a| && j >= |a| {
        assert (a + b)[i] == a[i] && (a + b)[j] == b[j - |a|];
        assert a[i] in a && b[j - |a|] in b;
      } else if i >= |a| {
        assert (a + b)[i] == b[i - |a|] && (a + b)[j] == b[j - |a|];
      } else {
        assert (a + b)[i] == a[i] && (a + b)[j] == a[j];
      }
    }
    forall x | x in visited3 - visited ensures Linked(g, root, x) {
      if x !in visited2 {
        LinkedStep(g, root, n, x);
      }
    }
  }

  lemma FewerLeft(a: set<string>, b: set<string>)
    requires a < b
    ensures |a| < |b|
  {
    assert exists x :: x in b && x !in a;
    var x :| x in b && x !in a;
    assert b == a + (b - a);
    assert x in b - a;
  }

  /**
   * dfs(mod, cluster_mods) over a visited set passed in and returned. The
   * neighbors are taken in some order: Python iterates a set.
   */
  method Dfs(g: map<string, set<string>>, mod: string, visited: set<string>, cluster: seq<string>)
    returns (visited': set<string>, cluster': seq<string>)
    ensures mod in visited'
    ensures mod in visited ==> visited' == visited && cluster' == cluster
    ensures Explores(g, mod, visited, cluster, visited', cluster')
    ensures Finished(g, visited, visited')
    decreases |g.Keys - visited|
  {
    if mod in visited {
      ExploresNothing(g, mod, visited, cluster);
      return visited, cluster;
    }
    visited' := visited + {mod};
    cluster' := cluster + [mod];
    ExploresRoot(g, mod, visited, cluster);
    var todo := Get(g, mod);
    while todo != {}
      invariant todo <= Get(g, mod)
      invariant visited + {mod} <= visited'
      invariant Explores(g, mod, visited, cluster, visited', cluster')
      invariant forall x :: x in visited' - visited && x != mod ==> Get(g, x) <= visited'
      invariant Get(g, mod) - todo <= visited'
      decreases todo
    {
      var n :| n in todo;
      todo := todo - {n};
      assert mod in g.Keys - visited && mod !in g.Keys - visited';
      FewerLeft(g.Keys - visited', g.Keys - visited);
      var visited3, cluster3 := Dfs(g, n, visited', cluster');
      ExploresStep(g, mod, n, visited, cluster, visited', cluster', visited3, cluster3);
      visited', cluster' := visited3, cluster3;
    }
  }

  // ------------------------------------------------------------ one cluster

  /** mod_tgis.get(m, []). */
  function TagsOf(modTgis: map<string, seq<Tagged>>, m: string): seq<Tagged>
  {
    if m in modTgis then modTgis[m] else []
  }

  /** The entries of a list, as a set. */
  function Elems(ts: seq<Tagged>): (r: set<Tagged>)
    ensures forall t :: t in r <==> t in ts
  {
    set i | 0 <= i < |ts| :: ts[i]
  }

  /** The entries of mod_tgis for the mods of ms. */
  function TagSet(modTgis: map<string, seq<Tagged>>, ms: seq<string>): set<Tagged>
  {
    if ms == [] then {}
    else TagSet(modTgis, ms[..|ms| - 1]) + Elems(TagsOf(modTgis, ms[|ms| - 1]))
  }

  function TgisIn(tags: set<Tagged>): set<Index.Tgi>
  {
    set t | t in tags :: TgiOf(t)
  }

  function TypesIn(tags: set<Tagged>): set<string>
  {
    set t | t in tags :: t.3
  }

  /** The entry of every row that lists a mod of ms. */
  ghost function RowTags(rows: seq<CollisionRow>, ms: seq<string>): set<Tagged>
  {
    set r | r in rows && (exists m :: m in ms && m in r.modPaths) :: TagOf(r)
  }

  /** The inner loop of the collection: the TGI and the type name of each entry of one mod. */
  method AddTags(allTgis: set<Index.Tgi>, allTypes: set<string>, ts: seq<Tagged>, ghost tags: set<Tagged>)
    returns (allTgis': set<Index.Tgi>, allTypes': set<string>)
    requires allTgis == TgisIn(tags) && allTypes == TypesIn(tags)
    ensures allTgis' == TgisIn(tags + Elems(ts)) && allTypes' == TypesIn(tags + Elems(ts))
  {
    allTgis', allTypes' := allTgis, allTypes;
    for j := 0 to |ts|
      invariant allTgis' == TgisIn(tags + Elems(ts[..j]))
      invariant allTypes' == TypesIn(tags + Elems(ts[..j]))
    {
      assert Elems(ts[..j + 1]) == Elems(ts[..j]) + {ts[j]} by {
        assert ts[..j + 1] == ts[..j] + [ts[j]];
      }
      allTgis' := allTgis' + {TgiOf(ts[j])};
      allTypes' := allTypes' + {ts[j].3};
    }
    assert ts[..|ts|] == ts;
  }

  /** The collection loop of find_conflicts: the TGIs and type names of the entries of a cluster's mods. */
  method CollectTags(clusterMods: seq<string>, modTgis: map<string, seq<Tagged>>)
    returns (allTgis: set<Index.Tgi>, allTypes: set<string>)
    ensures allTgis == TgisIn(TagSet(modTgis, clusterMods))
    ensures allTypes == TypesIn(TagSet(modTgis, clusterMods))
  {
    allTgis, allTypes := {}, {};
    for i := 0 to |clusterMods|
      invariant allTgis == TgisIn(TagSet(modTgis, clusterMods[..i]))
      invariant allTypes == TypesIn(TagSet(modTgis, clusterMods[..i]))
    {
      assert clusterMods[..i + 1][..i] == clusterMods[..i];
      allTgis, allTypes := AddTags(allTgis, allTypes, TagsOf(modTgis, clusterMods[i]), TagSet(modTgis, clusterMods[..i]));
    }
    assert clusterMods[..|clusterMods|] == clusterMods;
  }

  /** The entries mod_tgis holds for m are the rows that list m. */
  lemma {:induction false} TagsOfIff(mods: seq<string>, modTgis: map<string, seq<Tagged>>, rows: seq<CollisionRow>, m: string, t: Tagged)
    requires Grouped(mods, modTgis, TgiPairs(rows))
    ensures t in TagsOf(modTgis, m) <==> exists k :: 0 <= k < |rows| && m in rows[k].modPaths && t == TagOf(rows[k])
  {
    var xs := TgiPairs(rows);
    TgiPairsIff(rows, m, t);
    if t in TagsOf(modTgis, m) {
      var vs := ValuesOf(xs, m);
      var j :| 0 <= j < |vs| && vs[j] == t;
      assert (m, vs[j]) in xs;
    }
    if (m, t) in xs {
      var i :| 0 <= i < |xs| && xs[i] == (m, t);
      ValueInGroup(xs, i);
      assert Has(xs, m);
    }
  }

  /** What the collection gathers is the entry of every row listing a mod of the cluster. */
  lemma {:induction false} TagSetIsRowTags(mods: seq<string>, modTgis: map<string, seq<Tagged>>, rows: seq<CollisionRow>,
                                           ms: seq<string>)
    requires Grouped(mods, modTgis, TgiPairs(rows))
    ensures TagSet(modTgis, ms) == RowTags(rows, ms)
  {
    if ms != [] {
      var init, last := ms[..|ms| - 1], ms[|ms| - 1];
      TagSetIsRowTags(mods, modTgis, rows, init);
      forall t ensures t in TagSet(modTgis, ms) <==> t in RowTags(rows, ms) {
        TagsOfIff(mods, modTgis, rows, last, t);
        if t in RowTags(rows, ms) {
          var r :| r in rows && (exists m :: m in ms && m in r.modPaths) && t == TagOf(r);
          var m :| m in ms && m in r.modPaths;
          var k :| 0 <= k < |rows| && rows[k] == r;
          if m != last {
            assert m in init;
          }
        }
        if t in TagsOf(modTgis, last) {
          var k :| 0 <= k < |rows| && last in rows[k].modPaths && t == TagOf(rows[k]);
          assert rows[k] in rows && last in ms;
        }
        if t in RowTags(rows, init) {
          var r :| r in rows && (exists m :: m in init && m in r.modPaths) && t == TagOf(r);
          var m :| m in init && m in r.modPaths;
          assert m in ms;
        }
      }
    }
  }

  /** RowTags depends only on which mods ms holds. */
  lemma RowTagsSame(rows: seq<CollisionRow>, a: seq<string>, b: seq<string>)
    requires forall m :: m in a <==> m in b
    ensures RowTags(rows, a) == RowTags(rows, b)
  {
  }

  /** Building the ConflictCluster of one component found by the search. */
  method MakeCluster(clusterMods: seq<string>, modTgis: map<string, seq<Tagged>>, ghost mods: seq<string>,
                     ghost rows: seq<CollisionRow>)
    returns (c: ConflictCluster)
    requires Grouped(mods, modTgis, TgiPairs(rows))
    requires Distinct(clusterMods)
    ensures |c.mods| == |clusterMods|
    ensures forall m :: m in c.mods <==> m in clusterMods
    ensures forall i, j :: 0 <= i < j < |c.mods| ==> StrOrder.Less(c.mods[i], c.mods[j])
    ensures c.resources == TgisIn(RowTags(rows, c.mods))
    ensures c.resourceTypes == TypesIn(RowTags(rows, c.mods))
    ensures c.severity == DetermineSeverity(c.resourceTypes)
  {
    var allTgis, allTypes := CollectTags(clusterMods, modTgis);
    var sorted := StrOrder.Sorted(clusterMods);
    StrOrder.SortedDistinct(clusterMods);
    TagSetIsRowTags(mods, modTgis, rows, clusterMods);
    RowTagsSame(rows, clusterMods, sorted);
    c := ConflictCluster(sorted, allTgis, allTypes, DetermineSeverity(allTypes));
  }

  // ------------------------------------------------------------ all clusters

  /** The adjacency dict links two mods exactly when they are different and share a row. */
  lemma GraphLinks(rows: seq<CollisionRow>, x: string, y: string)
    ensures y in Get(Graph(rows), x) <==> x != y && Share(rows, x, y)
  {
    NeighborsIff(rows, x, y);
    KeysIff(rows, x);
  }

  /** So the graph is symmetric and has no loops. */
  lemma GraphShape(rows: seq<CollisionRow>)
    ensures Symmetric(Graph(rows)) && Loopless(Graph(rows))
  {
    forall x, y ensures y in Get(Graph(rows), x) <==> x != y && Share(rows, x, y) {
      GraphLinks(rows, x, y);
    }
  }

  /** A sequence holding two different values has at least two elements. */
  lemma TwoMembers(ms: seq<string>, a: string, b: string)
    requires a in ms && b in ms && a != b
    ensures |ms| >= 2
  {
    var i :| 0 <= i < |ms| && ms[i] == a;
    var j :| 0 <= j < |ms| && ms[j] == b;
  }

  /** What one top-level dfs call found, when visited was closed before it: a whole connected component. */
  lemma ComponentFound(g: map<string, set<string>>, mod: string, visited: set<string>, visited': set<string>,
                       cluster: seq<string>)
    requires Symmetric(g) && Loopless(g) && ClosedSet(g, visited)
    requires mod !in visited && mod in visited'
    requires Explores(g, mod, visited, [], visited', cluster) && Finished(g, visited, visited')
    ensures ClosedSet(g, visited')
    ensures Distinct(cluster) && forall x :: x in cluster <==> x in visited' - visited
    ensures IsComponent(g, cluster)
    ensures forall x, n :: x in cluster && n in Get(g, x) ==> |cluster| >= 2
  {
    assert cluster[0..] == cluster;
    var added := visited' - visited;
    forall x | x in added ensures Get(g, x) <= added {
      forall n | n in Get(g, x) ensures n !in visited {
        assert x in Get(g, n);
      }
    }
    forall x, y | x in cluster ensures y in cluster <==> Linked(g, x, y) {
      LinkedSymmetric(g, mod, x);
      if y in cluster {
        LinkedTransitive(g, x, mod, y);
      }
      if Linked(g, x, y) {
        LinkedTransitive(g, mod, x, y);
        ClosedReach(g, added, mod, y);
      }
    }
    forall x, n | x in cluster && n in Get(g, x) ensures |cluster| >= 2 {
      TwoMembers(cluster, x, n);
    }
  }

  /** Some cluster of cs holds x. */
  ghost predicate Covered(cs: seq<ConflictCluster>, x: string)
  {
    exists k :: 0 <= k < |cs| && x in cs[k].mods
  }

  /** No mod is in two clusters. */
  ghost predicate Separate(cs: seq<ConflictCluster>)
  {
    forall a, b, x :: 0 <= a < b < |cs| && x in cs[a].mods ==> x !in cs[b].mods
  }

  /**
   * A reported cluster: two or more mods in ascending order forming a
   * connected component of the adjacency dict; its resources and type names
   * are those of every row listing one of its mods; its severity follows
   * from those type names.
   */
  ghost predicate Describes(g: map<string, set<string>>, rows: seq<CollisionRow>, c: ConflictCluster)
  {
    |c.mods| >= 2 &&
    (forall i, j :: 0 <= i < j < |c.mods| ==> StrOrder.Less(c.mods[i], c.mods[j])) &&
    IsComponent(g, c.mods) &&
    c.resources == TgisIn(RowTags(rows, c.mods)) &&
    c.resourceTypes == TypesIn(RowTags(rows, c.mods)) &&
    c.severity == DetermineSeverity(c.resourceTypes)
  }

  /** The clusters of a prefix of the key list, found with the search over visited. */
  ghost predicate Searched(rows: seq<CollisionRow>, g: map<string, set<string>>, visited: set<string>,
                           found: seq<ConflictCluster>)
  {
    ClosedSet(g, visited) &&
    (forall k :: 0 <= k < |found| ==> Describes(g, rows, found[k])) &&
    (forall k, x :: 0 <= k < |found| && x in found[k].mods ==> x in visited) &&
    Separate(found) &&
    (forall x, n :: x in visited && n in Get(g, x) ==> Covered(found, x))
  }

  /** One turn of the loop over the keys, when mod has not been visited. */
  method SearchFrom(g: map<string, set<string>>, mod: string, visited: set<string>, found: seq<ConflictCluster>,
                    modTgis: map<string, seq<Tagged>>, ghost mods: seq<string>, ghost rows: seq<CollisionRow>)
    returns (visited': set<string>, found': seq<ConflictCluster>)
    requires Grouped(mods, modTgis, TgiPairs(rows))
    requires Symmetric(g) && Loopless(g)
    requires mod !in visited
    requires Searched(rows, g, visited, found)
    ensures Searched(rows, g, visited', found')
    ensures visited + {mod} <= visited'
  {
    var clusterMods;
    visited', clusterMods := Dfs(g, mod, visited, []);
    ComponentFound(g, mod, visited, visited', clusterMods);
    if |clusterMods| > 1 {
      var c := MakeCluster(clusterMods, modTgis, mods, rows);
      assert IsComponent(g, c.mods);
      found' := found + [c];
      SearchedSnoc(rows, g, visited, visited', found, c);
    } else {
      found' := found;
    }
  }

  /** Appending the cluster of a newly found component keeps the search's invariant. */
  lemma SearchedSnoc(rows: seq<CollisionRow>, g: map<string, set<string>>, visited: set<string>, visited': set<string>,
                     found: seq<ConflictCluster>, c: ConflictCluster)
    requires Searched(rows, g, visited, found)
    requires ClosedSet(g, visited') && visited <= visited'
    requires forall x :: x in c.mods <==> x in visited' - visited
    requires Describes(g, rows, c)
    ensures Searched(rows, g, visited', found + [c])
  {
    var found' := found + [c];
    forall x, n | x in visited' && n in Get(g, x) ensures Covered(found', x) {
      if x in visited {
        var k :| 0 <= k < |found| && x in found[k].mods;
        assert found'[k] == found[k];
      } else {
        assert found'[|found|] == c;
      }
    }
    forall a, b, x | 0 <= a < b < |found'| && x in found'[a].mods ensures x !in found'[b].mods {
      if b == |found| {
        assert found'[a] == found[a] && x in visited;
      } else {
        assert found'[a] == found[a] && found'[b] == found[b];
      }
    }
  }

  /** The loop over the keys of adjacency, in insertion order. */
  method FindClusters(mods: seq<string>, adjacency: map<string, set<string>>, modTgis: map<string, seq<Tagged>>,
                      ghost rows: seq<CollisionRow>)
    returns (found: seq<ConflictCluster>)
    requires Grouped(mods, modTgis, TgiPairs(rows))
    requires Symmetric(adjacency) && Loopless(adjacency)
    requires forall x :: x in adjacency ==> x in mods
    ensures forall k :: 0 <= k < |found| ==> Describes(adjacency, rows, found[k])
    ensures Separate(found)
    ensures forall x, n :: n in Get(adjacency, x) ==> Covered(found, x)
  {
    var visited: set<string> := {};
    found := [];
    SearchedStart(rows, adjacency);
    for i := 0 to |mods|
      invariant Searched(rows, adjacency, visited, found)
      invariant forall k :: 0 <= k < i ==> mods[k] in visited
    {
      if mods[i] !in visited {
        visited, found := SearchFrom(adjacency, mods[i], visited, found, modTgis, mods, rows);
      }
    }
    SearchedAll(rows, adjacency, visited, found, mods);
  }

  lemma SearchedStart(rows: seq<CollisionRow>, g: map<string, set<string>>)
    ensures Searched(rows, g, {}, [])
  {
  }

  /** Once every key has been visited, every mod with a neighbor is in a cluster. */
  lemma SearchedAll(rows: seq<CollisionRow>, g: map<string, set<string>>, visited: set<string>, found: seq<ConflictCluster>,
                    mods: seq<string>)
    requires Searched(rows, g, visited, found)
    requires forall x :: x in g ==> x in mods
    requires forall k :: 0 <= k < |mods| ==> mods[k] in visited
    ensures forall x, n :: n in Get(g, x) ==> Covered(found, x)
  {
  }

  /** The sort key of the final clusters.sort: severity rank, then more mods first. */
  function ClusterKey(c: ConflictCluster): Key
  {
    (SeverityRank(c.severity), -|c.mods|)
  }

  /**
   * find_conflicts over the rows of the collision query: every cluster is a
   * connected component of two or more mods of the "shares a colliding TGI"
   * graph, no mod is in two clusters, two mods sharing a row are always in
   * the same cluster, and the clusters come most severe first, larger first
   * within a severity.
   */
  method FindConflicts(rows: seq<CollisionRow>) returns (clusters: seq<ConflictCluster>)
    ensures forall k :: 0 <= k < |clusters| ==> Describes(Graph(rows), rows, clusters[k])
    ensures Separate(clusters)
    ensures forall x, y :: x != y && Share(rows, x, y) ==>
      exists k :: 0 <= k < |clusters| && x in clusters[k].mods && y in clusters[k].mods
    ensures SortedBy(clusters, ClusterKey)
  {
    var mods, adjacency, modTgis := BuildGraph(rows);
    GraphShape(rows);
    assert forall x :: x in adjacency ==> x in mods;
    var found := FindClusters(mods, adjacency, modTgis, rows);
    clusters := SortBy(found, ClusterKey);
    SortedPreserves(adjacency, rows, found, clusters);
    SharedTogether(rows, clusters);
  }

  /** Two mods sharing a row lie in the same cluster, since each cluster is a whole component. */
  lemma SharedTogether(rows: seq<CollisionRow>, clusters: seq<ConflictCluster>)
    requires forall k :: 0 <= k < |clusters| ==> Describes(Graph(rows), rows, clusters[k])
    requires forall x, n :: n in Get(Graph(rows), x) ==> Covered(clusters, x)
    ensures forall x, y :: x != y && Share(rows, x, y) ==>
      exists k :: 0 <= k < |clusters| && x in clusters[k].mods && y in clusters[k].mods
  {
    forall x, y | x != y && Share(rows, x, y)
      ensures exists k :: 0 <= k < |clusters| && x in clusters[k].mods && y in clusters[k].mods
    {
      GraphLinks(rows, x, y);
      var k :| 0 <= k < |clusters| && x in clusters[k].mods;
      assert Path(Graph(rows), [x, y]);
      assert Linked(Graph(rows), x, y);
    }
  }

  /** The sorted clusters describe the rows, are separate and cover the same mods as the unsorted ones. */
  lemma {:induction false} SortedPreserves(g: map<string, set<string>>, rows: seq<CollisionRow>, found: seq<ConflictCluster>, clusters: seq<ConflictCluster>)
    requires clusters == SortBy(found, ClusterKey)
    requires forall k :: 0 <= k < |found| ==> Describes(g, rows, found[k])
    requires Separate(found)
    requires forall x, n :: n in Get(g, x) ==> Covered(found, x)
    ensures forall k :: 0 <= k < |clusters| ==> Describes(g, rows, clusters[k])
    ensures Separate(clusters)
    ensures forall x, n :: n in Get(g, x) ==> Covered(clusters, x)
    ensures SortedBy(clusters, ClusterKey)
  {
    SortBySorted(found, ClusterKey);
    SameMembers(found, clusters);
    forall k | 0 <= k < |clusters| ensures Describes(g, rows, clusters[k]) {
      assert clusters[k] in found;
    }
    SeparateDistinct(found);
    DistinctPermutation(found, clusters);
    SeparatePermutation(found, clusters);
    forall x, n | n in Get(g, x) ensures Covered(clusters, x) {
      CoveredPermutation(found, clusters, x);
    }
  }

  lemma SameMembers<T>(xs: seq<T>, ys: seq<T>)
    requires multiset(xs) == multiset(ys)
    ensures forall c :: c in xs <==> c in ys
  {
    forall c ensures c in xs <==> c in ys {
      assert c in xs <==> c in multiset(xs);
      assert c in ys <==> c in multiset(ys);
    }
  }

  /** Separate clusters, none of them empty, are all different. */
  lemma SeparateDistinct(cs: seq<ConflictCluster>)
    requires Separate(cs)
    requires forall k :: 0 <= k < |cs| ==> |cs[k].mods| >= 1
    ensures Distinct(cs)
  {
    forall a, b | 0 <= a < b < |cs| ensures cs[a] != cs[b] {
      assert cs[a].mods[0] in cs[a].mods;
    }
  }

  lemma SeparatePermutation(xs: seq<ConflictCluster>, ys: seq<ConflictCluster>)
    requires Separate(xs) && Distinct(ys)
    requires forall c :: c in xs <==> c in ys
    ensures Separate(ys)
  {
    forall a, b, x | 0 <= a < b < |ys| && x in ys[a].mods ensures x !in ys[b].mods {
      assert ys[a] in xs && ys[b] in xs;
      var a' :| 0 <= a' < |xs| && xs[a'] == ys[a];
      var b' :| 0 <= b' < |xs| && xs[b'] == ys[b];
      if a' > b' {
        assert x !in xs[a'].mods || x !in xs[b'].mods;
      }
    }
  }

  lemma CoveredPermutation(xs: seq<ConflictCluster>, ys: seq<ConflictCluster>, x: string)
    requires Covered(xs, x)
    requires forall c :: c in xs <==> c in ys
    ensures Covered(ys, x)
  {
    var k :| 0 <= k < |xs| && x in xs[k].mods;
    assert xs[k] in ys;
    var k' :| 0 <= k' < |ys| && ys[k'] == xs[k];
  }
}
