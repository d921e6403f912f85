/** Tier computation (map_generator.py, `find_leaves`,
    `get_next_rank_maps`, `build_tiers`, `Quadrant.build`): a level-order
    expansion over the ranked table, from a lower map to its highers,
    without a global visited set. */
module Tiering {
  import opened Registry

  /** `y` lists `x` among its highers in the ranked table. */
  predicate HigherOf(deps: Table, y: string, x: string)
  {
    y in deps && x in deps[y]
  }

  /** Some map of `tier` lists `x` among its highers. */
  ghost predicate Reaches(deps: Table, tier: seq<string>, x: string)
  {
    exists y :: y in tier && HigherOf(deps, y, x)
  }

  /** A key of the table that no list names: a tier-1 (root) map. */
  predicate IsLeaf(deps: Table, x: string)
  {
    x in deps && forall a :: a in deps ==> x !in deps[a]
  }

  /** `find_leaves(deps)`: the entries of `maps`, in their order, that are
      leaves of `deps`. */
  function Leaves(deps: Table, maps: seq<string>): (r: seq<string>)
    ensures |r| <= |maps|
  {
    if maps == [] then []
    else (if IsLeaf(deps, maps[0]) then [maps[0]] else []) + Leaves(deps, maps[1..])
  }

  /** `find_leaves` keeps exactly the entries of `maps` that are leaves,
      and no entry twice when `maps` has none twice. */
  lemma {:induction false} LeavesSpec(deps: Table, maps: seq<string>)
    ensures forall x :: x in Leaves(deps, maps) <==> x in maps && IsLeaf(deps, x)
    ensures NoDup(maps) ==> NoDup(Leaves(deps, maps))
  {
    if maps != [] {
      var rest := Leaves(deps, maps[1..]);
      LeavesSpec(deps, maps[1..]);
      assert forall x :: x in maps <==> x == maps[0] || x in maps[1..];
      if NoDup(maps) {
        forall i, j | 0 <= i < j < |maps| - 1 ensures maps[1..][i] != maps[1..][j] {
          assert maps[1..][i] == maps[i + 1] && maps[1..][j] == maps[j + 1];
        }
      }
      if !IsLeaf(deps, maps[0]) {
        assert Leaves(deps, maps) == rest;
        forall x | x in maps && IsLeaf(deps, x) ensures x in rest {
          assert x != maps[0];
          assert x in maps[1..];
        }
        forall x | x in rest ensures x in maps && IsLeaf(deps, x) {
          assert x in maps[1..] && IsLeaf(deps, x);
          assert x in maps;
        }
      } else if NoDup(maps) {
        assert maps[0] !in maps[1..];
        var r := [maps[0]] + rest;
        forall i, j | 0 <= i < j < |r| ensures r[i] != r[j] {
          if i == 0 {
            assert r[j] == rest[j - 1] && rest[j - 1] in rest;
          } else {
            assert r[i] == rest[i - 1] && r[j] == rest[j - 1];
          }
        }
      }
    }
  }

  /** `find_leaves` follows the order of `maps`: it distributes over
      concatenation. */
  lemma {:induction false} LeavesAppend(deps: Table, a: seq<string>, b: seq<string>)
    ensures Leaves(deps, a + b) == Leaves(deps, a) + Leaves(deps, b)
    decreases |a|
  {
    if a == [] {
      assert a + b == b;
    } else {
      assert (a + b)[0] == a[0];
      assert (a + b)[1..] == a[1..] + b;
      LeavesAppend(deps, a[1..], b);
    }
  }

  /** On a registry whose `maps` is duplicate-free and names every key,
      `find_leaves` returns exactly the keys that occur in no list, each
      once. */
  lemma LeavesOfConsistent(r: Registry)
    requires Consistent(r)
    ensures var l := Leaves(r.ranked, r.maps);
      NoDup(l) && forall x :: x in l <==> IsLeaf(r.ranked, x)
  {
    LeavesSpec(r.ranked, r.maps);
  }

  /** `get_next_rank_maps(amap)`: the highers of `amap`, duplicates
      removed, first occurrences kept in order; nothing when `amap` has no
      entry. */
  function NextRankMaps(deps: Table, amap: string): seq<string>
  {
    if amap in deps then AppendNew([], deps[amap]) else []
  }

  /** `get_next_rank_maps` lists each higher of `amap` once, in the order
      of their first occurrences. */
  lemma NextRankMapsSpec(deps: Table, amap: string)
    ensures var r := NextRankMaps(deps, amap);
      && NoDup(r)
      && (forall x :: x in r <==> HigherOf(deps, amap, x))
      && r == FirstOccurrences([], Lookup(deps, amap))
  {
    AppendNewIsFirstOccurrences([], Lookup(deps, amap));
    AppendNewSpec([], Lookup(deps, amap));
  }

  /** The concatenation of `get_next_rank_maps` over a tier. */
  function Gather(deps: Table, tier: seq<string>): seq<string>
  {
    if tier == [] then [] else NextRankMaps(deps, tier[0]) + Gather(deps, tier[1..])
  }

  /** The gathered names are exactly the highers of the tier's maps. */
  lemma {:induction false} GatherReaches(deps: Table, tier: seq<string>)
    ensures forall x :: x in Gather(deps, tier) <==> Reaches(deps, tier, x)
  {
    if tier != [] {
      GatherReaches(deps, tier[1..]);
      NextRankMapsSpec(deps, tier[0]);
      forall x ensures Reaches(deps, tier, x) <==> HigherOf(deps, tier[0], x) || Reaches(deps, tier[1..], x) {
        if Reaches(deps, tier, x) {
          var y :| y in tier && HigherOf(deps, y, x);
          assert y == tier[0] || y in tier[1..];
        }
        if Reaches(deps, tier[1..], x) {
          var y :| y in tier[1..] && HigherOf(deps, y, x);
          assert y in tier;
        }
        if HigherOf(deps, tier[0], x) {
          assert tier[0] in tier;
        }
      }
    }
  }

  /** The tier that follows `tier`: the order-preserving, duplicate-free
      union of the highers of its maps. */
  function Successors(deps: Table, tier: seq<string>): seq<string>
  {
    AppendNew([], Gather(deps, tier))
  }

  /** The next tier holds each higher of the tier's maps, once. */
  lemma SuccessorsReaches(deps: Table, tier: seq<string>)
    ensures NoDup(Successors(deps, tier))
    ensures forall x :: x in Successors(deps, tier) <==> Reaches(deps, tier, x)
  {
    GatherReaches(deps, tier);
    AppendNewSpec([], Gather(deps, tier));
  }

  /** The `k`-th level of the expansion from `first` (an empty level has
      empty successors). */
  function Frontier(deps: Table, first: seq<string>, k: nat): seq<string>
  {
    if k == 0 then first
    else
      var previous := Frontier(deps, first, k - 1);
      if previous == [] then [] else Successors(deps, previous)
  }

  /** The expansion from `first` reaches an empty level: the loops of
      `build_tiers` and `Quadrant.build` terminate. */
  ghost predicate Dies(deps: Table, first: seq<string>)
  {
    exists d: nat :: Frontier(deps, first, d) == []
  }

  /** The tier list both loops build: index 0 empty, index 1 the start,
      each next tier the successors of the one before, every tier after
      index 1 non-empty, and the successors of the last tier empty. */
  ghost predicate LevelOrder(deps: Table, tiers: seq<seq<string>>, first: seq<string>)
  {
    && |tiers| >= 2
    && tiers[0] == []
    && tiers[1] == first
    && (forall k :: 1 <= k < |tiers| - 1 ==> tiers[k + 1] == Successors(deps, tiers[k]))
    && (forall k :: 2 <= k < |tiers| ==> tiers[k] != [])
    && Successors(deps, tiers[|tiers| - 1]) == []
  }

  /** Once a level is empty, every later level is empty. */
  lemma {:induction false} FrontierStaysEmpty(deps: Table, first: seq<string>, j: nat, k: nat)
    requires Frontier(deps, first, j) == []
    ensures j <= k ==> Frontier(deps, first, k) == []
    decreases k
  {
    if j < k {
      FrontierStaysEmpty(deps, first, j, k - 1);
    }
  }

  /** An empty tier has no successors. */
  lemma SuccessorsOfEmpty(deps: Table)
    ensures Successors(deps, []) == []
  {
  }

  /** The tier list while either loop runs: index 0 empty, index 1 the
      start, each next tier the successors of the one before, every tier
      after index 1 non-empty. */
  ghost predicate Levels(deps: Table, tiers: seq<seq<string>>, first: seq<string>)
  {
    && |tiers| >= 2
    && tiers[0] == []
    && tiers[1] == first
    && (forall k :: 1 <= k < |tiers| - 1 ==> tiers[k + 1] == Successors(deps, tiers[k]))
    && (forall k :: 2 <= k < |tiers| ==> tiers[k] != [])
  }

  /** Tier `k` of such a tier list is the `k - 1`-th level of the
      expansion. */
  lemma {:induction false} LevelsIsFrontier(deps: Table, tiers: seq<seq<string>>, first: seq<string>, k: nat)
    requires Levels(deps, tiers, first)
    requires 1 <= k < |tiers|
    ensures tiers[k] == Frontier(deps, first, k - 1)
  {
    if k > 1 {
      LevelsIsFrontier(deps, tiers, first, k - 1);
      SuccessorsOfEmpty(deps);
    }
  }

  /** Appending the successors of the last tier, when there are any, keeps
      the shape. */
  lemma LevelsGrow(deps: Table, tiers: seq<seq<string>>, first: seq<string>)
    requires Levels(deps, tiers, first)
    requires Successors(deps, tiers[|tiers| - 1]) != []
    ensures Levels(deps, tiers + [Successors(deps, tiers[|tiers| - 1])], first)
  {
  }

  /** When the successors of the last tier are empty, the tier list is
      complete. */
  lemma LevelsEnd(deps: Table, tiers: seq<seq<string>>, first: seq<string>)
    requires Levels(deps, tiers, first)
    requires Successors(deps, tiers[|tiers| - 1]) == []
    ensures LevelOrder(deps, tiers, first)
  {
  }

  /** While the last tier still has successors, the expansion has not died
      out at level `|tiers| - 1`; so if it dies at level `d`, fewer than
      `d + 1` tiers are ever built. */
  lemma LevelsBound(deps: Table, tiers: seq<seq<string>>, first: seq<string>, d: nat)
    requires Levels(deps, tiers, first)
    requires Frontier(deps, first, d) == []
    requires Successors(deps, tiers[|tiers| - 1]) != []
    ensures |tiers| <= d
  {
    LevelsIsFrontier(deps, tiers, first, |tiers| - 1);
    SuccessorsOfEmpty(deps);
    assert Frontier(deps, first, |tiers| - 1) != [];
    FrontierStaysEmpty(deps, first, d, |tiers| - 1);
  }

  /** Tier `k` of a level-order tier list is the `k - 1`-th level of the
      expansion. */
  lemma LevelOrderIsFrontier(deps: Table, tiers: seq<seq<string>>, first: seq<string>, k: nat)
    requires LevelOrder(deps, tiers, first)
    requires 1 <= k < |tiers|
    ensures tiers[k] == Frontier(deps, first, k - 1)
  {
    LevelsIsFrontier(deps, tiers, first, k);
  }

  /** Levels `1 .. |tiers| - 2` of the expansion are the non-empty tiers
      `2 .. |tiers| - 1`. */
  lemma LevelOrderNonEmpty(deps: Table, tiers: seq<seq<string>>, first: seq<string>, j: nat)
    requires LevelOrder(deps, tiers, first)
    requires 1 <= j < |tiers| - 1
    ensures Frontier(deps, first, j) != []
  {
    LevelOrderIsFrontier(deps, tiers, first, j + 1);
  }

  /** The length of a level-order tier list: the expansion is non-empty up
      to level `|tiers| - 2` and empty at level `|tiers| - 1`. */
  lemma LevelOrderEnds(deps: Table, tiers: seq<seq<string>>, first: seq<string>)
    requires LevelOrder(deps, tiers, first)
    ensures Frontier(deps, first, |tiers| - 1) == []
    ensures forall j :: 1 <= j < |tiers| - 1 ==> Frontier(deps, first, j) != []
  {
    LevelOrderIsFrontier(deps, tiers, first, |tiers| - 1);
    forall j | 1 <= j < |tiers| - 1 ensures Frontier(deps, first, j) != [] {
      LevelOrderNonEmpty(deps, tiers, first, j);
    }
  }

  /** Determinism: the tier list is fixed by the table and the start. */
  lemma LevelOrderUnique(deps: Table, t1: seq<seq<string>>, t2: seq<seq<string>>, first: seq<string>)
    requires LevelOrder(deps, t1, first) && LevelOrder(deps, t2, first)
    ensures t1 == t2
  {
    LevelOrderEnds(deps, t1, first);
    LevelOrderEnds(deps, t2, first);
    assert |t1| <= |t2|;
    assert |t2| <= |t1|;
    forall k | 1 <= k < |t1| ensures t1[k] == t2[k] {
      LevelOrderIsFrontier(deps, t1, first, k);
      LevelOrderIsFrontier(deps, t2, first, k);
    }
  }

  /** A map `x` is in tier `k + 1` exactly when some map of tier `k` lists
      it as a higher; the same map can therefore sit in several tiers. */
  lemma LevelOrderStep(deps: Table, tiers: seq<seq<string>>, first: seq<string>, k: nat, x: string)
    requires LevelOrder(deps, tiers, first)
    requires 1 <= k < |tiers| - 1
    ensures x in tiers[k + 1] <==> exists y :: y in tiers[k] && HigherOf(deps, y, x)
  {
    SuccessorsReaches(deps, tiers[k]);
  }

  /** A height that strictly decreases from every map to each of its
      highers: the ranked table is acyclic. */
  ghost predicate Layered(deps: Table, height: map<string, nat>)
  {
    forall a :: a in deps ==> a in height && forall b :: b in deps[a] ==> b in height && height[b] < height[a]
  }

  /** A tier none of whose maps has an entry in the table has no
      successors. */
  lemma {:induction false} GatherOutside(deps: Table, tier: seq<string>)
    requires forall y :: y in tier ==> y !in deps
    ensures Gather(deps, tier) == []
  {
    if tier != [] {
      assert tier[0] in tier;
      assert forall y :: y in tier[1..] ==> y in tier;
      GatherOutside(deps, tier[1..]);
    }
  }

  /** One level of the expansion lowers the height bound by one. */
  lemma SuccessorsBelow(deps: Table, height: map<string, nat>, tier: seq<string>, h: int)
    requires Layered(deps, height)
    requires forall y :: y in tier && y in deps ==> height[y] < h
    ensures forall x :: x in Successors(deps, tier) && x in deps ==> height[x] < h - 1
  {
    SuccessorsReaches(deps, tier);
    forall x | x in Successors(deps, tier) && x in deps ensures height[x] < h - 1 {
      var y :| y in tier && HigherOf(deps, y, x);
    }
  }

  /** The maps of level `k` that have an entry have a height below
      `bound - k`. */
  lemma {:induction false} FrontierBelow(deps: Table, height: map<string, nat>, bound: nat,
                                         first: seq<string>, k: nat)
    requires Layered(deps, height)
    requires forall a :: a in deps ==> height[a] < bound
    ensures forall x :: x in Frontier(deps, first, k) && x in deps ==> height[x] + k < bound
  {
    if k > 0 {
      var previous := Frontier(deps, first, k - 1);
      FrontierBelow(deps, height, bound, first, k - 1);
      SuccessorsBelow(deps, height, previous, bound - (k - 1));
    }
  }

  /** Acyclic input terminates: with heights below `bound`, the expansion
      from any start is empty after `bound + 1` levels. */
  lemma LayeredDies(deps: Table, height: map<string, nat>, bound: nat, first: seq<string>)
    requires Layered(deps, height)
    requires forall a :: a in deps ==> height[a] < bound
    ensures Frontier(deps, first, bound + 1) == []
  {
    var f := Frontier(deps, first, bound);
    FrontierBelow(deps, height, bound, first, bound);
    forall y | y in f ensures y !in deps {
    }
    GatherOutside(deps, f);
  }

  /** A name can appear in several tiers: `a` lists `b` and `c`, and `b`
      lists `c`, so `c` is in tiers 2 and 3. */
  lemma RevisitExample()
    ensures var deps := map["a" := ["b", "c"], "b" := ["c"]];
      LevelOrder(deps, [[], ["a"], ["b", "c"], ["c"]], ["a"])
  {
    var deps := map["a" := ["b", "c"], "b" := ["c"]];
    assert AppendNew(["b", "c"], []) == ["b", "c"];
    assert AppendNew(["b"], ["c"]) == ["b", "c"];
    assert NextRankMaps(deps, "a") == ["b", "c"];
    assert Gather(deps, ["a"]) == ["b", "c"];
    assert AppendNew(["c"], []) == ["c"];
    assert NextRankMaps(deps, "b") == ["c"];
    assert NextRankMaps(deps, "c") == [];
    assert Gather(deps, ["c"]) == [];
    assert Gather(deps, ["b", "c"]) == ["c"];
    assert AppendNew(["c"], ["c"]) == ["c"];
  }

  /** A cycle that no root reaches never enters the tiers: `a` and `b`
      list each other, so neither is a root, the leaves are empty and the
      tier list is `[[], []]`. */
  lemma UnreachableCycleExample()
    ensures var deps := map["a" := ["b"], "b" := ["a"]];
      && Leaves(deps, ["a", "b"]) == []
      && LevelOrder(deps, [[], []], [])
  {
    var deps := map["a" := ["b"], "b" := ["a"]];
    assert !IsLeaf(deps, "a") by {
      assert "a" in deps["b"];
    }
    assert !IsLeaf(deps, "b") by {
      assert "b" in deps["a"];
    }
    assert Leaves(deps, ["a", "b"]) == Leaves(deps, ["b"]) by {
      assert ["a", "b"][1..] == ["b"];
    }
    assert Successors(deps, []) == [];
  }

  /** A cycle that a root reaches makes every level non-empty, so the tier
      loops never end: `r` lists `a`, and `a` and `b` list each other. */
  lemma ReachableCycleExample()
    ensures var deps := map["r" := ["a"], "a" := ["b"], "b" := ["a"]];
      && Leaves(deps, ["r", "a", "b"]) == ["r"]
      && !Dies(deps, ["r"])
  {
    var deps := map["r" := ["a"], "a" := ["b"], "b" := ["a"]];
    assert IsLeaf(deps, "r");
    assert !IsLeaf(deps, "a") by {
      assert "a" in deps["b"];
    }
    assert !IsLeaf(deps, "b") by {
      assert "b" in deps["a"];
    }
    assert ["r", "a", "b"][1..] == ["a", "b"];
    assert ["a", "b"][1..] == ["b"];
    forall d: nat ensures Frontier(deps, ["r"], d) != [] {
      CycleFrontier(d);
    }
  }

  /** The levels of the expansion in `ReachableCycleExample`. */
  lemma {:induction false} CycleFrontier(k: nat)
    ensures var deps := map["r" := ["a"], "a" := ["b"], "b" := ["a"]];
      Frontier(deps, ["r"], k) == if k == 0 then ["r"] else if k % 2 == 1 then ["a"] else ["b"]
  {
    var deps := map["r" := ["a"], "a" := ["b"], "b" := ["a"]];
    if k > 0 {
      CycleFrontier(k - 1);
      assert AppendNew([], ["a"]) == ["a"];
      assert AppendNew([], ["b"]) == ["b"];
      assert Gather(deps, ["r"]) == ["a"];
      assert Gather(deps, ["a"]) == ["b"];
      assert Gather(deps, ["b"]) == ["a"];
    }
  }
}
