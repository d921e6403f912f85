/** The stateful part of map_generator.py: the `Maps` object, whose methods
    append to its list of names and its three tables and grow its tier
    list, and the `Quadrant` object, which grows its own tier list from one
    root. Each method is proved against the value-level definitions of the
    other modules. */
module MapGenerator {
  import opened Wrappers
  import opened LineParser
  import opened Registry
  import opened Tiering

  /** `add_*_dependency` on one table: append each higher, one by one, to
      the list under `lower`, or store the list when there is none. */
  method AppendUnder(t: Table, lower: string, highers: seq<string>) returns (r: Table)
    ensures r == Extended(t, lower, highers)
  {
    if lower in t {
      var list := t[lower];
      var i := 0;
      while i < |highers|
        invariant 0 <= i <= |highers|
        invariant list == t[lower] + highers[..i]
      {
        assert highers[..i + 1] == highers[..i] + [highers[i]];
        list := list + [highers[i]];
        i := i + 1;
      }
      assert highers[..i] == highers;
      r := t[lower := list];
    } else {
      assert Lookup(t, lower) + highers == highers;
      r := t[lower := highers];
    }
  }

  /** A key of the table that occurs in none of its lists is a leaf. */
  lemma RootIsLeaf(deps: Table, notLeaves: set<string>, x: string)
    requires forall h :: h in notLeaves <==> exists a :: a in deps && h in deps[a]
    ensures x in deps.Keys - notLeaves <==> IsLeaf(deps, x)
  {
  }

  class Maps {
    var depsRanked: Table
    var depsFloating: Table
    var depsInvisible: Table
    var tiers: seq<seq<string>>
    var maps: seq<string>

    /** The names and tables as a value. */
    function Model(): Registry
      reads this
    {
      Registry(maps, depsRanked, depsFloating, depsInvisible)
    }

    /** `Maps()`: no names, empty tables, no tiers. */
    constructor ()
      ensures Model() == Empty && tiers == []
    {
      depsRanked := map[];
      depsFloating := map[];
      depsInvisible := map[];
      tiers := [];
      maps := [];
    }

    /** `add_maps(names)`: appends each name not yet present. */
    method AddMaps(names: seq<string>)
      modifies this`maps
      ensures maps == AppendNew(old(maps), names)
    {
      var i := 0;
      while i < |names|
        invariant 0 <= i <= |names|
        invariant AppendNew(maps, names[i..]) == AppendNew(old(maps), names)
      {
        AppendNewStep(maps, names, i);
        if names[i] !in maps {
          maps := maps + [names[i]];
        }
        i := i + 1;
      }
    }

    method AddRankedDependency(lower: string, highers: seq<string>)
      modifies this`depsRanked
      ensures depsRanked == Extended(old(depsRanked), lower, highers)
    {
      depsRanked := AppendUnder(depsRanked, lower, highers);
    }

    method AddFloatingDependency(lower: string, highers: seq<string>)
      modifies this`depsFloating
      ensures depsFloating == Extended(old(depsFloating), lower, highers)
    {
      depsFloating := AppendUnder(depsFloating, lower, highers);
    }

    method AddInvisibleDependency(lower: string, highers: seq<string>)
      modifies this`depsInvisible
      ensures depsInvisible == Extended(old(depsInvisible), lower, highers)
    {
      depsInvisible := AppendUnder(depsInvisible, lower, highers);
    }

    /** One pass of the `read_file` loop. False when the line holds `=`:
        the source then fails on the undefined global `aliases` before
        changing anything. */
    method ReadLine(line: string) returns (ok: bool)
      modifies this`maps, this`depsRanked, this`depsFloating, this`depsInvisible
      ensures ApplyLine(old(Model()), line) == if ok then Some(Model()) else None
      ensures !ok ==> Model() == old(Model())
    {
      if |line| == 0 || line[0] == '#' {
        return true;
      }
      if '=' in line {
        return false;
      }
      var ranked := RankedDirective(line);
      ReadDirective(Ranked, ranked);
      var floating := FloatingDirective(line);
      ReadDirective(Floating, floating);
      var invisible := InvisibleDirective(line);
      ReadDirective(Invisible, invisible);
      return true;
    }

    /** One matched search of `read_file`: `add_*_dependency(lower,
        highers)` on the table of its kind, then `add_maps([lower])`, then
        `add_maps(highers)`. */
    method ReadDirective(k: Kind, found: Option<Directive>)
      modifies this`maps, this`depsRanked, this`depsFloating, this`depsInvisible
      ensures Model() == Apply(old(Model()), k, found)
    {
      if found.Some? {
        var d := found.value;
        match k {
          case Ranked => AddRankedDependency(d.lower, d.highers);
          case Floating => AddFloatingDependency(d.lower, d.highers);
          case Invisible => AddInvisibleDependency(d.lower, d.highers);
        }
        AddMaps([d.lower]);
        AddMaps(d.highers);
      }
    }

    /** `read_file` on the lines of the input: reads every line, then builds
        the tiers. False when a line stopped the read (no tiers are built
        then). The tier loop terminates only if the ranked table read is
        acyclic from its roots, which the caller must provide. */
    method ReadFile(lines: seq<string>) returns (ok: bool)
      modifies this
      requires tiers == []
      requires var (r, done) := ApplyLines(Model(), lines);
        done ==> Dies(r.ranked, Leaves(r.ranked, r.maps))
      ensures (Model(), ok) == ApplyLines(old(Model()), lines)
      ensures ok ==> LevelOrder(depsRanked, tiers, Leaves(depsRanked, maps))
      ensures !ok ==> tiers == []
    {
      var i := 0;
      while i < |lines|
        invariant 0 <= i <= |lines|
        invariant ApplyLines(Model(), lines[i..]) == ApplyLines(old(Model()), lines)
        invariant tiers == []
      {
        assert lines[i..][0] == lines[i] && lines[i..][1..] == lines[i + 1..];
        ok := ReadLine(lines[i]);
        if !ok {
          return;
        }
        i := i + 1;
      }
      BuildTiers();
      ok := true;
    }

    /** `find_leaves(deps)`: the names of `maps`, in order, that are keys
        of `deps` and occur in none of its lists. */
    method FindLeaves(deps: Table) returns (leaves: seq<string>)
      ensures leaves == Leaves(deps, maps)
    {
      var notLeaves := set a, h | a in deps && h in deps[a] :: h;
      assert forall h :: h in notLeaves <==> exists a :: a in deps && h in deps[a];
      var roots := deps.Keys - notLeaves;
      leaves := [];
      var i := 0;
      while i < |maps|
        invariant 0 <= i <= |maps|
        invariant leaves == Leaves(deps, maps[..i])
      {
        assert maps[..i + 1] == maps[..i] + [maps[i]];
        LeavesAppend(deps, maps[..i], [maps[i]]);
        RootIsLeaf(deps, notLeaves, maps[i]);
        if maps[i] in roots {
          leaves := leaves + [maps[i]];
        }
        i := i + 1;
      }
      assert maps[..i] == maps;
    }

    /** `get_next_rank_maps(amap)`. */
    method GetNextRankMaps(amap: string) returns (nexts: seq<string>)
      ensures nexts == NextRankMaps(depsRanked, amap)
    {
      nexts := [];
      if amap in depsRanked {
        var highers := depsRanked[amap];
        var i := 0;
        while i < |highers|
          invariant 0 <= i <= |highers|
          invariant AppendNew(nexts, highers[i..]) == AppendNew([], highers)
        {
          AppendNewStep(nexts, highers, i);
          if highers[i] !in nexts {
            nexts := nexts + [highers[i]];
          }
          i := i + 1;
        }
      }
    }

    /** The body of the `build_tiers` loop for one tier: the highers of its
        maps, each once, in order of first occurrence. */
    method NextTier(currents: seq<string>) returns (nexts: seq<string>)
      ensures nexts == Successors(depsRanked, currents)
    {
      nexts := [];
      var i := 0;
      while i < |currents|
        invariant 0 <= i <= |currents|
        invariant AppendNew(nexts, Gather(depsRanked, currents[i..])) == Successors(depsRanked, currents)
      {
        assert currents[i..][0] == currents[i] && currents[i..][1..] == currents[i + 1..];
        var rest := Gather(depsRanked, currents[i + 1..]);
        var highers := GetNextRankMaps(currents[i]);
        var all := highers + rest;
        assert all[0..] == all;
        var j := 0;
        while j < |highers|
          invariant 0 <= j <= |highers|
          invariant AppendNew(nexts, all[j..]) == Successors(depsRanked, currents)
        {
          assert all[j] == highers[j];
          AppendNewStep(nexts, all, j);
          if highers[j] !in nexts {
            nexts := nexts + [highers[j]];
          }
          j := j + 1;
        }
        assert all[j..] == rest;
        i := i + 1;
      }
    }

    /** `build_tiers()`: tier 0 empty, tier 1 the roots, then one tier per
        non-empty successor set. Runs on a fresh tier list, and needs the
        expansion from the roots to die out. */
    method BuildTiers()
      modifies this`tiers
      requires tiers == []
      requires Dies(depsRanked, Leaves(depsRanked, maps))
      ensures LevelOrder(depsRanked, tiers, Leaves(depsRanked, maps))
    {
      var deps := depsRanked;
      var first := FindLeaves(deps);
      tiers := [[], first];
      ghost var d: nat :| Frontier(deps, first, d) == [];
      var tier := 1;
      while tier < |tiers|
        invariant deps == depsRanked
        invariant Levels(deps, tiers, first)
        invariant 1 <= tier <= |tiers| <= tier + 1
        invariant tier == |tiers| ==> Successors(deps, tiers[|tiers| - 1]) == []
        invariant |tiers| <= d + 2
        decreases d + 2 - tier
      {
        assert tiers[tier] == tiers[|tiers| - 1];
        var nexts := NextTier(tiers[tier]);
        if |nexts| > 0 {
          LevelsBound(deps, tiers, first, d);
          LevelsGrow(deps, tiers, first);
          tiers := tiers + [nexts];
        }
        tier := tier + 1;
      }
      assert deps == depsRanked && first == Leaves(depsRanked, maps);
      LevelsEnd(deps, tiers, first);
    }
  }

  /** A quadrant: the tiers reachable from one root. */
  class Quadrant {
    const maps: Maps
    const name: string
    const tier1Map: string
    var tiers: seq<seq<string>>

    /** `Quadrant(maps, name, tier1_map)`: builds the tier list at once. */
    constructor (maps: Maps, name: string, tier1Map: string)
      requires Dies(maps.depsRanked, [tier1Map])
      ensures this.maps == maps && this.name == name && this.tier1Map == tier1Map
      ensures LevelOrder(maps.depsRanked, tiers, [tier1Map])
    {
      this.maps := maps;
      this.name := name;
      this.tier1Map := tier1Map;
      tiers := [[]];
      new;
      Build();
    }

    /** The body of the `build` loop for one tier: the highers of its maps
        concatenated, then each kept once, in order of first occurrence. */
    method NextTier(currents: seq<string>) returns (nextsOrdered: seq<string>)
      ensures nextsOrdered == Successors(maps.depsRanked, currents)
    {
      var nexts := [];
      var i := 0;
      while i < |currents|
        invariant 0 <= i <= |currents|
        invariant nexts + Gather(maps.depsRanked, currents[i..]) == Gather(maps.depsRanked, currents)
      {
        assert currents[i..][0] == currents[i] && currents[i..][1..] == currents[i + 1..];
        var highers := maps.GetNextRankMaps(currents[i]);
        nexts := nexts + highers;
        i := i + 1;
      }
      assert nexts == Gather(maps.depsRanked, currents);
      nextsOrdered := [];
      var j := 0;
      while j < |nexts|
        invariant 0 <= j <= |nexts|
        invariant AppendNew(nextsOrdered, nexts[j..]) == AppendNew([], nexts)
      {
        AppendNewStep(nextsOrdered, nexts, j);
        if nexts[j] !in nextsOrdered {
          nextsOrdered := nextsOrdered + [nexts[j]];
        }
        j := j + 1;
      }
      assert nexts[j..] == [];
    }

    /** `build()`: appends the root's tier, then each successor set while
        it is non-empty. */
    method Build()
      modifies this`tiers
      requires tiers == [[]]
      requires Dies(maps.depsRanked, [tier1Map])
      ensures LevelOrder(maps.depsRanked, tiers, [tier1Map])
    {
      var deps := maps.depsRanked;
      var first := [tier1Map];
      tiers := tiers + [first];
      ghost var d: nat :| Frontier(deps, first, d) == [];
      var tier := 1;
      while true
        invariant deps == maps.depsRanked
        invariant Levels(deps, tiers, first)
        invariant 1 <= tier && |tiers| == tier + 1
        invariant |tiers| <= d + 2
        decreases d + 2 - |tiers|
      {
        var nextsOrdered := NextTier(tiers[tier]);
        assert nextsOrdered == Successors(deps, tiers[|tiers| - 1]);
        if |nextsOrdered| > 0 {
          LevelsBound(deps, tiers, first, d);
          LevelsGrow(deps, tiers, first);
          tiers := tiers + [nextsOrdered];
        } else {
          break;
        }
        tier := tier + 1;
      }
      LevelsEnd(deps, tiers, first);
    }
  }
}
