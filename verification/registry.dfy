/** The state `Maps` builds while reading the input (map_generator.py,
    `Maps.add_maps`, `add_*_dependency`, `read_file`), as values: the
    ordered list of map names and the three dependency tables. */
module Registry {
  import opened Wrappers
  import opened LineParser

  /** A name -> list-of-names dictionary (`deps_ranked`, `deps_floating`,
      `deps_invisible`). */
  type Table = map<string, seq<string>>

  predicate NoDup(s: seq<string>)
  {
    forall i, j :: 0 <= i < j < |s| ==> s[i] != s[j]
  }

  /** The list under `key`, or the empty list when there is none. */
  function Lookup(t: Table, key: string): seq<string>
  {
    if key in t then t[key] else []
  }

  /** The effect of appending, one by one, every name of `names` that the
      list does not hold yet (the loop of `add_maps`, and the de-duplicating
      loops of `get_next_rank_maps` and `build_tiers`). */
  function AppendNew(acc: seq<string>, names: seq<string>): seq<string>
    decreases |names|
  {
    if names == [] then acc
    else AppendNew(if names[0] in acc then acc else acc + [names[0]], names[1..])
  }

  /** `AppendNew` keeps `acc` as a prefix, holds exactly the names of `acc`
      and `names`, and adds no duplicate. */
  lemma {:induction false} AppendNewSpec(acc: seq<string>, names: seq<string>)
    ensures var r := AppendNew(acc, names);
      && |acc| <= |r| && r[..|acc|] == acc
      && (forall x {:trigger x in r} :: x in r <==> x in acc || x in names)
      && (NoDup(acc) ==> NoDup(r))
    decreases |names|
  {
    if names != [] {
      var acc' := if names[0] in acc then acc else acc + [names[0]];
      AppendNewSpec(acc', names[1..]);
      var r := AppendNew(acc', names[1..]);
      assert r[..|acc|] == r[..|acc'|][..|acc|];
      assert forall x :: x in names <==> x == names[0] || x in names[1..];
    }
  }

  /** Reference definition: the entries of `names` that are neither in
      `acc` nor earlier in `names`, in their order in `names`. */
  function FirstOccurrences(acc: seq<string>, names: seq<string>): seq<string>
  {
    if names == [] then []
    else
      var init := names[..|names| - 1];
      var x := names[|names| - 1];
      FirstOccurrences(acc, init) + (if x in acc || x in init then [] else [x])
  }

  lemma {:induction false} AppendNewSnoc(acc: seq<string>, names: seq<string>, x: string)
    ensures AppendNew(acc, names + [x])
            == var a := AppendNew(acc, names); if x in a then a else a + [x]
    decreases |names|
  {
    if names == [] {
      assert names + [x] == [x];
      assert [x][1..] == [];
    } else {
      assert (names + [x])[0] == names[0];
      assert (names + [x])[1..] == names[1..] + [x];
      var acc' := if names[0] in acc then acc else acc + [names[0]];
      AppendNewSnoc(acc', names[1..], x);
    }
  }

  /** `AppendNew` keeps what was there and adds each new name once, at its
      first occurrence, in order. */
  lemma {:induction false} AppendNewIsFirstOccurrences(acc: seq<string>, names: seq<string>)
    ensures AppendNew(acc, names) == acc + FirstOccurrences(acc, names)
    decreases |names|
  {
    if names != [] {
      var init := names[..|names| - 1];
      var x := names[|names| - 1];
      assert names == init + [x];
      AppendNewSnoc(acc, init, x);
      AppendNewSpec(acc, init);
      AppendNewIsFirstOccurrences(acc, init);
    }
  }

  /** One step of the "append if absent" loop over `names` from index
      `i`. */
  lemma AppendNewStep(acc: seq<string>, names: seq<string>, i: nat)
    requires i < |names|
    ensures AppendNew(if names[i] in acc then acc else acc + [names[i]], names[i + 1..])
         == AppendNew(acc, names[i..])
  {
    assert names[i..][0] == names[i] && names[i..][1..] == names[i + 1..];
  }

  /** Appending `a + b` is appending `a`, then `b`. */
  lemma {:induction false} AppendNewConcat(acc: seq<string>, a: seq<string>, b: seq<string>)
    ensures AppendNew(acc, a + b) == AppendNew(AppendNew(acc, a), b)
    decreases |a|
  {
    if a == [] {
      assert a + b == b;
    } else {
      assert (a + b)[0] == a[0];
      assert (a + b)[1..] == a[1..] + b;
      AppendNewConcat(if a[0] in acc then acc else acc + [a[0]], a[1..], b);
    }
  }

  /** Appending names that are all present already changes nothing. */
  lemma {:induction false} AppendNewPresent(acc: seq<string>, names: seq<string>)
    requires forall x :: x in names ==> x in acc
    ensures AppendNew(acc, names) == acc
    decreases |names|
  {
    if names != [] {
      assert names[0] in acc;
      AppendNewPresent(acc, names[1..]);
    }
  }

  /** The table after `add_*_dependency(lower, highers)`: the list under
      `lower` is its previous list (or nothing) followed by `highers`,
      without de-duplication, and every other key is unchanged. */
  function Extended(t: Table, lower: string, highers: seq<string>): (r: Table)
    ensures r.Keys == t.Keys + {lower}
    ensures r[lower] == Lookup(t, lower) + highers
    ensures forall k :: k in t && k != lower ==> r[k] == t[k]
  {
    t[lower := Lookup(t, lower) + highers]
  }

  /** The parsed input: `maps` and the three tables. */
  datatype Registry = Registry(maps: seq<string>, ranked: Table, floating: Table, invisible: Table)

  /** The state of a fresh `Maps()`. */
  const Empty := Registry([], map[], map[], map[])

  /** `add_maps([lower])` followed by `add_maps(highers)`. */
  function Register(maps: seq<string>, d: Directive): seq<string>
  {
    AppendNew(AppendNew(maps, [d.lower]), d.highers)
  }

  /** Every name in a table, key or listed, is in `maps`. */
  ghost predicate TableRegistered(t: Table, maps: seq<string>)
  {
    forall k :: k in t ==> k in maps && forall h :: h in t[k] ==> h in maps
  }

  /** The invariant `read_file` keeps: `maps` is duplicate-free and holds
      every name any table mentions. */
  ghost predicate Consistent(r: Registry)
  {
    && NoDup(r.maps)
    && TableRegistered(r.ranked, r.maps)
    && TableRegistered(r.floating, r.maps)
    && TableRegistered(r.invisible, r.maps)
  }

  /** Which of the three tables a directive feeds. */
  datatype Kind = Ranked | Floating | Invisible

  function TableOf(r: Registry, k: Kind): Table
  {
    match k
    case Ranked => r.ranked
    case Floating => r.floating
    case Invisible => r.invisible
  }

  function WithTable(r: Registry, k: Kind, t: Table): Registry
  {
    match k
    case Ranked => r.(ranked := t)
    case Floating => r.(floating := t)
    case Invisible => r.(invisible := t)
  }

  /** The directive of kind `k` a line carries (the search for its pattern). */
  function DirectiveOf(k: Kind, line: string): Option<Directive>
  {
    match k
    case Ranked => RankedDirective(line)
    case Floating => FloatingDirective(line)
    case Invisible => InvisibleDirective(line)
  }

  /** One matched search: `add_*_dependency(lower, highers)`, then
      `add_maps([lower])`, then `add_maps(highers)`. */
  function Apply(r: Registry, k: Kind, found: Option<Directive>): Registry
  {
    match found
    case None => r
    case Some(d) => WithTable(r, k, Extended(TableOf(r, k), d.lower, d.highers)).(maps := Register(r.maps, d))
  }

  /** The body of the `read_file` loop for one line. `None` when the line
      holds `=`: the source then assigns to an undefined global `aliases`
      and the read stops with an exception. Otherwise the ranked, floating
      and invisible searches are each applied, in that order. */
  function ApplyLine(r: Registry, line: string): (o: Option<Registry>)
    ensures o.None? <==> !IsSkipped(line) && IsAlias(line)
    ensures IsSkipped(line) ==> o == Some(r)
  {
    if IsSkipped(line) then Some(r)
    else if IsAlias(line) then None
    else Some(ApplyFound(r, RankedDirective(line), FloatingDirective(line), InvisibleDirective(line)))
  }

  /** The ranked, floating and invisible matches of one line applied in
      that order. */
  function ApplyFound(r: Registry, ranked: Option<Directive>, floating: Option<Directive>,
                      invisible: Option<Directive>): Registry
  {
    Apply(Apply(Apply(r, Ranked, ranked), Floating, floating), Invisible, invisible)
  }

  /** Picks the match of kind `k` among the three. */
  function Pick(k: Kind, ranked: Option<Directive>, floating: Option<Directive>,
                invisible: Option<Directive>): Option<Directive>
  {
    match k
    case Ranked => ranked
    case Floating => floating
    case Invisible => invisible
  }

  /** The `read_file` loop over all lines: the state reached and whether
      every line was read (false when a line stopped the read). */
  function ApplyLines(r: Registry, lines: seq<string>): (Registry, bool)
    decreases |lines|
  {
    if lines == [] then (r, true)
    else
      match ApplyLine(r, lines[0])
      case None => (r, false)
      case Some(r') => ApplyLines(r', lines[1..])
  }

  /** The read completes exactly when no line other than a blank or
      comment line holds `=`. */
  lemma {:induction false} ApplyLinesCompletes(r: Registry, lines: seq<string>)
    ensures ApplyLines(r, lines).1 <==> forall i :: 0 <= i < |lines| ==> IsSkipped(lines[i]) || !IsAlias(lines[i])
    decreases |lines|
  {
    if lines != [] {
      match ApplyLine(r, lines[0])
      case None =>
      case Some(r') =>
        ApplyLinesCompletes(r', lines[1..]);
        assert forall i :: 1 <= i < |lines| ==> lines[i] == lines[1..][i - 1];
    }
  }

  /** `Register` keeps the old list as a prefix and adds both sides of the
      directive. */
  lemma RegisterAdds(maps: seq<string>, d: Directive)
    ensures |maps| <= |Register(maps, d)| && Register(maps, d)[..|maps|] == maps
    ensures forall x :: x in Register(maps, d) <==> x in maps || x == d.lower || x in d.highers
    ensures NoDup(maps) ==> NoDup(Register(maps, d))
  {
    var a := AppendNew(maps, [d.lower]);
    AppendNewSpec(maps, [d.lower]);
    AppendNewSpec(a, d.highers);
    assert a[..|maps|] == maps;
    assert Register(maps, d)[..|a|] == a;
    assert Register(maps, d)[..|maps|] == a[..|maps|];
  }

  lemma ExtendedRegistered(t: Table, maps: seq<string>, d: Directive)
    requires TableRegistered(t, maps)
    ensures TableRegistered(Extended(t, d.lower, d.highers), Register(maps, d))
  {
    RegisterAdds(maps, d);
    var t' := Extended(t, d.lower, d.highers);
    var m' := Register(maps, d);
    forall k | k in t' ensures k in m' && forall h :: h in t'[k] ==> h in m' {
      if k == d.lower {
        forall h | h in t'[k] ensures h in m' {
          assert h in Lookup(t, k) || h in d.highers;
        }
      } else {
        assert t'[k] == t[k];
      }
    }
  }

  /** One matched search: its table grows under the left name and the
      other tables stay as they were. */
  lemma ApplyTables(r: Registry, k: Kind, found: Option<Directive>)
    ensures var r' := Apply(r, k, found);
      && (forall k' :: k' != k ==> TableOf(r', k') == TableOf(r, k'))
      && (found.None? ==> r' == r)
      && (found.Some? ==> TableOf(r', k) == Extended(TableOf(r, k), found.value.lower, found.value.highers))
  {
  }

  /** One matched search: `maps` keeps its entries in order and gains both
      sides of the directive. */
  lemma ApplyMaps(r: Registry, k: Kind, found: Option<Directive>)
    ensures var m' := Apply(r, k, found).maps;
      && |r.maps| <= |m'| && m'[..|r.maps|] == r.maps
      && (forall x :: x in m' <==> x in r.maps || Found(found, x))
      && (NoDup(r.maps) ==> NoDup(m'))
  {
    if found.Some? {
      RegisterAdds(r.maps, found.value);
      assert Apply(r, k, found).maps == Register(r.maps, found.value) by {
        match k { case Ranked => case Floating => case Invisible => }
      }
    }
  }

  lemma ApplyConsistent(r: Registry, k: Kind, found: Option<Directive>)
    requires Consistent(r)
    ensures Consistent(Apply(r, k, found))
  {
    if found.Some? {
      var d := found.value;
      var r' := Apply(r, k, found);
      ApplyTables(r, k, found);
      ApplyMaps(r, k, found);
      ExtendedRegistered(TableOf(r, k), r.maps, d);
      forall k' | k' != k ensures TableRegistered(TableOf(r', k'), r'.maps) {
        assert TableRegistered(TableOf(r, k'), r.maps) by {
          match k' { case Ranked => case Floating => case Invisible => }
        }
      }
      match k { case Ranked => case Floating => case Invisible => }
    }
  }

  /** One line of `read_file` keeps the registry consistent. */
  lemma {:induction false} ApplyLineConsistent(r: Registry, line: string)
    requires Consistent(r)
    requires ApplyLine(r, line).Some?
    ensures Consistent(ApplyLine(r, line).value)
  {
    if !IsSkipped(line) {
      var r1 := Apply(r, Ranked, RankedDirective(line));
      var r2 := Apply(r1, Floating, FloatingDirective(line));
      assert ApplyLine(r, line).value == Apply(r2, Invisible, InvisibleDirective(line));
      ApplyConsistent(r, Ranked, RankedDirective(line));
      ApplyConsistent(r1, Floating, FloatingDirective(line));
      ApplyConsistent(r2, Invisible, InvisibleDirective(line));
    }
  }

  /** Reading any sequence of lines keeps the registry consistent: `maps`
      stays duplicate-free and names every name of every table. */
  lemma {:induction false} ApplyLinesConsistent(r: Registry, lines: seq<string>)
    requires Consistent(r)
    ensures Consistent(ApplyLines(r, lines).0)
    decreases |lines|
  {
    if lines != [] && ApplyLine(r, lines[0]).Some? {
      ApplyLineConsistent(r, lines[0]);
      ApplyLinesConsistent(ApplyLine(r, lines[0]).value, lines[1..]);
    }
  }

  /** The three matches of a line, applied in order: `maps` keeps its
      entries in order and gains the names of the matches and nothing
      else. */
  lemma ApplyFoundMaps(r: Registry, fr: Option<Directive>, ff: Option<Directive>, fi: Option<Directive>)
    ensures var r' := ApplyFound(r, fr, ff, fi);
      && |r.maps| <= |r'.maps| && r'.maps[..|r.maps|] == r.maps
      && (forall x :: x in r'.maps <==> x in r.maps || Found(fr, x) || Found(ff, x) || Found(fi, x))
      && (NoDup(r.maps) ==> NoDup(r'.maps))
  {
    var r1 := Apply(r, Ranked, fr);
    var r2 := Apply(r1, Floating, ff);
    var r3 := Apply(r2, Invisible, fi);
    ApplyMaps(r, Ranked, fr);
    ApplyMaps(r1, Floating, ff);
    ApplyMaps(r2, Invisible, fi);
    assert r3.maps[..|r1.maps|] == r2.maps[..|r1.maps|];
    assert r3.maps[..|r.maps|] == r1.maps[..|r.maps|];
  }

  /** The three matches of a line, applied in order: each table grows by
      its own match only. */
  lemma ApplyFoundTables(r: Registry, fr: Option<Directive>, ff: Option<Directive>, fi: Option<Directive>, k: Kind)
    ensures var r' := ApplyFound(r, fr, ff, fi);
      TableOf(r', k) == match Pick(k, fr, ff, fi)
                        case None => TableOf(r, k)
                        case Some(d) => Extended(TableOf(r, k), d.lower, d.highers)
  {
    var r1 := Apply(r, Ranked, fr);
    var r2 := Apply(r1, Floating, ff);
    ApplyTables(r, Ranked, fr);
    ApplyTables(r1, Floating, ff);
    ApplyTables(r2, Invisible, fi);
  }

  /** What a line does: blank and comment lines change nothing; a line
      with `=` stops the read; otherwise each table whose pattern matches
      has the trimmed right-hand names appended under the trimmed left
      name, the tables whose pattern does not match are unchanged, and
      `maps` keeps its entries in order and gains both sides of each
      matched directive and nothing else. */
  lemma ApplyLineEffect(r: Registry, line: string)
    ensures IsSkipped(line) ==> ApplyLine(r, line) == Some(r)
    ensures !IsSkipped(line) && IsAlias(line) ==> ApplyLine(r, line).None?
    ensures !IsSkipped(line) && !IsAlias(line) ==>
      && ApplyLine(r, line).Some?
      && var r' := ApplyLine(r, line).value;
      && |r.maps| <= |r'.maps| && r'.maps[..|r.maps|] == r.maps
      && (forall k :: DirectiveOf(k, line).None? ==> TableOf(r', k) == TableOf(r, k))
      && (forall k :: DirectiveOf(k, line).Some? ==>
            var d := DirectiveOf(k, line).value;
            TableOf(r', k) == Extended(TableOf(r, k), d.lower, d.highers))
      && (forall x :: x in r'.maps <==>
            x in r.maps || Found(RankedDirective(line), x) || Found(FloatingDirective(line), x)
            || Found(InvisibleDirective(line), x))
      && (NoDup(r.maps) ==> NoDup(r'.maps))
  {
    if !IsSkipped(line) && !IsAlias(line) {
      var fr, ff, fi := RankedDirective(line), FloatingDirective(line), InvisibleDirective(line);
      ApplyFoundMaps(r, fr, ff, fi);
      assert forall k :: DirectiveOf(k, line) == Pick(k, fr, ff, fi);
      forall k ensures var d := DirectiveOf(k, line);
        TableOf(ApplyLine(r, line).value, k) == if d.None? then TableOf(r, k)
                                                else Extended(TableOf(r, k), d.value.lower, d.value.highers)
      {
        ApplyFoundTables(r, fr, ff, fi, k);
      }
    }
  }

  /** The directive names `x`, on its left or its right side. */
  predicate Mentions(d: Directive, x: string)
  {
    x == d.lower || x in d.highers
  }

  /** A search matched and its directive names `x`. */
  predicate Found(found: Option<Directive>, x: string)
  {
    found.Some? && Mentions(found.value, x)
  }

  /** Reading lines never removes a name from `maps`. */
  lemma {:induction false} ApplyLinesKeepsNames(r: Registry, lines: seq<string>, x: string)
    requires x in r.maps
    ensures x in ApplyLines(r, lines).0.maps
    decreases |lines|
  {
    if lines != [] && ApplyLine(r, lines[0]).Some? {
      ApplyLineEffect(r, lines[0]);
      ApplyLinesKeepsNames(ApplyLine(r, lines[0]).value, lines[1..], x);
    }
  }

  /** A line that is read puts both sides of each of its directives into
      `maps`. */
  lemma ApplyLineRegisters(r: Registry, line: string)
    requires !IsSkipped(line) && !IsAlias(line)
    ensures ApplyLine(r, line).Some?
    ensures forall k, x :: Found(DirectiveOf(k, line), x) ==> x in ApplyLine(r, line).value.maps
  {
    ApplyLineEffect(r, line);
    forall k, x | Found(DirectiveOf(k, line), x)
      ensures x in ApplyLine(r, line).value.maps
    {
      assert Found(RankedDirective(line), x) || Found(FloatingDirective(line), x)
             || Found(InvisibleDirective(line), x) by {
        match k { case Ranked => case Floating => case Invisible => }
      }
    }
  }

  /** A name that a directive of line `i` mentions is still in `maps`
      once every line has been read. */
  lemma {:induction false} ApplyLinesKeepsFound(r: Registry, lines: seq<string>, i: nat, k: Kind, x: string)
    requires ApplyLines(r, lines).1 && i < |lines|
    ensures !IsSkipped(lines[i]) && Found(DirectiveOf(k, lines[i]), x) ==> x in ApplyLines(r, lines).0.maps
    decreases |lines|
  {
    if !IsSkipped(lines[i]) && Found(DirectiveOf(k, lines[i]), x) {
      var r' := ApplyLine(r, lines[0]).value;
      if i == 0 {
        assert x in r'.maps by { ApplyLineRegisters(r, lines[0]); }
        ApplyLinesKeepsNames(r', lines[1..], x);
      } else {
        assert lines[1..][i - 1] == lines[i];
        ApplyLinesKeepsFound(r', lines[1..], i - 1, k, x);
      }
    }
  }

  /** After a complete read, `maps` holds every name on either side of a
      directive of any (non-comment) line, each exactly once. */
  lemma ApplyLinesRegistersNames(r: Registry, lines: seq<string>)
    requires Consistent(r)
    requires ApplyLines(r, lines).1
    ensures var m := ApplyLines(r, lines).0.maps;
      && NoDup(m)
      && forall i, k, x :: 0 <= i < |lines| && !IsSkipped(lines[i]) && Found(DirectiveOf(k, lines[i]), x) ==> x in m
  {
    ApplyLinesConsistent(r, lines);
    forall i, k, x | 0 <= i < |lines| && !IsSkipped(lines[i]) && Found(DirectiveOf(k, lines[i]), x)
      ensures x in ApplyLines(r, lines).0.maps
    {
      ApplyLinesKeepsFound(r, lines, i, k, x);
    }
  }
}
