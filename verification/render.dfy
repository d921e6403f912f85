/** The text the generator prints (map_generator.py,
    `Quadrant.get_subgraph_str`, `Quadrant.get_same_ranks`,
    `Maps.get_floating_deps`, `Maps.get_invisible_deps`, the `list_maps`
    and `list_links` commands and the four-root check). Every serialiser is
    a list of lines; the string the source builds is `Unlines` of it. */
module Render {
  import opened Text
  import opened Registry
  import opened Tiering

  /** Each line followed by a newline: the string a serialiser builds with
      `str += ... + '\n'`. */
  function Unlines(lines: seq<string>): (s: string)
    ensures |s| >= |lines|
    ensures lines != [] ==> s[|s| - 1] == '\n'
    ensures |lines| == 1 ==> s == lines[0] + "\n"
  {
    if lines == [] then [] else lines[0] + "\n" + Unlines(lines[1..])
  }

  /** Building the string piece by piece: `Unlines` turns a concatenation of
      line lists into a concatenation of strings. */
  lemma {:induction false} UnlinesAppend(a: seq<string>, b: seq<string>)
    ensures Unlines(a + b) == Unlines(a) + Unlines(b)
    decreases |a|
  {
    if a == [] {
      assert a + b == b;
    } else {
      assert (a + b)[0] == a[0];
      assert (a + b)[1..] == a[1..] + b;
      UnlinesAppend(a[1..], b);
    }
  }

  /** `'"%s"' % x`. */
  function Quote(x: string): string
  {
    "\"" + x + "\""
  }

  /** `map(lambda x: '"%s"' % x, names)`. */
  function QuoteAll(names: seq<string>): (r: seq<string>)
    ensures |r| == |names|
    ensures forall i :: 0 <= i < |r| ==> r[i] == Quote(names[i])
  {
    if names == [] then [] else [Quote(names[0])] + QuoteAll(names[1..])
  }

  /** A tier inside a colour band: `'    ' + ' '.join(quoted names)`. */
  function TierLine(names: seq<string>): string
  {
    "    " + Join(" ", QuoteAll(names))
  }

  function Min(a: int, b: int): int
  {
    if a < b then a else b
  }

  /** A colour band: one line for each tier `lo <= k < hi` the quadrant has,
      in order (the loop breaks at the first missing tier). */
  function Band(tiers: seq<seq<string>>, lo: nat, hi: nat): (r: seq<string>)
    ensures |r| == if lo < Min(hi, |tiers|) then Min(hi, |tiers|) - lo else 0
    ensures forall i :: 0 <= i < |r| ==> r[i] == TierLine(tiers[lo + i])
    decreases hi - lo
  {
    if lo >= hi || lo >= |tiers| then [] else [TierLine(tiers[lo])] + Band(tiers, lo + 1, hi)
  }

  /** The white, yellow and red bands (tiers 1-5, 6-10, 11-16) together list
      tiers 1 to 16 once each, in order. */
  lemma {:induction false} BandsSplit(tiers: seq<seq<string>>, lo: nat, mid: nat, hi: nat)
    requires lo <= mid <= hi
    ensures Band(tiers, lo, mid) + Band(tiers, mid, hi) == Band(tiers, lo, hi)
    decreases mid - lo
  {
    if lo < mid && lo < |tiers| {
      var x := [TierLine(tiers[lo])];
      BandsSplit(tiers, lo + 1, mid, hi);
      assert Band(tiers, lo, mid) == x + Band(tiers, lo + 1, mid);
      assert Band(tiers, lo, hi) == x + Band(tiers, lo + 1, hi);
      assert (x + Band(tiers, lo + 1, mid)) + Band(tiers, mid, hi)
          == x + (Band(tiers, lo + 1, mid) + Band(tiers, mid, hi));
    }
  }

  /** The `{rank=same ...}` line of a tier. */
  function RankSameLine(names: seq<string>): string
  {
    "  {rank=same " + Join(" ", QuoteAll(names)) + "}"
  }

  /** The same-ranking block: one line for each tier `k <= 16` from `k`
      on. */
  function RankSame(tiers: seq<seq<string>>, k: nat): (r: seq<string>)
    ensures |r| == if k < Min(17, |tiers|) then Min(17, |tiers|) - k else 0
    ensures forall i :: 0 <= i < |r| ==> r[i] == RankSameLine(tiers[k + i])
    decreases 17 - k
  {
    if k >= 17 || k >= |tiers| then [] else [RankSameLine(tiers[k])] + RankSame(tiers, k + 1)
  }

  /** `(amap, higher)` for each higher in the list, duplicates kept. */
  function PairsOf(amap: string, highers: seq<string>): (r: seq<(string, string)>)
    ensures |r| == |highers|
    ensures forall i :: 0 <= i < |r| ==> r[i] == (amap, highers[i])
  {
    if highers == [] then [] else [(amap, highers[0])] + PairsOf(amap, highers[1..])
  }

  /** The edges of one tier: for each map with a ranked entry, one pair per
      entry of its list. */
  function TierPairs(deps: Table, tier: seq<string>): seq<(string, string)>
  {
    if tier == [] then []
    else (if tier[0] in deps then PairsOf(tier[0], deps[tier[0]]) else []) + TierPairs(deps, tier[1..])
  }

  /** The edges of the tiers from `k` on, tier by tier. */
  function EdgePairs(deps: Table, tiers: seq<seq<string>>, k: nat): seq<(string, string)>
    decreases |tiers| - k
  {
    if k >= |tiers| then [] else TierPairs(deps, tiers[k]) + EdgePairs(deps, tiers, k + 1)
  }

  /** `a` sits in some tier `k` with `lo <= k < |tiers|`. */
  ghost predicate InTiers(tiers: seq<seq<string>>, lo: nat, a: string)
  {
    exists k :: lo <= k < |tiers| && a in tiers[k]
  }

  lemma {:induction false} TierPairsMembers(deps: Table, tier: seq<string>, a: string, b: string)
    ensures (a, b) in TierPairs(deps, tier) <==> a in tier && HigherOf(deps, a, b)
  {
    if tier != [] {
      TierPairsMembers(deps, tier[1..], a, b);
      if tier[0] in deps && (a, b) in PairsOf(tier[0], deps[tier[0]]) {
        var i :| 0 <= i < |deps[tier[0]]| && PairsOf(tier[0], deps[tier[0]])[i] == (a, b);
        assert deps[tier[0]][i] == b;
      }
      if a == tier[0] && HigherOf(deps, a, b) {
        var i :| 0 <= i < |deps[a]| && deps[a][i] == b;
        assert PairsOf(a, deps[a])[i] == (a, b);
      }
      assert a in tier <==> a == tier[0] || a in tier[1..];
    }
  }

  /** `get_subgraph_str` draws an edge from `a` to `b` exactly when `a` is
      in one of the tiers from `lo` on and lists `b` among its ranked
      highers. */
  lemma {:induction false} EdgePairsMembers(deps: Table, tiers: seq<seq<string>>, lo: nat, a: string, b: string)
    ensures (a, b) in EdgePairs(deps, tiers, lo) <==> InTiers(tiers, lo, a) && HigherOf(deps, a, b)
    decreases |tiers| - lo
  {
    if lo < |tiers| {
      EdgePairsMembers(deps, tiers, lo + 1, a, b);
      TierPairsMembers(deps, tiers[lo], a, b);
      if InTiers(tiers, lo, a) {
        var k :| lo <= k < |tiers| && a in tiers[k];
        if k > lo {
          assert InTiers(tiers, lo + 1, a);
        }
      }
      if InTiers(tiers, lo + 1, a) {
        var k :| lo + 1 <= k < |tiers| && a in tiers[k];
        assert InTiers(tiers, lo, a);
      }
      if a in tiers[lo] {
        assert InTiers(tiers, lo, a);
      }
    }
  }

  /** `hdr + '"%s" -- "%s"\n'`, with the endpoints swapped when the ranking
      is inverted. */
  function EdgeLine(p: (string, string), invert: bool): string
  {
    if invert then "  " + Quote(p.1) + " -- " + Quote(p.0)
    else "  " + Quote(p.0) + " -- " + Quote(p.1)
  }

  function EdgeLines(pairs: seq<(string, string)>, invert: bool): (r: seq<string>)
    ensures |r| == |pairs|
    ensures forall i :: 0 <= i < |r| ==> r[i] == EdgeLine(pairs[i], invert)
  {
    if pairs == [] then [] else [EdgeLine(pairs[0], invert)] + EdgeLines(pairs[1..], invert)
  }

  /** Every pair with its endpoints exchanged. */
  function Swapped(pairs: seq<(string, string)>): (r: seq<(string, string)>)
    ensures |r| == |pairs|
    ensures forall i :: 0 <= i < |r| ==> r[i] == (pairs[i].1, pairs[i].0)
  {
    if pairs == [] then [] else [(pairs[0].1, pairs[0].0)] + Swapped(pairs[1..])
  }

  /** Inverting the ranking draws the same edges with their endpoints
      exchanged, in the same order. */
  lemma EdgeLinesInverted(pairs: seq<(string, string)>)
    ensures EdgeLines(pairs, true) == EdgeLines(Swapped(pairs), false)
  {
    var r1 := EdgeLines(pairs, true);
    var r2 := EdgeLines(Swapped(pairs), false);
    forall i | 0 <= i < |r1| ensures r1[i] == r2[i] {
      assert Swapped(pairs)[i] == (pairs[i].1, pairs[i].0);
    }
  }

  /** `self.name.replace(' ', '_')`. */
  function SubgraphName(name: string): (q: string)
    ensures |q| == |name| && ' ' !in q
    ensures forall i :: 0 <= i < |name| ==> q[i] == (if name[i] == ' ' then '_' else name[i])
  {
    ReplaceChar(name, ' ', '_')
  }

  /** The lines of `get_subgraph_str(invert_ranking)` for a quadrant named
      `name` with tier list `tiers` over the ranked table `deps`: a header,
      the colour bands and the same-ranking block, then the edge block,
      then the closing brace and an empty line. */
  function SubgraphLines(name: string, tiers: seq<seq<string>>, deps: Table, invert: bool): (r: seq<string>)
    ensures var edges := EdgeLines(EdgePairs(deps, tiers, 1), invert);
      && |r| >= |edges| + 3
      && r[0] == "subgraph " + SubgraphName(name) + " {"
      && r[|r| - |edges| - 2..] == edges + ["}", ""]
      && r[..|r| - |edges| - 2] == SubgraphHead(SubgraphName(name), tiers)
  {
    var head := SubgraphHead(SubgraphName(name), tiers);
    var tail := EdgeLines(EdgePairs(deps, tiers, 1), invert) + ["}", ""];
    var r := head + tail;
    assert r[0] == head[0];
    assert r[|head|..] == tail;
    assert r[..|head|] == head;
    r
  }

  /** Everything `get_subgraph_str` writes before the edges: the header,
      the three colour bands and the same-ranking block. */
  function SubgraphHead(q: string, tiers: seq<seq<string>>): (r: seq<string>)
    ensures |r| == |Band(tiers, 1, 6)| + |Band(tiers, 6, 11)| + |Band(tiers, 11, 17)| + |RankSame(tiers, 1)| + 12
    ensures r[0] == "subgraph " + q + " {"
  {
    WhiteOpen(q) + Band(tiers, 1, 6)
    + BandOpen(q, "yellow") + Band(tiers, 6, 11)
    + BandOpen(q, "red") + Band(tiers, 11, 17)
    + BandClose() + RankSame(tiers, 1) + ["", ""]
  }

  /** Where the bands and the same-ranking block sit in the lines before
      the edges: the white band after two lines of header, each later band
      after the three lines that close the previous band and open it, and
      the `{rank=same ...}` lines between two fixed lines and the final two
      empty lines. */
  lemma SubgraphHeadBands(q: string, tiers: seq<seq<string>>, r: seq<string>)
    requires r == SubgraphHead(q, tiers)
    ensures var w, y, d, k := Band(tiers, 1, 6), Band(tiers, 6, 11), Band(tiers, 11, 17), RankSame(tiers, 1);
      && |r| == |w| + |y| + |d| + |k| + 12
      && r[2..2 + |w|] == w
      && r[5 + |w|..5 + |w| + |y|] == y
      && r[8 + |w| + |y|..8 + |w| + |y| + |d|] == d
      && r[10 + |w| + |y| + |d|..|r| - 2] == k
      && r[|r| - 2..] == ["", ""]
  {
    Layout(r, WhiteOpen(q), Band(tiers, 1, 6), BandOpen(q, "yellow"), Band(tiers, 6, 11),
           BandOpen(q, "red"), Band(tiers, 11, 17), BandClose(), RankSame(tiers, 1), ["", ""]);
  }

  /** The header and the opening of the white band. */
  function WhiteOpen(q: string): (r: seq<string>)
    ensures |r| == 2
  {
    ["subgraph " + q + " {", "  subgraph " + q + "_white {"]
  }

  /** The closing brace of the previous band, then the opening of a band
      and its fill colour. */
  function BandOpen(q: string, colour: string): (r: seq<string>)
    ensures |r| == 3
  {
    ["  }", "  subgraph " + q + "_" + colour + " {", "    node [style=filled color=" + colour + "]"]
  }

  /** The closing brace of the red band and the line before the
      same-ranking block. */
  function BandClose(): (r: seq<string>)
    ensures |r| == 2
  {
    ["  }", "  "]
  }

  /** Where the pieces of the lines before the edges sit, given the
      lengths of the fixed pieces. */
  lemma Layout(r: seq<string>, a: seq<string>, w: seq<string>, b: seq<string>, y: seq<string>,
               c: seq<string>, d: seq<string>, e: seq<string>, k: seq<string>, f: seq<string>)
    requires |a| == 2 && |b| == 3 && |c| == 3 && |e| == 2 && |f| == 2
    requires r == a + w + b + y + c + d + e + k + f
    ensures |r| == |w| + |y| + |d| + |k| + 12
    ensures r[2..2 + |w|] == w
    ensures r[5 + |w|..5 + |w| + |y|] == y
    ensures r[8 + |w| + |y|..8 + |w| + |y| + |d|] == d
    ensures r[10 + |w| + |y| + |d|..|r| - 2] == k
    ensures r[|r| - 2..] == f
  {
    // The prefixes of r that end after each piece.
    var p2 := a + w;
    var p3 := p2 + b;
    var p4 := p3 + y;
    var p5 := p4 + c;
    var p6 := p5 + d;
    var p7 := p6 + e;
    var p8 := p7 + k;
    assert r == p8 + f;
    // Each piece is read off the shortest prefix that holds it.
    SliceInPrefix(p8, f, |p7|, |p8|);
    SliceInPrefix(p6, e, |p5|, |p6|);
    SliceInPrefix(p7, k, |p5|, |p6|);
    SliceInPrefix(p8, f, |p5|, |p6|);
    SliceInPrefix(p3, y, 2, |p2|);
    SliceInPrefix(p4, c, 2, |p2|);
    SliceInPrefix(p5, d, 2, |p2|);
    SliceInPrefix(p6, e, 2, |p2|);
    SliceInPrefix(p7, k, 2, |p2|);
    SliceInPrefix(p8, f, 2, |p2|);
    SliceInPrefix(p2, b, 2, |p2|);
    SliceInPrefix(p4, c, |p3|, |p4|);
    SliceInPrefix(p5, d, |p3|, |p4|);
    SliceInPrefix(p6, e, |p3|, |p4|);
    SliceInPrefix(p7, k, |p3|, |p4|);
    SliceInPrefix(p8, f, |p3|, |p4|);
  }

  /** A slice inside the first part of a concatenation is a slice of that
      part. */
  lemma SliceInPrefix(s: seq<string>, t: seq<string>, i: int, j: int)
    requires 0 <= i <= j <= |s|
    ensures (s + t)[i..j] == s[i..j]
  {
  }

  /** The line `get_same_ranks` writes for tier `k`: the first map of that
      tier in each quadrant. */
  function SameRankLine(a: seq<string>, b: seq<string>): string
    requires a != [] && b != []
  {
    "  {rank=same " + Quote(a[0]) + Quote(b[0]) + "}"
  }

  /** Every tier from index 1 on is non-empty, as in a quadrant's tier
      list. */
  predicate TiersNonEmpty(tiers: seq<seq<string>>)
  {
    forall k :: 1 <= k < |tiers| ==> tiers[k] != []
  }

  /** `get_same_ranks(quad)` from tier `k` on: one line per tier index up
      to 16 while both quadrants have that tier. */
  function SameRanks(a: seq<seq<string>>, b: seq<seq<string>>, k: nat): (r: seq<string>)
    requires TiersNonEmpty(a) && TiersNonEmpty(b) && 1 <= k
    ensures |r| == if k < Min(17, Min(|a|, |b|)) then Min(17, Min(|a|, |b|)) - k else 0
    ensures forall i :: 0 <= i < |r| ==> r[i] == SameRankLine(a[k + i], b[k + i])
    decreases 17 - k
  {
    if k >= 17 || k >= |a| || k >= |b| then []
    else [SameRankLine(a[k], b[k])] + SameRanks(a, b, k + 1)
  }

  /** A quadrant's tier list (built from one root) satisfies what
      `get_same_ranks` needs: every tier from 1 on is non-empty. */
  lemma QuadrantTiersNonEmpty(deps: Table, tiers: seq<seq<string>>, root: string)
    requires LevelOrder(deps, tiers, [root])
    ensures TiersNonEmpty(tiers)
  {
  }

  /** One line of `get_floating_deps` / `get_invisible_deps`. */
  function DepLine(a: string, b: string, attr: string): string
  {
    Quote(a) + " -- " + Quote(b) + attr
  }

  const FloatingAttr: string := " [ weight = 0 ];"
  const InvisibleAttr: string := " [ style = \"invis\" ];"

  /** The lines of one key: one per entry of its list, duplicates kept. */
  function KeyLines(a: string, bs: seq<string>, attr: string): (r: seq<string>)
    ensures |r| == |bs|
    ensures forall i :: 0 <= i < |r| ==> r[i] == DepLine(a, bs[i], attr)
  {
    if bs == [] then [] else [DepLine(a, bs[0], attr)] + KeyLines(a, bs[1..], attr)
  }

  /** `get_floating_deps` / `get_invisible_deps` when the dictionary yields
      its keys in the order `order`. */
  function DepLines(t: Table, order: seq<string>, attr: string): seq<string>
    requires forall a :: a in order ==> a in t
  {
    if order == [] then [] else KeyLines(order[0], t[order[0]], attr) + DepLines(t, order[1..], attr)
  }

  /** An order in which a dictionary may yield its keys: each key once. */
  ghost predicate KeyOrder(t: Table, order: seq<string>)
  {
    NoDup(order) && forall a :: a in order <==> a in t
  }

  lemma {:induction false} DepLinesAppend(t: Table, o1: seq<string>, o2: seq<string>, attr: string)
    requires forall a :: a in o1 + o2 ==> a in t
    ensures DepLines(t, o1 + o2, attr) == DepLines(t, o1, attr) + DepLines(t, o2, attr)
    decreases |o1|
  {
    if o1 == [] {
      assert o1 + o2 == o2;
    } else {
      assert (o1 + o2)[0] == o1[0];
      assert (o1 + o2)[1..] == o1[1..] + o2;
      DepLinesAppend(t, o1[1..], o2, attr);
    }
  }

  /** Taking the key at index `i` out of the order takes its lines out of
      the output. */
  lemma DepLinesRemove(t: Table, o: seq<string>, i: nat, rest: seq<string>, attr: string)
    requires forall a :: a in o ==> a in t
    requires i < |o| && rest == o[..i] + o[i + 1..]
    ensures forall a :: a in rest ==> a in t
    ensures multiset(o) == multiset(rest) + multiset{o[i]}
    ensures multiset(DepLines(t, o, attr)) == multiset(KeyLines(o[i], t[o[i]], attr)) + multiset(DepLines(t, rest, attr))
  {
    MultisetRemove(o, i, rest);
    DepLinesSplitAt(t, o[..i], o[i], o[i + 1..], attr);
    DepLinesAppend(t, o[..i], o[i + 1..], attr);
  }

  /** Taking the element at index `i` out of a sequence. */
  lemma MultisetRemove(o: seq<string>, i: nat, rest: seq<string>)
    requires i < |o| && rest == o[..i] + o[i + 1..]
    ensures o == o[..i] + [o[i]] + o[i + 1..]
    ensures multiset(o) == multiset(rest) + multiset{o[i]}
    ensures forall a :: a in rest ==> a in o
  {
    assert o == o[..i] + [o[i]] + o[i + 1..];
  }

  /** The lines of an order with key `x` between `before` and `after`. */
  lemma DepLinesSplitAt(t: Table, before: seq<string>, x: string, after: seq<string>, attr: string)
    requires forall a :: a in before + [x] + after ==> a in t
    ensures (forall a :: a in before ==> a in t) && (forall a :: a in after ==> a in t) && x in t
    ensures DepLines(t, before + [x] + after, attr)
      == DepLines(t, before, attr) + KeyLines(x, t[x], attr) + DepLines(t, after, attr)
  {
    assert forall a :: a in before + [x] ==> a in before + [x] + after;
    DepLinesAppend(t, before + [x], after, attr);
    DepLinesAppend(t, before, [x], attr);
    assert DepLines(t, [x], attr) == KeyLines(x, t[x], attr) + DepLines(t, [], attr);
  }

  /** Reordering the keys permutes the lines. */
  lemma {:induction false} DepLinesPermutation(t: Table, o1: seq<string>, o2: seq<string>, attr: string)
    requires forall a :: a in o1 ==> a in t
    requires forall a :: a in o2 ==> a in t
    requires multiset(o1) == multiset(o2)
    ensures multiset(DepLines(t, o1, attr)) == multiset(DepLines(t, o2, attr))
    decreases |o1|
  {
    if o1 == [] {
      assert |o2| == |multiset(o2)| == 0;
    } else {
      assert o1[0] in multiset(o2);
      var i :| 0 <= i < |o2| && o2[i] == o1[0];
      PermutationStep(t, o1, o2, i, attr);
      DepLinesPermutation(t, o1[1..], o2[..i] + o2[i + 1..], attr);
    }
  }

  /** The inductive step: matching the first key of `o1` with the same key
      at index `i` of `o2`. */
  lemma PermutationStep(t: Table, o1: seq<string>, o2: seq<string>, i: nat, attr: string)
    requires forall a :: a in o1 ==> a in t
    requires forall a :: a in o2 ==> a in t
    requires multiset(o1) == multiset(o2)
    requires o1 != [] && i < |o2| && o2[i] == o1[0]
    ensures var rest := o2[..i] + o2[i + 1..];
      && (forall a :: a in o1[1..] ==> a in t)
      && (forall a :: a in rest ==> a in t)
      && multiset(o1[1..]) == multiset(rest)
      && (multiset(DepLines(t, o1[1..], attr)) == multiset(DepLines(t, rest, attr)) ==>
            multiset(DepLines(t, o1, attr)) == multiset(DepLines(t, o2, attr)))
  {
    var x := o1[0];
    var rest := o2[..i] + o2[i + 1..];
    DepLinesRemove(t, o2, i, rest, attr);
    assert multiset(o1[1..]) == multiset(rest) by {
      MultisetHead(o1);
      MultisetCancel(multiset(o1[1..]), multiset(rest), x);
    }
    assert forall a :: a in o1[1..] ==> a in o1;
    DepLinesFirst(t, o1, attr);
  }

  /** The lines of the first key come first. */
  lemma DepLinesFirst(t: Table, o: seq<string>, attr: string)
    requires forall a :: a in o ==> a in t
    requires o != []
    ensures multiset(DepLines(t, o, attr)) == multiset(KeyLines(o[0], t[o[0]], attr)) + multiset(DepLines(t, o[1..], attr))
  {
    assert DepLines(t, o, attr) == KeyLines(o[0], t[o[0]], attr) + DepLines(t, o[1..], attr);
  }

  lemma MultisetHead(s: seq<string>)
    requires s != []
    ensures multiset(s) == multiset(s[1..]) + multiset{s[0]}
  {
    assert s == [s[0]] + s[1..];
  }

  lemma MultisetCancel(a: multiset<string>, b: multiset<string>, x: string)
    requires a + multiset{x} == b + multiset{x}
    ensures a == b
  {
    forall y ensures a[y] == b[y] {
      assert (a + multiset{x})[y] == (b + multiset{x})[y];
    }
  }

  lemma {:induction false} NoDupMultiset(s: seq<string>, x: string)
    requires NoDup(s)
    ensures multiset(s)[x] == if x in s then 1 else 0
  {
    if s != [] {
      assert s == [s[0]] + s[1..];
      NoDupMultiset(s[1..], x);
      assert s[0] !in s[1..];
    }
  }

  /** Python 2 yields dictionary keys in hash order: whatever order that is,
      `get_floating_deps` and `get_invisible_deps` print the same lines, as
      a multiset. */
  lemma DepLinesOrderFree(t: Table, o1: seq<string>, o2: seq<string>, attr: string)
    requires KeyOrder(t, o1) && KeyOrder(t, o2)
    ensures multiset(DepLines(t, o1, attr)) == multiset(DepLines(t, o2, attr))
  {
    forall x ensures multiset(o1)[x] == multiset(o2)[x] {
      NoDupMultiset(o1, x);
      NoDupMultiset(o2, x);
    }
    assert multiset(o1) == multiset(o2);
    DepLinesPermutation(t, o1, o2, attr);
  }

  /** Every printed line comes from a listed key and an entry of its
      list. */
  lemma {:induction false} DepLinesSource(t: Table, order: seq<string>, attr: string, line: string)
    returns (a: string, b: string)
    requires forall k :: k in order ==> k in t
    requires line in DepLines(t, order, attr)
    ensures a in order && b in t[a] && line == DepLine(a, b, attr)
  {
    var first := KeyLines(order[0], t[order[0]], attr);
    var rest := DepLines(t, order[1..], attr);
    if line in first {
      var j :| 0 <= j < |first| && first[j] == line;
      a, b := order[0], t[order[0]][j];
    } else {
      assert line in rest;
      a, b := DepLinesSource(t, order[1..], attr, line);
    }
  }

  /** Every entry of every listed key is printed. */
  lemma {:induction false} DepLinesComplete(t: Table, order: seq<string>, attr: string, a: string, b: string)
    requires forall k :: k in order ==> k in t
    requires a in order && b in t[a]
    ensures DepLine(a, b, attr) in DepLines(t, order, attr)
  {
    var first := KeyLines(order[0], t[order[0]], attr);
    var rest := DepLines(t, order[1..], attr);
    if a == order[0] {
      var j :| 0 <= j < |t[a]| && t[a][j] == b;
      assert first[j] == DepLine(a, b, attr);
    } else {
      DepLinesComplete(t, order[1..], attr, a, b);
    }
  }

  /** `get_floating_deps` / `get_invisible_deps` print a line exactly for
      each key and each entry of its list (duplicates are not removed). */
  lemma DepLinesMembers(t: Table, order: seq<string>, attr: string, line: string)
    requires forall k :: k in order ==> k in t
    ensures line in DepLines(t, order, attr) <==>
      exists a, b :: a in order && b in t[a] && line == DepLine(a, b, attr)
  {
    if line in DepLines(t, order, attr) {
      var a, b := DepLinesSource(t, order, attr, line);
    }
    forall a, b | a in order && b in t[a] && line == DepLine(a, b, attr)
      ensures line in DepLines(t, order, attr)
    {
      DepLinesComplete(t, order, attr, a, b);
    }
  }

  /** A `list_maps` line: `'T%d: ' % k + ','.join(tier)`. */
  function ListMapsLine(k: nat, names: seq<string>): string
  {
    "T" + NatToString(k) + ": " + Join(",", names)
  }

  /** The `list_maps` output from tier `k` on. */
  function ListMaps(tiers: seq<seq<string>>, k: nat): (r: seq<string>)
    ensures |r| == if k < |tiers| then |tiers| - k else 0
    ensures forall i :: 0 <= i < |r| ==> r[i] == ListMapsLine(k + i, tiers[k + i])
    decreases |tiers| - k
  {
    if k >= |tiers| then [] else [ListMapsLine(k, tiers[k])] + ListMaps(tiers, k + 1)
  }

  /** Reads the tier number back from a `list_maps` line: the digits
      between `T` and the first `:`. */
  function TierNumber(line: string): nat
    requires ':' in line && 1 <= IndexOf(line, ':')
    requires forall c :: c in line[1..IndexOf(line, ':')] ==> IsDigit(c)
  {
    DigitsValue(line[1..IndexOf(line, ':')])
  }

  /** Reads the names back from a `list_maps` line: what follows `": "`,
      split on commas. */
  function TierNames(line: string): seq<string>
    requires ':' in line && IndexOf(line, ':') + 2 <= |line|
  {
    Split(line[IndexOf(line, ':') + 2..], ',')
  }

  /** A `list_maps` line gives back its tier number and, when the tier is
      non-empty and no name holds a comma, its names. */
  lemma ListMapsReadBack(k: nat, names: seq<string>)
    ensures var line := ListMapsLine(k, names);
      && ':' in line && 1 <= IndexOf(line, ':') && IndexOf(line, ':') + 2 <= |line|
      && (forall c :: c in line[1..IndexOf(line, ':')] ==> IsDigit(c))
      && TierNumber(line) == k
      && (names != [] && (forall x :: x in names ==> ',' !in x) ==> TierNames(line) == names)
  {
    var line := ListMapsLine(k, names);
    var digits := NatToString(k);
    var n := 1 + |digits|;
    assert line == "T" + digits + ": " + Join(",", names);
    assert line[n] == ':';
    assert line[1..n] == digits;
    assert ':' !in line[..n] by {
      assert line[..n] == "T" + digits;
    }
    assert IndexOf(line, ':') == n;
    assert line[n + 2..] == Join(",", names);
    DigitsValueNatToString(k);
    if names != [] && (forall x :: x in names ==> ',' !in x) {
      SplitJoin(names, ',');
    }
  }

  /** A `list_links` line for map `a` of tier `k`: indented by tier. */
  function LinkLine(k: nat, a: string, highers: seq<string>): string
    requires 1 <= k
  {
    Repeat("  ", k - 1) + a + " -> " + Join(",", highers)
  }

  function TierLinks(deps: Table, k: nat, tier: seq<string>): seq<string>
    requires 1 <= k
  {
    if tier == [] then []
    else (if tier[0] in deps then [LinkLine(k, tier[0], deps[tier[0]])] else []) + TierLinks(deps, k, tier[1..])
  }

  /** The `list_links` output from tier `k` on. */
  function ListLinks(deps: Table, tiers: seq<seq<string>>, k: nat): seq<string>
    requires 1 <= k
    decreases |tiers| - k
  {
    if k >= |tiers| then [] else TierLinks(deps, k, tiers[k]) + ListLinks(deps, tiers, k + 1)
  }

  lemma {:induction false} ListLinksSource(deps: Table, tiers: seq<seq<string>>, lo: nat, line: string)
    returns (k: nat, a: string)
    requires 1 <= lo
    requires line in ListLinks(deps, tiers, lo)
    ensures lo <= k < |tiers| && a in tiers[k] && a in deps && line == LinkLine(k, a, deps[a])
    decreases |tiers| - lo
  {
    if line in TierLinks(deps, lo, tiers[lo]) {
      k := lo;
      a := TierLinksSource(deps, lo, tiers[lo], line);
    } else {
      k, a := ListLinksSource(deps, tiers, lo + 1, line);
    }
  }

  lemma {:induction false} TierLinksSource(deps: Table, k: nat, tier: seq<string>, line: string)
    returns (a: string)
    requires 1 <= k
    requires line in TierLinks(deps, k, tier)
    ensures a in tier && a in deps && line == LinkLine(k, a, deps[a])
  {
    if tier[0] in deps && line == LinkLine(k, tier[0], deps[tier[0]]) {
      a := tier[0];
    } else {
      a := TierLinksSource(deps, k, tier[1..], line);
    }
  }

  lemma {:induction false} ListLinksComplete(deps: Table, tiers: seq<seq<string>>, lo: nat, k: nat, a: string)
    requires 1 <= lo <= k < |tiers| && a in tiers[k] && a in deps
    ensures LinkLine(k, a, deps[a]) in ListLinks(deps, tiers, lo)
    decreases k - lo
  {
    if k == lo {
      TierLinksComplete(deps, k, tiers[k], a);
    } else {
      ListLinksComplete(deps, tiers, lo + 1, k, a);
    }
  }

  lemma {:induction false} TierLinksComplete(deps: Table, k: nat, tier: seq<string>, a: string)
    requires 1 <= k && a in tier && a in deps
    ensures LinkLine(k, a, deps[a]) in TierLinks(deps, k, tier)
  {
    if tier[0] != a {
      TierLinksComplete(deps, k, tier[1..], a);
    }
  }

  /** `list_links` prints, for each tier `k >= 1` and each of its maps with
      a ranked entry, that map's list indented by `k - 1` steps, and
      nothing else. */
  lemma ListLinksMembers(deps: Table, tiers: seq<seq<string>>, line: string)
    ensures line in ListLinks(deps, tiers, 1) <==>
      exists k, a :: 1 <= k < |tiers| && a in tiers[k] && a in deps && line == LinkLine(k, a, deps[a])
  {
    if line in ListLinks(deps, tiers, 1) {
      var k, a := ListLinksSource(deps, tiers, 1, line);
    }
    forall k, a | 1 <= k < |tiers| && a in tiers[k] && a in deps && line == LinkLine(k, a, deps[a])
      ensures line in ListLinks(deps, tiers, 1)
    {
      ListLinksComplete(deps, tiers, 1, k, a);
    }
  }

  /** The check before any output: the generator stops with these two lines
      unless there are exactly four roots. */
  function RootCheck(tier1s: seq<string>): (r: seq<string>)
    ensures r == [] <==> |tier1s| == 4
    ensures r != [] ==> |r| == 2 && r[1] == "Tier1: " + Join(",", tier1s)
    ensures r != [] ==> r[0] == "Error: we should have exactly 4 Tier1 maps"
  {
    if |tier1s| != 4 then ["Error: we should have exactly 4 Tier1 maps", "Tier1: " + Join(",", tier1s)]
    else []
  }
}
