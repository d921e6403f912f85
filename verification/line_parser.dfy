/** Classification of one input line (map_generator.py, `read_file`).
    The four regular expressions of the source are searched independently
    on every line; each search is written out here as a string function
    that returns the two groups it captures, or `None` when it finds no
    match. */
module LineParser {
  import opened Wrappers
  import opened Text

  /** One ranked, floating or invisible directive: the trimmed left name
      and the trimmed, comma-separated right-hand names. */
  datatype Directive = Directive(lower: string, highers: seq<string>)

  /** Blank lines and comment lines are skipped before any search. */
  predicate IsSkipped(line: string)
  {
    |line| == 0 || line[0] == '#'
  }

  /** `([^=]*)=(.*)` finds a match exactly when the line holds a `=`. */
  predicate IsAlias(line: string)
  {
    '=' in line
  }

  /** What `.*` captures: the longest prefix that holds no line break. */
  function RestOfLine(s: string): (r: string)
    ensures |r| <= |s| && r == s[..|r|]
    ensures '\n' !in r
    ensures |r| < |s| ==> s[|r|] == '\n'
  {
    if s == [] || s[0] == '\n' then [] else [s[0]] + RestOfLine(s[1..])
  }

  /** What ` *` consumes: the leading blanks. */
  function SkipBlanks(s: string): (r: string)
    ensures |r| <= |s| && r == s[|s| - |r|..]
    ensures r == [] || r[0] != ' '
    ensures forall i :: 0 <= i < |s| - |r| ==> s[i] == ' '
  {
    if s != [] && s[0] == ' ' then SkipBlanks(s[1..]) else s
  }

  /** `re.search('([^>:]*)[:<] *(.*)', s)` can match with group 1 being
      `s[p..j]`: the group holds no `>` and no `:`, and the character
      after it is a separator. (` *` and `.*` match whatever follows.) */
  predicate MatchAt(s: string, p: int, j: int)
  {
    && 0 <= p <= j < |s|
    && (s[j] == ':' || s[j] == '<')
    && forall i :: p <= i < j ==> s[i] != '>' && s[i] != ':'
  }

  /** Index of the first `>` or `:` at or after `from`, or `|s|`: where a
      run of `[^>:]*` starting at `from` must stop. */
  function StopFrom(s: string, from: nat): (m: nat)
    requires from <= |s|
    ensures from <= m <= |s|
    ensures m < |s| ==> s[m] == '>' || s[m] == ':'
    ensures forall i :: from <= i < m ==> s[i] != '>' && s[i] != ':'
    decreases |s| - from
  {
    if from == |s| || s[from] == '>' || s[from] == ':' then from else StopFrom(s, from + 1)
  }

  /** Index of the last `c` in `s[lo..hi]`, if any. */
  function LastIn(s: string, c: char, lo: nat, hi: nat): (k: Option<nat>)
    requires lo <= hi <= |s|
    ensures k.Some? ==> lo <= k.value < hi && s[k.value] == c
    ensures k.Some? ==> forall i :: k.value < i < hi ==> s[i] != c
    ensures k.None? ==> forall i :: lo <= i < hi ==> s[i] != c
    decreases hi - lo
  {
    if lo == hi then None
    else if s[hi - 1] == c then Some(hi - 1)
    else LastIn(s, c, lo, hi - 1)
  }

  /** The ranked search from start position `from` on: the start `p` and
      the separator position `j` of its match, if any. From a start, the
      greedy group runs up to the first `>` or `:` and backs off to the last
      position where `:` or `<` follows; when there is none, every start up
      to that stop fails and the search resumes after it. */
  function RankedMatchFrom(s: string, from: nat): (m: Option<(nat, nat)>)
    requires from <= |s|
    ensures m.Some? ==> from <= m.value.0 && MatchAt(s, m.value.0, m.value.1)
    decreases |s| - from
  {
    var stop := StopFrom(s, from);
    if stop < |s| && s[stop] == ':' then Some((from, stop))
    else match LastIn(s, '<', from, stop)
      case Some(k) => Some((from, k))
      case None => if stop < |s| then RankedMatchFrom(s, stop + 1) else None
  }

  /** The search from `from` finds the leftmost start at or after `from`
      that can match and, for it, the longest group. */
  lemma {:induction false} RankedMatchFromLeftmostLongest(s: string, from: nat)
    requires from <= |s|
    ensures var m := RankedMatchFrom(s, from);
      && (forall p, j :: from <= p && MatchAt(s, p, j) ==> m.Some? && m.value.0 <= p)
      && (m.Some? ==> forall j :: MatchAt(s, m.value.0, j) ==> j <= m.value.1)
    decreases |s| - from
  {
    var stop := StopFrom(s, from);
    if !(stop < |s| && s[stop] == ':') && LastIn(s, '<', from, stop).None? {
      forall p, j | from <= p && MatchAt(s, p, j) ensures stop < p {
      }
      if stop < |s| {
        RankedMatchFromLeftmostLongest(s, stop + 1);
      }
    }
  }

  /** `re.search('([^>:]*)[:<] *(.*)', s)`: the start and the separator
      position of its match. It matches exactly when the line holds `:` or
      `<`; the match is the leftmost one and, from its start, the one with
      the longest group. */
  function RankedMatch(s: string): (m: Option<(nat, nat)>)
    ensures m.Some? <==> (':' in s || '<' in s)
    ensures m.Some? ==> MatchAt(s, m.value.0, m.value.1)
    ensures m.Some? ==> forall p, j :: MatchAt(s, p, j) ==> m.value.0 <= p
    ensures m.Some? ==> forall j :: MatchAt(s, m.value.0, j) ==> j <= m.value.1
  {
    RankedMatchFromLeftmostLongest(s, 0);
    assert forall i :: 0 <= i < |s| && (s[i] == ':' || s[i] == '<') ==> MatchAt(s, i, i);
    RankedMatchFrom(s, 0)
  }

  /** On a line without `>`, the ranked search splits at the first `:` when
      there is one, and otherwise at the LAST `<`: the greedy group swallows
      every earlier `<`. */
  lemma RankedMatchWithoutArrow(s: string)
    requires '>' !in s
    ensures ':' in s ==> RankedMatch(s) == Some((0, IndexOf(s, ':')))
    ensures ':' !in s && '<' in s ==> RankedMatch(s) == Some((0, LastIndexOf(s, '<')))
  {
    var m := RankedMatch(s);
    if ':' in s {
      var i := IndexOf(s, ':');
      forall k | 0 <= k < i ensures s[k] != ':' {
        assert s[..i][k] == s[k];
      }
      assert MatchAt(s, 0, i);
    } else if '<' in s {
      var k := LastIndexOf(s, '<');
      assert MatchAt(s, 0, k);
    }
  }

  /** `a<b<c` splits at its second `<`: group 1 is `a<b`. */
  lemma RankedMatchExample()
    ensures RankedMatch("a<b<c") == Some((0, 3))
  {
    RankedMatchWithoutArrow("a<b<c");
    assert "a<b<c"[3] == '<';
  }

  /** `re.search('([^c]*)c *(.*)', s)` for a single-character separator `c`
      (`~` or `{`): the group cannot contain `c`, so the line splits at its
      first `c`. */
  function SplitAtFirst(s: string, c: char): (r: Option<(string, string)>)
    ensures r.Some? <==> c in s
    ensures r.Some? ==> s == r.value.0 + [c] + r.value.1 && c !in r.value.0
  {
    if c in s then
      var i := IndexOf(s, c);
      assert s == s[..i] + [c] + s[i + 1..];
      Some((s[..i], s[i + 1..]))
    else None
  }

  /** The directive built from a match: `m.group(1).strip()` and
      `map(lambda x: x.strip(), m.group(2).split(','))`. */
  function MakeDirective(group1: string, afterSeparator: string): (d: Directive)
    ensures d.lower == Strip(group1)
    ensures var parts := Split(RestOfLine(SkipBlanks(afterSeparator)), ',');
      && |d.highers| == |parts|
      && forall i :: 0 <= i < |parts| ==> d.highers[i] == Strip(parts[i])
    ensures |d.highers| >= 1
    ensures forall h :: h in d.highers ==> ',' !in h
  {
    var parts := Split(RestOfLine(SkipBlanks(afterSeparator)), ',');
    var highers := StripAll(parts);
    forall h | h in highers ensures ',' !in h {
      var i :| 0 <= i < |highers| && highers[i] == h;
      assert parts[i] in parts;
      StripKeepsOut(parts[i], ',');
    }
    Directive(Strip(group1), highers)
  }

  /** The ranked dependency carried by a line (`child : parents` or
      `child < parents`), if any: when `RankedMatch(line)` is `Some((p, j))`,
      it is `MakeDirective(line[p..j], line[j + 1..])`, so the lower map is
      the stripped group `line[p..j]` and the highers come from the text
      after the separator at `j`. */
  function RankedDirective(line: string): (r: Option<Directive>)
    ensures r.Some? <==> (':' in line || '<' in line)
  {
    match RankedMatch(line)
    case None => None
    case Some((p, j)) => Some(MakeDirective(line[p..j], line[j + 1..]))
  }

  /** The floating relation carried by a line (`map ~ maps`), if any: the
      `MakeDirective` of the text before the first `~` and the text after it. */
  function FloatingDirective(line: string): (r: Option<Directive>)
    ensures r.Some? <==> '~' in line
  {
    match SplitAtFirst(line, '~')
    case None => None
    case Some(g) => Some(MakeDirective(g.0, g.1))
  }

  /** The invisible dependency carried by a line (`child { parents`), if any:
      the `MakeDirective` of the text before the first `{` and the text after
      it. */
  function InvisibleDirective(line: string): (r: Option<Directive>)
    ensures r.Some? <==> '{' in line
  {
    match SplitAtFirst(line, '{')
    case None => None
    case Some(g) => Some(MakeDirective(g.0, g.1))
  }
}
