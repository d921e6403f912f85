/** The string operations the generator relies on, written out with the
    semantics of the Python 2 string methods it calls: `strip()`,
    `split(',')`, `sep.join(...)`, `replace(' ', '_')`, `'%d' % n` and
    `'  ' * n`. */
module Text {

  /** The characters `str.strip()` removes (Python 2, no argument). */
  predicate IsSpace(c: char)
  {
    c == ' ' || c == '\t' || c == '\n' || c == '\r' || c == '\U{0B}' || c == '\U{0C}'
  }

  /** Index of the first occurrence of `c` in `s`. */
  function IndexOf(s: string, c: char): (i: nat)
    requires c in s
    ensures i < |s| && s[i] == c && c !in s[..i]
  {
    if s[0] == c then 0 else 1 + IndexOf(s[1..], c)
  }

  /** Index of the last occurrence of `c` in `s`. */
  function LastIndexOf(s: string, c: char): (i: nat)
    requires c in s
    ensures i < |s| && s[i] == c && c !in s[i + 1..]
  {
    if s[|s| - 1] == c then |s| - 1 else LastIndexOf(s[..|s| - 1], c)
  }

  /** The first index at or after `from` that holds no whitespace (`|s|`
      when there is none). */
  function SpanStart(s: string, from: nat): (a: nat)
    requires from <= |s|
    ensures from <= a <= |s|
    ensures forall i :: from <= i < a ==> IsSpace(s[i])
    ensures a < |s| ==> !IsSpace(s[a])
    decreases |s| - from
  {
    if from < |s| && IsSpace(s[from]) then SpanStart(s, from + 1) else from
  }

  /** One past the last index before `upto`, and not before `a`, that holds
      no whitespace (`a` when there is none). */
  function SpanEnd(s: string, a: nat, upto: nat): (e: nat)
    requires a <= upto <= |s|
    ensures a <= e <= upto
    ensures forall i :: e <= i < upto ==> IsSpace(s[i])
    ensures e > a ==> !IsSpace(s[e - 1])
    decreases upto
  {
    if upto > a && IsSpace(s[upto - 1]) then SpanEnd(s, a, upto - 1) else upto
  }

  /** Python's `s.strip()`: the slice of `s` between its leading and its
      trailing whitespace, which begins and ends with a non-whitespace
      character. */
  function Strip(s: string): (r: string)
    ensures |r| <= |s|
    ensures r == [] || (!IsSpace(r[0]) && !IsSpace(r[|r| - 1]))
    ensures var a := SpanStart(s, 0);
      && a + |r| <= |s| && r == s[a..a + |r|]
      && (forall i :: 0 <= i < a ==> IsSpace(s[i]))
      && (forall i :: a + |r| <= i < |s| ==> IsSpace(s[i]))
  {
    var a := SpanStart(s, 0);
    s[a..SpanEnd(s, a, |s|)]
  }

  /** Stripping adds no character. */
  lemma StripKeepsOut(s: string, c: char)
    requires c !in s
    ensures c !in Strip(s)
  {
  }

  /** Python's `sep.join(parts)`. */
  function Join(sep: string, parts: seq<string>): (r: string)
    ensures parts == [] ==> r == []
    ensures |parts| == 1 ==> r == parts[0]
  {
    if parts == [] then []
    else if |parts| == 1 then parts[0]
    else parts[0] + sep + Join(sep, parts[1..])
  }

  /** One more part is joined on after the separator. */
  lemma {:induction false} JoinSnoc(sep: string, parts: seq<string>, p: string)
    requires parts != []
    ensures Join(sep, parts + [p]) == Join(sep, parts) + sep + p
    decreases |parts|
  {
    var all := parts + [p];
    if |parts| == 1 {
      assert all[1..] == [p];
    } else {
      assert all[1..] == parts[1..] + [p];
      JoinSnoc(sep, parts[1..], p);
      assert Join(sep, all) == parts[0] + sep + (Join(sep, parts[1..]) + sep + p);
    }
  }

  /** Python's `s.split(sep)` for a one-character separator: always at least
      one part, and joining the parts with `sep` gives back `s`. */
  function Split(s: string, sep: char): (parts: seq<string>)
    ensures |parts| >= 1
    ensures forall p :: p in parts ==> sep !in p
    ensures Join([sep], parts) == s
    decreases |s|
  {
    if sep in s then
      var i := IndexOf(s, sep);
      var rest := Split(s[i + 1..], sep);
      assert ([s[..i]] + rest)[1..] == rest;
      assert s == s[..i] + [sep] + s[i + 1..];
      [s[..i]] + rest
    else
      [s]
  }

  /** Splitting a join of separator-free parts gives the parts back. */
  lemma {:induction false} SplitJoin(parts: seq<string>, sep: char)
    requires |parts| >= 1
    requires forall p :: p in parts ==> sep !in p
    ensures Split(Join([sep], parts), sep) == parts
  {
    if |parts| == 1 {
      assert sep !in parts[0];
    } else {
      var s := Join([sep], parts);
      var tail := Join([sep], parts[1..]);
      assert s == parts[0] + [sep] + tail;
      var n := |parts[0]|;
      assert s[n] == sep;
      assert s[..n] == parts[0];
      assert sep in s;
      assert sep !in s[..n];
      assert IndexOf(s, sep) == n;
      assert s[n + 1..] == tail;
      SplitJoin(parts[1..], sep);
    }
  }

  /** `map(lambda x: x.strip(), parts)`. */
  function StripAll(parts: seq<string>): (r: seq<string>)
    ensures |r| == |parts|
    ensures forall i :: 0 <= i < |r| ==> r[i] == Strip(parts[i])
  {
    if parts == [] then [] else [Strip(parts[0])] + StripAll(parts[1..])
  }

  /** `s.replace(a, b)` for single characters. */
  function ReplaceChar(s: string, a: char, b: char): (r: string)
    ensures |r| == |s|
    ensures forall i :: 0 <= i < |s| ==> r[i] == (if s[i] == a then b else s[i])
  {
    if s == [] then [] else [if s[0] == a then b else s[0]] + ReplaceChar(s[1..], a, b)
  }

  /** `s * n`. */
  function Repeat(s: string, n: nat): (r: string)
    ensures |r| == |s| * n
    ensures n > 0 ==> r[..|s|] == s
    ensures forall i :: |s| <= i < |r| ==> r[i] == r[i - |s|]
  {
    if n == 0 then []
    else
      var t := Repeat(s, n - 1);
      assert (s + t)[..|s|] == s;
      forall i | |s| <= i < |s| + |t| ensures (s + t)[i] == (s + t)[i - |s|] {
        if i - |s| < |s| {
          assert t[..|s|][i - |s|] == t[i - |s|];
        }
      }
      s + t
  }

  predicate IsDigit(c: char)
  {
    '0' <= c <= '9'
  }

  /** `'%d' % n` for a non-negative `n`. */
  function NatToString(n: nat): (s: string)
    ensures |s| >= 1 && forall c :: c in s ==> IsDigit(c)
    ensures |s| > 1 ==> s[0] != '0'
  {
    var d := ['0' + (n % 10) as char];
    if n < 10 then d else NatToString(n / 10) + d
  }

  /** Reads a string of decimal digits. */
  function DigitsValue(s: string): nat
    requires forall c :: c in s ==> IsDigit(c)
  {
    if s == [] then 0
    else
      var d := s[|s| - 1];
      assert d in s && IsDigit(d);
      DigitsValue(s[..|s| - 1]) * 10 + (d as int - '0' as int) as nat
  }

  /** `'%d' % n` is read back as `n`. */
  lemma {:induction false} DigitsValueNatToString(n: nat)
    ensures DigitsValue(NatToString(n)) == n
  {
    var s := NatToString(n);
    if n >= 10 {
      DigitsValueNatToString(n / 10);
      assert s[..|s| - 1] == NatToString(n / 10);
    }
  }
}
