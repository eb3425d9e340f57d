/**
 * Character and string helpers of the Kotlin standard library that the
 * modelled code relies on: `Char.isWhitespace`, `String.isBlank`,
 * `String.trim`, `CharSequence.lines`, `joinToString` and `Int.toString`.
 */
module Text {

  /** Kotlin's `Char.isWhitespace` on the JVM: `Character.isWhitespace` or `Character.isSpaceChar`. */
  predicate IsWhitespace(c: char) {
    || c == '\t' || c == '\n' || c == '\U{000B}' || c == '\U{000C}' || c == '\r'
    || ('\U{001C}' <= c <= '\U{001F}')
    || c == ' ' || c == '\U{00A0}' || c == '\U{1680}'
    || ('\U{2000}' <= c <= '\U{200A}')
    || c == '\U{2028}' || c == '\U{2029}' || c == '\U{202F}' || c == '\U{205F}' || c == '\U{3000}'
  }

  /** Kotlin's `String.isBlank`: empty or whitespace only. */
  predicate IsBlank(s: string) {
    forall i :: 0 <= i < |s| ==> IsWhitespace(s[i])
  }

  predicate NoLineBreak(s: string) {
    forall i :: 0 <= i < |s| ==> s[i] !in LineBreaks
  }

  /** The position of the first character of `s` that is in `cs`, or `|s|` when there is none. */
  function FirstOf(s: string, cs: set<char>): (k: nat)
    ensures k <= |s|
    ensures forall i :: 0 <= i < k ==> s[i] !in cs
    ensures k < |s| ==> s[k] in cs
  {
    if |s| == 0 then 0
    else if s[0] in cs then 0
    else 1 + FirstOf(s[1..], cs)
  }

  const LineBreaks: set<char> := {'\n', '\r'}

  /** Number of leading whitespace characters. */
  function LeadingSpace(s: string): (k: nat)
    ensures k <= |s|
    ensures forall i :: 0 <= i < k ==> IsWhitespace(s[i])
    ensures k < |s| ==> !IsWhitespace(s[k])
  {
    if |s| == 0 || !IsWhitespace(s[0]) then 0
    else 1 + LeadingSpace(s[1..])
  }

  /** Length of `s` once its trailing whitespace is dropped. */
  function TrailingEnd(s: string): (k: nat)
    ensures k <= |s|
    ensures forall i :: k <= i < |s| ==> IsWhitespace(s[i])
    ensures 0 < k ==> !IsWhitespace(s[k - 1])
  {
    if |s| == 0 || !IsWhitespace(s[|s| - 1]) then |s|
    else TrailingEnd(s[..|s| - 1])
  }

  /** `r` is `s` with the whitespace-only prefix `s[..i]` and a whitespace-only suffix cut off. */
  predicate StripsTo(s: string, r: string, i: nat) {
    && i + |r| <= |s|
    && r == s[i..i + |r|]
    && IsBlank(s[..i])
    && IsBlank(s[i + |r|..])
  }

  /** Kotlin's `String.trim()`: drops whitespace at both ends. */
  function Trim(s: string): (r: string)
    ensures |r| <= |s|
    ensures |r| > 0 ==> !IsWhitespace(r[0]) && !IsWhitespace(r[|r| - 1])
  {
    var a := LeadingSpace(s);
    if a == |s| then []
    else
      var e := TrailingEnd(s);
      assert a < e by {
        assert !IsWhitespace(s[a]);
      }
      s[a..e]
  }

  /** Trimming cuts nothing but whitespace: the result is a slice of `s` with only whitespace around it. */
  lemma TrimCutsOnlyWhitespace(s: string)
    ensures exists i :: StripsTo(s, Trim(s), i)
  {
    var a := LeadingSpace(s);
    if a == |s| {
      assert Trim(s) == [];
      assert StripsTo(s, [], a);
    } else {
      var e := TrailingEnd(s);
      assert a < e by {
        assert !IsWhitespace(s[a]);
      }
      assert Trim(s) == s[a..e];
      assert StripsTo(s, s[a..e], a);
    }
  }

  /** Trimming only removes whitespace: a string without whitespace at its ends is left as it is. */
  lemma TrimKeepsInner(s: string)
    requires |s| > 0 ==> !IsWhitespace(s[0]) && !IsWhitespace(s[|s| - 1])
    ensures Trim(s) == s
  {
    if |s| > 0 {
      assert LeadingSpace(s) == 0;
      assert TrailingEnd(s) == |s|;
    }
  }

  lemma LeadingAfterBlank(w: string, s: string)
    requires IsBlank(w)
    ensures LeadingSpace(w + s) == |w| + LeadingSpace(s)
  {
    var t := w + s;
    var a := LeadingSpace(s);
    if a < |s| {
      assert t[|w| + a] == s[a];
    }
  }

  lemma TrailingAfterBlank(w: string, s: string)
    requires LeadingSpace(s) < |s|
    ensures TrailingEnd(w + s) == |w| + TrailingEnd(s)
  {
    var t := w + s;
    var a := LeadingSpace(s);
    var e := TrailingEnd(s);
    assert a < e by { assert !IsWhitespace(s[a]); }
    var k := TrailingEnd(t);
    assert t[|w| + e - 1] == s[e - 1];
  }

  /** Trim cuts at the first and past the last non-whitespace character. */
  lemma TrimBounds(s: string)
    ensures LeadingSpace(s) == |s| ==> Trim(s) == []
    ensures LeadingSpace(s) < |s| ==> LeadingSpace(s) < TrailingEnd(s) && Trim(s) == s[LeadingSpace(s)..TrailingEnd(s)]
  {
    var a := LeadingSpace(s);
    if a < |s| {
      assert !IsWhitespace(s[a]);
    }
  }

  /** Whitespace in front of a string makes no difference to its trimmed form. */
  lemma TrimSkipsPrefix(w: string, s: string)
    requires IsBlank(w)
    ensures Trim(w + s) == Trim(s)
  {
    var t := w + s;
    var a := LeadingSpace(s);
    LeadingAfterBlank(w, s);
    assert LeadingSpace(t) == |w| + a;
    TrimBounds(s);
    TrimBounds(t);
    if a < |s| {
      var e := TrailingEnd(s);
      TrailingAfterBlank(w, s);
      assert TrailingEnd(t) == |w| + e;
      assert Trim(t) == t[|w| + a..|w| + e];
      SliceOfSuffix(w, s, a, e);
      assert Trim(s) == s[a..e];
    } else {
      assert LeadingSpace(t) == |t|;
      assert Trim(t) == [] && Trim(s) == [];
    }
  }

  lemma SliceOfSuffix(w: string, s: string, a: nat, e: nat)
    requires a <= e <= |s|
    ensures (w + s)[|w| + a..|w| + e] == s[a..e]
  {
  }

  /** Kotlin's `isBlank()` agrees with "trims to the empty string". */
  lemma BlankIffTrimsEmpty(s: string)
    ensures IsBlank(s) <==> Trim(s) == []
  {
    if IsBlank(s) {
      assert LeadingSpace(s) == |s|;
    }
  }

  /** `joinToString(sep)`: the parts with `sep` between neighbours. */
  function Join(parts: seq<string>, sep: string): (r: string)
    ensures NoLineBreak(sep) && (forall i :: 0 <= i < |parts| ==> NoLineBreak(parts[i])) ==> NoLineBreak(r)
    ensures |parts| == 1 ==> r == parts[0]
  {
    if |parts| == 0 then []
    else if |parts| == 1 then parts[0]
    else parts[0] + sep + Join(parts[1..], sep)
  }

  /** Kotlin's `CharSequence.lines()`: the pieces between `"\r\n"`, `"\n"` and `"\r"` terminators. */
  function Lines(s: string): (r: seq<string>)
    ensures |r| >= 1
    ensures forall i :: 0 <= i < |r| ==> NoLineBreak(r[i])
    decreases |s|
  {
    var k := FirstOf(s, LineBreaks);
    if k == |s| then [s]
    else
      var next := if s[k] == '\r' && k + 1 < |s| && s[k + 1] == '\n' then k + 2 else k + 1;
      [s[..k]] + Lines(s[next..])
  }

  /** The first character of `cs` in `a + b` is the first of `b`, when `a` has none. */
  lemma FirstOfAfter(a: string, b: string, cs: set<char>)
    requires forall i :: 0 <= i < |a| ==> a[i] !in cs
    requires |b| > 0 && b[0] in cs
    ensures FirstOf(a + b, cs) == |a|
  {
    var k := FirstOf(a + b, cs);
    assert (a + b)[|a|] in cs;
  }

  /** A line followed by `"\n"` is the first of the lines. */
  lemma LinesAfterNewline(a: string, rest: string)
    requires NoLineBreak(a)
    ensures Lines(a + "\n" + rest) == [a] + Lines(rest)
  {
    var s := a + "\n" + rest;
    assert s == a + ("\n" + rest);
    FirstOfAfter(a, "\n" + rest, LineBreaks);
    assert s[|a|] == '\n';
    assert s[..|a|] == a;
    assert s[|a| + 1..] == rest;
  }

  /** Splitting lines joined by `"\n"` gives back those lines. */
  lemma {:induction false} LinesOfJoin(ls: seq<string>)
    requires |ls| >= 1
    requires forall i :: 0 <= i < |ls| ==> NoLineBreak(ls[i])
    ensures Lines(Join(ls, "\n")) == ls
  {
    if |ls| == 1 {
      assert FirstOf(ls[0], LineBreaks) == |ls[0]|;
    } else {
      LinesAfterNewline(ls[0], Join(ls[1..], "\n"));
      LinesOfJoin(ls[1..]);
      assert ls == [ls[0]] + ls[1..];
    }
  }

  /** Decimal digits of a natural number, most significant first. */
  function NatToString(n: nat): (r: string)
    ensures |r| >= 1
    ensures forall i :: 0 <= i < |r| ==> '0' <= r[i] <= '9'
    decreases n
  {
    var d := [('0' as int + n % 10) as char];
    if n < 10 then d else NatToString(n / 10) + d
  }

  /** Kotlin's `Int.toString()`: a minus sign for negative numbers, then the digits. */
  function IntToString(n: int): (r: string)
    ensures |r| >= 1
    ensures forall i :: 0 <= i < |r| ==> r[i] == '-' || '0' <= r[i] <= '9'
    ensures (r[0] == '-') <==> n < 0
  {
    if n < 0 then "-" + NatToString(-n) else NatToString(n)
  }
}
