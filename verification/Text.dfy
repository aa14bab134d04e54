/** Strings as Python sees them: leftmost search, `split` and `join` on a separator,
    `str.isspace`, `lstrip` and `rstrip`.  Everything that edits a document is built on
    these, so the lemmas here are about how a search behaves at the seams of a concatenation. */
module Text {

  // ----- leftmost search -----

  predicate At(t: string, m: string, i: int) {
    0 <= i && i + |m| <= |t| && t[i..i + |m|] == m
  }

  /** `t.find(m, from)`: the leftmost occurrence at or after `from`, or -1. */
  function Find(t: string, m: string, from: nat): (r: int)
    ensures r == -1 || from <= r <= |t| - |m|
    decreases |t| - from
  {
    if from + |m| > |t| then -1
    else if At(t, m, from) then from
    else Find(t, m, from + 1)
  }

  lemma {:induction false} FindLeftmost(t: string, m: string, from: nat)
    ensures Find(t, m, from) != -1 ==> At(t, m, Find(t, m, from))
    ensures forall j :: from <= j && (Find(t, m, from) == -1 || j < Find(t, m, from)) ==> !At(t, m, j)
    decreases |t| - from
  {
    if from + |m| <= |t| && !At(t, m, from) { FindLeftmost(t, m, from + 1); }
  }

  lemma FindIs(t: string, m: string, from: nat, i: int)
    requires from <= i && At(t, m, i) && forall j :: from <= j < i ==> !At(t, m, j)
    ensures Find(t, m, from) == i
  {
    FindLeftmost(t, m, from);
  }

  /** `m in t` */
  predicate Occurs(t: string, m: string) {
    Find(t, m, 0) != -1
  }

  /** The first `m` of a text that begins with `a` and carries on with `r` is not begun in `a`. */
  predicate SeamFree(a: string, r: string, m: string) {
    Find(a + r, m, 0) == -1 || |a| <= Find(a + r, m, 0)
  }

  lemma AtLeft(a: string, b: string, m: string, i: int)
    requires i + |m| <= |a|
    ensures At(a + b, m, i) == At(a, m, i)
  {
    if 0 <= i { assert (a + b)[i..i + |m|] == a[i..i + |m|]; }
  }

  lemma AtRight(a: string, b: string, m: string, i: nat)
    ensures At(a + b, m, |a| + i) == At(b, m, i)
  {
    if i + |m| <= |b| { assert (a + b)[|a| + i..|a| + i + |m|] == b[i..i + |m|]; }
  }

  /** Searching past a prefix is searching in what follows it. */
  lemma {:induction false} FindShift(a: string, b: string, m: string, i: nat)
    ensures Find(a + b, m, |a| + i) == if Find(b, m, i) == -1 then -1 else |a| + Find(b, m, i)
    decreases |b| - i
  {
    AtRight(a, b, m, i);
    if i + |m| <= |b| && !At(b, m, i) { FindShift(a, b, m, i + 1); }
  }

  /** When no occurrence begins inside `a`, the first one is the first one of `r`. */
  lemma FindPast(a: string, r: string, m: string)
    requires SeamFree(a, r, m)
    ensures Find(a + r, m, 0) == if Find(r, m, 0) == -1 then -1 else |a| + Find(r, m, 0)
  {
    FindShift(a, r, m, 0);
    FindFrom(a + r, m, 0, |a|);
  }

  /** A search may start later, as long as it starts before what it is to find. */
  lemma {:induction false} FindFrom(t: string, m: string, from: nat, later: nat)
    requires from <= later && (Find(t, m, from) == -1 || later <= Find(t, m, from))
    ensures Find(t, m, later) == Find(t, m, from)
    decreases later - from
  {
    if from < later { FindFrom(t, m, from + 1, later); }
  }

  /** Text after the end of an occurrence cannot move the first occurrence. */
  lemma {:induction false} FindStable(t: string, r: string, m: string, from: nat)
    requires Find(t, m, from) != -1
    ensures Find(t + r, m, from) == Find(t, m, from)
    decreases |t| - from
  {
    AtLeft(t, r, m, from);
    if !At(t, m, from) { FindStable(t, r, m, from + 1); }
  }

  lemma SliceOfMiddle(a: string, b: string, c: string, i: nat, j: nat)
    requires i <= j <= |b|
    ensures (a + b + c)[|a| + i..|a| + j] == b[i..j]
  {}

  lemma PrefixLacks(t: string, n: nat, m: string)
    requires n <= |t| && !Occurs(t, m)
    ensures !Occurs(t[..n], m)
  {
    assert t == t[..n] + t[n..];
    if Occurs(t[..n], m) { FindStable(t[..n], t[n..], m, 0); }
  }

  lemma SuffixLacks(t: string, n: nat, m: string)
    requires n <= |t| && !Occurs(t, m)
    ensures !Occurs(t[n..], m)
  {
    assert t == t[..n] + t[n..];
    FindPast(t[..n], t[n..], m);
  }

  lemma CharInside(t: string, m: string, j: nat, i: nat)
    requires At(t, m, j) && j <= i < j + |m|
    ensures t[i] in m
  {
    assert t[i] == m[i - j];
  }

  /** A word without the character `c` cannot begin before a `c` and end after it. */
  lemma NoStraddle(a: string, c: char, r: string, m: string)
    requires m != "" && c !in m && !Occurs(a, m)
    ensures SeamFree(a + [c], r, m)
  {
    var t := a + [c] + r;
    var j := Find(t, m, 0);
    assert t == a + ([c] + r) && t[|a|] == c;
    FindLeftmost(t, m, 0);
    FindLeftmost(a, m, 0);
    if 0 <= j && j + |m| <= |a| {
      AtLeft(a, [c] + r, m, j);
    } else if 0 <= j <= |a| {
      CharInside(t, m, j, |a|);
    }
  }

  /** Lines: a newline-free word is found in the first line or, failing that, in the rest. */
  lemma FindPastLine(a: string, r: string, m: string)
    requires m != "" && '\n' !in m && !Occurs(a, m)
    ensures Find(a + "\n" + r, m, 0) == if Find(r, m, 0) == -1 then -1 else |a| + 1 + Find(r, m, 0)
  {
    NoStraddle(a, '\n', r, m);
    FindPast(a + ['\n'], r, m);
  }

  lemma InfixHas(a: string, b: string, c: string, m: string)
    requires Occurs(b, m)
    ensures Occurs(a + b + c, m)
  {
    hide Find;
    FindStable(b, c, m, 0);
    FindShift(a, b + c, m, 0);
    assert a + b + c == a + (b + c);
    if Find(a + b + c, m, 0) == -1 { FindFrom(a + b + c, m, 0, |a|); }
  }

  /** A text may be cut before a character that `m` does not have behind its first: what is not
      found in front of the cut is not found across it either. */
  lemma FindPastCut(a: string, r: string, m: string, from: nat)
    requires m != "" && (r == "" || r[0] !in m[1..])
    requires from <= |a| && Find(a, m, from) == -1
    ensures Find(a + r, m, from) == if Find(r, m, 0) == -1 then -1 else |a| + Find(r, m, 0)
  {
    hide Find;
    FindLeftmost(a, m, from);
    FindLeftmost(a + r, m, from);
    var j := Find(a + r, m, from);
    if from <= j < |a| {
      if j + |m| <= |a| {
        AtLeft(a, r, m, j);
      } else {
        assert (a + r)[|a|] == r[0];
        CharBehindHead(a + r, m, j, |a|);
      }
    }
    FindFrom(a + r, m, from, |a|);
    FindShift(a, r, m, 0);
  }

  lemma CharBehindHead(t: string, m: string, j: nat, i: nat)
    requires At(t, m, j) && j < i < j + |m|
    ensures t[i] in m[1..]
  {
    assert t[i] == m[i - j] == m[1..][i - j - 1];
  }

  /** The first occurrence is found in any prefix that holds it. */
  lemma FirstInPrefix(t: string, m: string, n: nat)
    requires 0 <= Find(t, m, 0) && Find(t, m, 0) + |m| <= n <= |t|
    ensures Find(t[..n], m, 0) == Find(t, m, 0)
  {
    hide Find;
    var p := Find(t, m, 0);
    assert t == t[..n] + t[n..];
    FindLeftmost(t, m, 0);
    AtLeft(t[..n], t[n..], m, p);
    FindLeftmost(t[..n], m, 0);
    FindStable(t[..n], t[n..], m, 0);
  }

  lemma FindFirstIn(t: string, p: nat, e: nat, m: string, i: nat, j: nat)
    requires p <= e <= |t| && i <= j && Find(t, m, p + i) == p + j && p + j + |m| <= e
    ensures Find(t[p..e], m, i) == j
  {
    hide Find;
    FindLeftmost(t, m, p + i);
    AtInside(t, p, e, m, j);
    forall x | i <= x < j ensures !At(t[p..e], m, x) { AtInside(t, p, e, m, x); }
    FindIs(t[p..e], m, i, j);
  }

  lemma AtInside(t: string, p: nat, e: nat, m: string, x: nat)
    requires p <= e <= |t|
    ensures At(t[p..e], m, x) <==> At(t, m, p + x) && p + x + |m| <= e
  {
    hide At;
    var a, b, c := t[..p], t[p..e], t[e..];
    assert t == a + (b + c);
    AtRight(a, b + c, m, x);
    if x + |m| <= |b| { AtLeft(b, c, m, x); } else { AtFits(b, m, x); }
  }

  lemma AtFits(t: string, m: string, i: nat)
    ensures At(t, m, i) ==> i + |m| <= |t|
  {}

  // ----- lines -----

  /** `sep.join(parts)` */
  function Join(sep: string, parts: seq<string>): string {
    if parts == [] then ""
    else if |parts| == 1 then parts[0]
    else parts[0] + sep + Join(sep, parts[1..])
  }

  lemma {:induction false} JoinConcat(sep: string, a: seq<string>, b: seq<string>)
    requires a != [] && b != []
    ensures Join(sep, a + b) == Join(sep, a) + sep + Join(sep, b)
  {
    if |a| == 1 {
      assert (a + b)[1..] == b;
    } else {
      assert (a + b)[1..] == a[1..] + b;
      JoinConcat(sep, a[1..], b);
    }
  }

  function LinesBefore(lines: seq<string>, i: nat): string
    requires i < |lines|
  {
    if i == 0 then "" else Join("\n", lines[..i]) + "\n"
  }

  function LinesAfter(lines: seq<string>, i: nat): string
    requires i < |lines|
  {
    if i + 1 == |lines| then "" else "\n" + Join("\n", lines[i + 1..])
  }

  lemma JoinAround(lines: seq<string>, i: nat, x: string)
    requires i < |lines|
    ensures Join("\n", lines[i := x]) == LinesBefore(lines, i) + x + LinesAfter(lines, i)
  {
    var upto := lines[..i] + [x];
    if i != 0 { JoinConcat("\n", lines[..i], [x]); }
    if i + 1 == |lines| {
      assert lines[i := x] == upto;
    } else {
      assert lines[i := x] == upto + lines[i + 1..];
      JoinConcat("\n", upto, lines[i + 1..]);
    }
  }

  /** A newline-free word occurs in joined lines only if it occurs in one of them. */
  lemma {:induction false} JoinLacks(lines: seq<string>, m: string)
    requires m != "" && '\n' !in m
    requires forall i :: 0 <= i < |lines| ==> !Occurs(lines[i], m)
    ensures !Occurs(Join("\n", lines), m)
  {
    if |lines| > 1 {
      JoinLacks(lines[1..], m);
      FindPastLine(lines[0], Join("\n", lines[1..]), m);
    }
  }

  /** No newline-free word that the earlier lines lack begins in front of line `i`. */
  lemma LinesBeforeSeamFree(lines: seq<string>, i: nat, r: string, m: string)
    requires i < |lines| && m != "" && '\n' !in m
    requires forall j :: 0 <= j < i ==> !Occurs(lines[j], m)
    ensures SeamFree(LinesBefore(lines, i), r, m)
  {
    if i != 0 {
      JoinLacks(lines[..i], m);
      NoStraddle(Join("\n", lines[..i]), '\n', r, m);
    }
  }

  lemma LinesAroundLack(lines: seq<string>, i: nat, m: string)
    requires i < |lines| && m != "" && '\n' !in m
    requires forall j :: 0 <= j < |lines| && j != i ==> !Occurs(lines[j], m)
    ensures !Occurs(LinesBefore(lines, i), m) && !Occurs(LinesAfter(lines, i), m)
  {
    if i != 0 {
      JoinLacks(lines[..i], m);
      FindPastLine(Join("\n", lines[..i]), "", m);
      assert LinesBefore(lines, i) + "" == LinesBefore(lines, i);
    }
    if i + 1 < |lines| {
      JoinLacks(lines[i + 1..], m);
      FindPastLine("", Join("\n", lines[i + 1..]), m);
      assert "" + "\n" + Join("\n", lines[i + 1..]) == LinesAfter(lines, i);
    }
  }

  // ----- white space -----

  /** `c.isspace()`; the class `\s` of a pattern over `str` is the same set. */
  predicate IsSpace(c: char) {
    || ('\t' <= c <= '\r') || ('\U{1C}' <= c <= ' ') || c == '\U{85}' || c == '\U{A0}'
    || c == '\U{1680}' || ('\U{2000}' <= c <= '\U{200A}') || c == '\U{2028}' || c == '\U{2029}'
    || c == '\U{202F}' || c == '\U{205F}' || c == '\U{3000}'
  }

  predicate Blank(t: string) {
    forall i :: 0 <= i < |t| ==> IsSpace(t[i])
  }

  lemma StripStep(t: string, n: nat)
    requires n < |t| && IsSpace(t[0]) && Blank(t[1..][..n])
    ensures Blank(t[..n + 1]) && t[n + 1..] == t[1..][n..]
  {
    hide IsSpace;
    assert t[..n + 1] == [t[0]] + t[1..][..n];
  }

  /** `t.lstrip()`, which is also what a greedy `\s*` leaves behind. */
  function LStrip(t: string): (r: string)
    ensures |r| <= |t| && t[|t| - |r|..] == r && Blank(t[..|t| - |r|])
    ensures r == "" || !IsSpace(r[0])
  {
    hide IsSpace;
    if t == "" || !IsSpace(t[0]) then t
    else
      var r := LStrip(t[1..]);
      StripStep(t, |t| - 1 - |r|);
      r
  }

  /** `t.rstrip()` */
  function RStrip(t: string): (r: string)
    ensures r <= t && Blank(t[|r|..])
    ensures r == "" || !IsSpace(r[|r| - 1])
  {
    hide IsSpace;
    if t == "" || !IsSpace(t[|t| - 1]) then t
    else
      var r := RStrip(t[..|t| - 1]);
      assert t[|r|..] == t[..|t| - 1][|r|..] + [t[|t| - 1]];
      r
  }

  /** Stripping stops at the last printing character, wherever the text was cut. */
  lemma RStripConcat(a: string, b: string)
    ensures RStrip(a + b) == if Blank(b) then RStrip(a) else a + RStrip(b)
  {
    hide IsSpace;
    if b == "" {
      assert a + b == a;
    } else {
      var c := b[..|b| - 1];
      assert (a + b)[..|a + b| - 1] == a + c && b == c + [b[|b| - 1]];
      RStripConcat(a, c);
      if IsSpace(b[|b| - 1]) {
        assert Blank(b) <==> Blank(c);
      } else {
        assert b[|b| - 1] in b && !Blank(b);
      }
    }
  }

  lemma RStripSolid(t: string)
    requires t != "" && !IsSpace(t[|t| - 1])
    ensures RStrip(t) == t && !Blank(t)
  {}

  // ----- lists of names -----

  function SetOf(xs: seq<string>): set<string> {
    set i | 0 <= i < |xs| :: xs[i]
  }

  predicate Distinct(xs: seq<string>) {
    forall i, j :: 0 <= i < j < |xs| ==> xs[i] != xs[j]
  }
}
