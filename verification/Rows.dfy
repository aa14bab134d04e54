/** The status column of an acceptance matrix (p13_evidence/archive_p12.py): split into lines,
    rewrite the matching rows in place, check how many there were, join again. */
module Rows {
  import opened Outcome
  import opened Text

  const ROW := "| P12-"
  const OLD_STATUS := "| IMPLEMENTED_NOT_ACCEPTED |"
  const NEW_STATUS := "| ACCEPTED |"

  // ----- str.splitlines -----

  predicate IsBreak(c: char) {
    ('\n' <= c <= '\r') || ('\U{1C}' <= c <= '\U{1E}') || c == '\U{85}' || c == '\U{2028}' || c == '\U{2029}'
  }

  function BreakAt(t: string): (i: nat)
    ensures i <= |t| && (i < |t| ==> IsBreak(t[i]))
    ensures forall j :: 0 <= j < i ==> !IsBreak(t[j])
  {
    if t == "" || IsBreak(t[0]) then 0 else 1 + BreakAt(t[1..])
  }

  /** A carriage return and the line feed behind it are one break. */
  function BreakLength(t: string, i: nat): (n: nat)
    requires i < |t|
    ensures 1 <= n && i + n <= |t|
  {
    if t[i] == '\r' && i + 1 < |t| && t[i + 1] == '\n' then 2 else 1
  }

  function SplitLines(t: string): seq<string>
    decreases |t|
  {
    if t == "" then []
    else
      var i := BreakAt(t);
      if i == |t| then [t] else [t[..i]] + SplitLines(t[i + BreakLength(t, i)..])
  }

  /** The line ends of `str.splitlines`. */
  const BREAKS := ["\n", "\r", "\r\n", "\U{0B}", "\U{0C}", "\U{1C}", "\U{1D}", "\U{1E}", "\U{85}",
                   "\U{2028}", "\U{2029}"]

  ghost predicate WithoutBreaks(t: string) {
    forall i, j :: 0 <= i < |t| && 0 <= j < |BREAKS| ==> BREAKS[j] != [t[i]]
  }

  lemma IsBreakExactly(c: char)
    ensures IsBreak(c) <==> exists j :: 0 <= j < |BREAKS| && BREAKS[j] == [c]
  {
    assert BREAKS[0] == "\n" && BREAKS[1] == "\r" && BREAKS[3] == "\U{0B}" && BREAKS[4] == "\U{0C}";
    assert BREAKS[5] == "\U{1C}" && BREAKS[6] == "\U{1D}" && BREAKS[7] == "\U{1E}" && BREAKS[8] == "\U{85}";
    assert BREAKS[9] == "\U{2028}" && BREAKS[10] == "\U{2029}" && |BREAKS[2]| == 2;
    if IsBreak(c) {
      assert c == '\n' || c == '\r' || c == '\U{0B}' || c == '\U{0C}' || c == '\U{1C}' || c == '\U{1D}' || c == '\U{1E}'
        || c == '\U{85}' || c == '\U{2028}' || c == '\U{2029}';
      assert exists j :: 0 <= j < |BREAKS| && BREAKS[j] == [c];
    }
  }

  /** The lines of a text, from left to right: up to a line end, the two characters of a carriage
      return and a line feed being one; a last line may go without. */
  lemma LinesExactly(line: string, b: string, rest: string)
    requires WithoutBreaks(line)
    ensures SplitLines("") == [] && (line != "" ==> SplitLines(line) == [line])
    ensures b in BREAKS && !(b == "\r" && "\n" <= rest) ==> SplitLines(line + b + rest) == [line] + SplitLines(rest)
  {
    hide SplitLines, BreakAt;
    NoBreakInside(line);
    NoLines();
    if line != "" { OneLine(line); }
    if b in BREAKS && !(b == "\r" && "\n" <= rest) {
      var j :| 0 <= j < |BREAKS| && BREAKS[j] == b;
      BreakLengths(b, j);
      FirstLineOf(line, b, rest);
    }
  }

  lemma NoBreakInside(line: string)
    requires WithoutBreaks(line)
    ensures forall i :: 0 <= i < |line| ==> !IsBreak(line[i])
  {
    forall i | 0 <= i < |line| ensures !IsBreak(line[i]) { IsBreakExactly(line[i]); }
  }

  lemma BreakLengths(b: string, j: nat)
    requires j < |BREAKS| && BREAKS[j] == b
    ensures b == "\r\n" || (|b| == 1 && IsBreak(b[0]))
  {
    if j != 2 { assert |b| == 1 && b == [b[0]]; IsBreakExactly(b[0]); }
  }

  lemma OneLine(line: string)
    requires line != "" && forall i :: 0 <= i < |line| ==> !IsBreak(line[i])
    ensures SplitLines(line) == [line]
  {
    assert BreakAt(line) == |line|;
  }

  lemma FirstLineOf(line: string, b: string, rest: string)
    requires forall i :: 0 <= i < |line| ==> !IsBreak(line[i])
    requires b == "\r\n" || (|b| == 1 && IsBreak(b[0]) && !(b == "\r" && "\n" <= rest))
    ensures SplitLines(line + b + rest) == [line] + SplitLines(rest)
  {
    hide BreakAt;
    var t := line + b + rest;
    assert t[|line|] == b[0] && forall j :: 0 <= j < |line| ==> t[j] == line[j];
    assert BreakAt(t) == |line|;
    assert t[..|line|] == line && t[|line| + |b|..] == rest;
    if |b| == 2 { assert t[|line| + 1] == '\n'; }
    if |b| == 1 && |line| + 1 < |t| { assert t[|line| + 1] == rest[0]; }
    assert BreakLength(t, |line|) == |b|;
  }

  function Rejoin(lines: seq<string>): string {
    Join("\n", lines) + "\n"
  }

  /** A non-empty text of lines that all end in a line feed. */
  predicate Plain(t: string) {
    t != "" && t[|t| - 1] == '\n' && forall i :: 0 <= i < |t| && IsBreak(t[i]) ==> t[i] == '\n'
  }

  predicate Unbroken(lines: seq<string>) {
    forall i, j :: 0 <= i < |lines| && 0 <= j < |lines[i]| ==> !IsBreak(lines[i][j])
  }

  lemma {:induction false} LinesAreUnbroken(t: string)
    ensures Unbroken(SplitLines(t))
    decreases |t|
  {
    if t != "" {
      var i := BreakAt(t);
      if i != |t| { LinesAreUnbroken(t[i + BreakLength(t, i)..]); }
    }
  }

  lemma {:induction false} RejoinedIsPlain(lines: seq<string>)
    requires Unbroken(lines)
    ensures Plain(Rejoin(lines))
  {
    if |lines| > 1 {
      RejoinedIsPlain(lines[1..]);
      assert Rejoin(lines) == lines[0] + "\n" + Rejoin(lines[1..]);
    }
  }

  lemma SplitAtBreak(a: string, rest: string)
    requires forall i :: 0 <= i < |a| ==> !IsBreak(a[i])
    ensures SplitLines(a + "\n" + rest) == [a] + SplitLines(rest)
  {
    hide BreakAt;
    var t := a + "\n" + rest;
    assert t[|a|] == '\n' && forall j :: 0 <= j < |a| ==> t[j] == a[j];
    assert BreakAt(t) == |a| && BreakLength(t, |a|) == 1;
    assert t[..|a|] == a && t[|a| + 1..] == rest;
  }

  lemma {:induction false} PlainRejoins(t: string)
    requires Plain(t)
    ensures SplitLines(t) != [] && Rejoin(SplitLines(t)) == t
    decreases |t|
  {
    hide BreakAt, SplitLines;
    var i := BreakAt(t);
    var a, rest := t[..i], t[i + 1..];
    assert i < |t| && t[i] == '\n';
    assert t == a + "\n" + rest;
    SplitAtBreak(a, rest);
    if rest == "" {
      assert SplitLines("") == [] by { NoLines(); }
    } else {
      assert rest[|rest| - 1] == t[|t| - 1];
      PlainRejoins(rest);
      assert SplitLines(t)[1..] == SplitLines(rest);
    }
  }

  lemma NoLines()
    ensures SplitLines("") == []
  {}

  /** Splitting and joining gives the text back exactly when it is plain; any other line end is
      turned into a line feed, and a last line without one gets one. */
  lemma RejoinExactly(t: string)
    ensures Rejoin(SplitLines(t)) == t <==> Plain(t)
  {
    LinesAreUnbroken(t);
    RejoinedIsPlain(SplitLines(t));
    if Plain(t) { PlainRejoins(t); }
  }

  lemma {:induction false} SplitRejoined(lines: seq<string>)
    requires lines != [] && Unbroken(lines)
    ensures SplitLines(Rejoin(lines)) == lines
  {
    hide SplitLines;
    var a := lines[0];
    if |lines| == 1 {
      SplitAtBreak(a, "");
      NoLines();
      assert Rejoin(lines) == a + "\n" + "";
    } else {
      SplitRejoined(lines[1..]);
      SplitAtBreak(a, Rejoin(lines[1..]));
      assert Rejoin(lines) == a + "\n" + Rejoin(lines[1..]);
      assert lines == [a] + lines[1..];
    }
  }

  // ----- one row -----

  predicate EndsWith(t: string, m: string) {
    |m| <= |t| && t[|t| - |m|..] == m
  }

  predicate Matching(line: string) {
    ROW <= line && EndsWith(line, OLD_STATUS)
  }

  function Accepted(line: string): string {
    if Matching(line) then line[..|line| - |OLD_STATUS|] + NEW_STATUS else line
  }

  function AcceptedAll(lines: seq<string>): seq<string> {
    seq(|lines|, i requires 0 <= i < |lines| => Accepted(lines[i]))
  }

  function Matches(lines: seq<string>): nat {
    if lines == [] then 0
    else Matches(lines[..|lines| - 1]) + if Matching(lines[|lines| - 1]) then 1 else 0
  }

  /** A rewritten row carries the new status and does not match again. */
  lemma RewrittenOnce(line: string)
    ensures Matching(line) <==> Accepted(line) != line
    ensures !Matching(Accepted(line))
    ensures Matching(line) ==> EndsWith(Accepted(line), NEW_STATUS) && |Accepted(line)| + 16 == |line|
  {
    if Matching(line) {
      var r := Accepted(line);
      assert r[|r| - 11] == ' ' && OLD_STATUS[|OLD_STATUS| - 11] == '_';
      if |OLD_STATUS| <= |r| { assert r[|r| - |OLD_STATUS|..][17] == ' '; }
    }
  }

  /** What may happen to one line: nothing, or its last column becomes the new status and all that
      stands in front of it is kept. */
  ghost predicate KeepsRow(was: string, now: string) {
    if exists x :: ROW <= x && was == x + OLD_STATUS
    then exists x :: ROW <= x && was == x + OLD_STATUS && now == x + NEW_STATUS
    else now == was
  }

  lemma RowKeepsItsText(x: string)
    requires ROW <= x
    ensures Accepted(x + OLD_STATUS) == x + NEW_STATUS
  {
    var line := x + OLD_STATUS;
    assert line[..|line| - |OLD_STATUS|] == x && line[|x|..] == OLD_STATUS;
  }

  /** The status column does not begin inside the beginning of a row. */
  lemma RowInFront(line: string, n: nat)
    requires ROW <= line && n + |OLD_STATUS| == |line| && line[n..] == OLD_STATUS
    ensures |ROW| <= n
  {
    assert line[n] == line[n..][0] == '|' && line[n + 2] == line[n..][2] == 'I' && line[2] == ROW[2] == 'P';
    assert forall i :: 0 < i < |ROW| ==> line[i] == ROW[i] && ROW[i] != '|';
  }

  lemma MatchingIsRow(line: string)
    ensures Matching(line) ==> exists x :: ROW <= x && line == x + OLD_STATUS
  {
    if Matching(line) {
      var n := |line| - |OLD_STATUS|;
      RowInFront(line, n);
      assert line == line[..n] + OLD_STATUS && ROW <= line[..n];
    }
  }

  /** In full: the first and the last column are fixed, everything between them is kept. */
  lemma StatusIsReplaced(x: string)
    ensures Accepted("| P12-" + x + "| IMPLEMENTED_NOT_ACCEPTED |") == "| P12-" + x + "| ACCEPTED |"
  {
    RowKeepsItsText("| P12-" + x);
  }

  lemma AcceptedKeepsRow(line: string)
    ensures KeepsRow(line, Accepted(line))
  {
    MatchingIsRow(line);
    if x :| ROW <= x && line == x + OLD_STATUS {
      RowKeepsItsText(x);
      assert line[|x|..] == OLD_STATUS;
    }
  }

  ghost predicate KeepsRows(was: seq<string>, now: seq<string>) {
    |now| == |was| && forall i :: 0 <= i < |was| ==> KeepsRow(was[i], now[i])
  }

  lemma AcceptedAllKeepsRows(lines: seq<string>)
    ensures KeepsRows(lines, AcceptedAll(lines))
  {
    hide Accepted, KeepsRow;
    forall i | 0 <= i < |lines| ensures KeepsRow(lines[i], AcceptedAll(lines)[i]) { AcceptedKeepsRow(lines[i]); }
  }

  /** The loop over the lines, with its counter. */
  method RewriteRows(lines: array<string>) returns (changed: nat)
    modifies lines
    ensures lines[..] == AcceptedAll(old(lines[..]))
    ensures KeepsRows(old(lines[..]), lines[..])
    ensures changed == Matches(old(lines[..]))
  {
    hide KeepsRows, AcceptedAll, Accepted, Matching, Matches;
    ghost var was := lines[..];
    changed := 0;
    var i := 0;
    NoMatches();
    assert was[..0] == [];
    while i < lines.Length
      invariant 0 <= i <= lines.Length
      invariant forall j :: 0 <= j < i ==> lines[j] == Accepted(was[j])
      invariant forall j :: i <= j < lines.Length ==> lines[j] == was[j]
      invariant changed == Matches(was[..i])
    {
      var line := lines[i];
      NextRow(was, i);
      if ROW <= line && EndsWith(line, OLD_STATUS) {
        lines[i] := line[..|line| - |OLD_STATUS|] + NEW_STATUS;
        changed := changed + 1;
      }
      i := i + 1;
    }
    assert was[..i] == was;
    AllRewritten(was, lines[..]);
  }

  lemma NoMatches()
    ensures Matches([]) == 0
  {}

  lemma NextRow(lines: seq<string>, i: nat)
    requires i < |lines|
    ensures var line, n := lines[i], |lines[i]| - |OLD_STATUS|;
      if ROW <= line && EndsWith(line, OLD_STATUS)
      then Accepted(line) == line[..n] + NEW_STATUS && Matches(lines[..i + 1]) == Matches(lines[..i]) + 1
      else Accepted(line) == line && Matches(lines[..i + 1]) == Matches(lines[..i])
  {
    assert lines[..i + 1][..i] == lines[..i] && lines[..i + 1][i] == lines[i];
  }

  lemma AllRewritten(was: seq<string>, now: seq<string>)
    requires |now| == |was| && forall j :: 0 <= j < |was| ==> now[j] == Accepted(was[j])
    ensures now == AcceptedAll(was) && KeepsRows(was, now)
  {
    hide Accepted, KeepsRows;
    AcceptedAllKeepsRows(was);
    assert now == AcceptedAll(was);
  }

  // ----- the matrix -----

  function ArchiveMatrix(t: string, expected: nat): Result<string> {
    var lines := SplitLines(t);
    if Matches(lines) != expected then Err(GuardFailed) else Ok(Rejoin(AcceptedAll(lines)))
  }

  function ChangedRows(lines: seq<string>): set<int> {
    set i | 0 <= i < |lines| && Accepted(lines[i]) != lines[i]
  }

  /** The rows the loop counted are exactly the rows it changed. */
  lemma {:induction false} CountIsChanges(lines: seq<string>)
    ensures Matches(lines) == |ChangedRows(lines)|
  {
    hide Matching, Accepted;
    if lines != [] {
      var n := |lines| - 1;
      CountIsChanges(lines[..n]);
      RewrittenOnce(lines[n]);
      assert ChangedRows(lines) == ChangedRows(lines[..n]) + if Matching(lines[n]) then {n} else {};
    }
  }

  lemma AcceptedUnbroken(lines: seq<string>)
    requires Unbroken(lines)
    ensures Unbroken(AcceptedAll(lines))
  {
    forall i, j | 0 <= i < |lines| && 0 <= j < |Accepted(lines[i])| ensures !IsBreak(Accepted(lines[i])[j]) {
      if Matching(lines[i]) && |lines[i]| - |OLD_STATUS| <= j {
        assert Accepted(lines[i])[j] == NEW_STATUS[j - (|lines[i]| - |OLD_STATUS|)];
      }
    }
  }

  lemma {:induction false} NoneMatches(lines: seq<string>)
    ensures Matches(AcceptedAll(lines)) == 0
  {
    if lines != [] {
      var n := |lines| - 1;
      NoneMatches(lines[..n]);
      assert AcceptedAll(lines)[..n] == AcceptedAll(lines[..n]);
      RewrittenOnce(lines[n]);
    }
  }

  /** The matrix is archived exactly when the number of rows that change is the expected one. */
  lemma MatrixExactly(t: string, expected: nat)
    ensures ArchiveMatrix(t, expected).Ok? <==> |ChangedRows(SplitLines(t))| == expected
  {
    hide SplitLines, Matches;
    CountIsChanges(SplitLines(t));
  }

  /** Archiving keeps every line in its place, rewrites the expected number of them, and cannot
      be done a second time. */
  lemma MatrixArchivedOnce(t: string, expected: nat)
    requires ArchiveMatrix(t, expected).Ok? && expected > 0
    ensures SplitLines(ArchiveMatrix(t, expected).value) == AcceptedAll(SplitLines(t))
    ensures KeepsRows(SplitLines(t), SplitLines(ArchiveMatrix(t, expected).value))
    ensures |ChangedRows(SplitLines(t))| == expected
    ensures ArchiveMatrix(ArchiveMatrix(t, expected).value, expected) == Err(GuardFailed)
  {
    var lines := SplitLines(t);
    LinesAreUnbroken(t);
    AcceptedUnbroken(lines);
    SplitRejoined(AcceptedAll(lines));
    AcceptedAllKeepsRows(lines);
    CountIsChanges(lines);
    NoneMatches(lines);
  }
}
