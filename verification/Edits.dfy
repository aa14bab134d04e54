/** Counted replacement (p13_evidence/implement_wiring.py): `str.count` and `str.replace` on
    non-overlapping occurrences, and a list of edits each guarded by an exact count. */
module Edits {
  import opened Outcome
  import opened Text

  // ----- split, count, replace -----

  /** The stretches between the non-overlapping occurrences of `m`, found from left to right. */
  function Split(t: string, m: string): (parts: seq<string>)
    requires m != ""
    ensures parts != []
    decreases |t|
  {
    var i := Find(t, m, 0);
    if i == -1 then [t] else [t[..i]] + Split(t[i + |m|..], m)
  }

  /** An empty `m` stands before, between and behind the characters. */
  function Pieces(t: string, m: string): (parts: seq<string>)
    ensures parts != []
  {
    if m == "" then [""] + seq(|t|, i requires 0 <= i < |t| => [t[i]]) + [""] else Split(t, m)
  }

  function Count(t: string, m: string): nat {
    |Pieces(t, m)| - 1
  }

  function Replace(t: string, m: string, a: string): string {
    Join(a, Pieces(t, m))
  }

  /** Pieces that the search from left to right would give back. */
  predicate Leftmost(parts: seq<string>, m: string) {
    && parts != []
    && (forall i :: 0 <= i < |parts| - 1 ==> Find(parts[i] + m, m, 0) == |parts[i]|)
    && !Occurs(parts[|parts| - 1], m)
  }

  lemma CutAt(t: string, m: string, i: nat)
    requires At(t, m, i)
    ensures t[..i + |m|] == t[..i] + m && t == t[..i] + m + t[i + |m|..]
  {
    assert t[i..i + |m|] == m;
    assert t == t[..i + |m|] + t[i + |m|..];
  }

  lemma CutFirst(t: string, m: string, i: nat)
    requires Find(t, m, 0) == i
    ensures At(t, m, i) && Find(t[..i] + m, m, 0) == i
  {
    hide Find, At;
    FindLeftmost(t, m, 0);
    CutAt(t, m, i);
    FirstInPrefix(t, m, i + |m|);
  }

  lemma LeftmostCons(p: string, parts: seq<string>, m: string)
    requires Leftmost(parts, m) && Find(p + m, m, 0) == |p|
    ensures Leftmost([p] + parts, m)
  {
    hide Find;
    forall j | 0 <= j < |parts| ensures Find(([p] + parts)[j] + m, m, 0) == |([p] + parts)[j]| {
      if j != 0 { assert ([p] + parts)[j] == parts[j - 1]; }
    }
  }

  lemma {:induction false} SplitRoundTrip(t: string, m: string)
    requires m != ""
    ensures Join(m, Split(t, m)) == t && Leftmost(Split(t, m), m)
    decreases |t|
  {
    hide Find, Leftmost, At;
    var i := Find(t, m, 0);
    if i == -1 {
      assert Leftmost([t], m) by { LastPiece(t, m); }
    } else {
      var rest := t[i + |m|..];
      SplitRoundTrip(rest, m);
      CutFirst(t, m, i);
      CutAt(t, m, i);
      LeftmostCons(t[..i], Split(rest, m), m);
      assert ([t[..i]] + Split(rest, m))[1..] == Split(rest, m);
    }
  }

  lemma LastPiece(t: string, m: string)
    requires !Occurs(t, m)
    ensures Leftmost([t], m)
  {}

  /** Only one way of cutting a text at `m` is leftmost. */
  lemma {:induction false} SplitUnique(parts: seq<string>, m: string)
    requires m != "" && Leftmost(parts, m)
    ensures Split(Join(m, parts), m) == parts
    decreases |parts|
  {
    hide Find;
    var t := Join(m, parts);
    if |parts| == 1 {
      assert t == parts[0];
    } else {
      var rest := Join(m, parts[1..]);
      assert forall i :: 0 <= i < |parts| - 2 ==> parts[1..][i] == parts[i + 1];
      SplitUnique(parts[1..], m);
      FindStable(parts[0] + m, rest, m, 0);
      assert t == parts[0] + m + rest;
      assert t[..|parts[0]|] == parts[0] && t[|parts[0]| + |m|..] == rest;
      assert parts == [parts[0]] + parts[1..];
    }
  }

  // ----- how long the result is -----

  function Total(parts: seq<string>): nat {
    if parts == [] then 0 else |parts[0]| + Total(parts[1..])
  }

  lemma {:induction false} JoinLength(a: string, parts: seq<string>)
    requires parts != []
    ensures |Join(a, parts)| == Total(parts) + (|parts| - 1) * |a|
  {
    if |parts| > 1 {
      JoinLength(a, parts[1..]);
      assert (|parts| - 1) * |a| == |a| + (|parts| - 2) * |a|;
    }
  }

  lemma PiecesJoin(t: string, m: string)
    ensures Join(m, Pieces(t, m)) == t
  {
    if m == "" { JoinChars(t); } else { SplitRoundTrip(t, m); }
  }

  lemma {:induction false} JoinChars(t: string)
    ensures Join("", Pieces(t, "")) == t
  {
    var parts := Pieces(t, "");
    if t == "" {
      assert parts == ["", ""];
    } else {
      JoinChars(t[1..]);
      var cs := seq(|t|, i requires 0 <= i < |t| => [t[i]]);
      var ds := seq(|t| - 1, i requires 0 <= i < |t| - 1 => [t[1..][i]]);
      assert cs == [[t[0]]] + ds;
      assert parts == ["", [t[0]]] + (ds + [""]);
      assert Pieces(t[1..], "") == [""] + (ds + [""]);
      JoinConcat("", ["", [t[0]]], ds + [""]);
      JoinConcat("", [""], ds + [""]);
      assert Join("", ["", [t[0]]]) == "" + "" + [t[0]];
    }
  }

  /** Every replacement of `Count` occurrences changes the length by exactly that many differences. */
  lemma ReplaceLength(t: string, m: string, a: string)
    ensures |Replace(t, m, a)| == |t| + Count(t, m) * (|a| - |m|)
  {
    PiecesJoin(t, m);
    var parts := Pieces(t, m);
    JoinLength(m, parts);
    JoinLength(a, parts);
    assert (|parts| - 1) * |a| - (|parts| - 1) * |m| == (|parts| - 1) * (|a| - |m|);
  }

  // ----- guarded edits -----

  datatype Change = Change(before: string, after: string, count: int)

  function Edit(t: string, changes: seq<Change>): Result<string>
    decreases |changes|
  {
    if changes == [] then Ok(t)
    else
      var c := changes[0];
      if Count(t, c.before) != c.count then Err(GuardFailed)
      else Edit(Replace(t, c.before, c.after), changes[1..])
  }

  function Growth(changes: seq<Change>): int {
    if changes == [] then 0
    else changes[0].count * (|changes[0].after| - |changes[0].before|) + Growth(changes[1..])
  }

  /** A successful list of edits grows the text by what the list itself says. */
  lemma {:induction false} EditLength(t: string, changes: seq<Change>)
    requires Edit(t, changes).Ok?
    ensures |Edit(t, changes).value| == |t| + Growth(changes)
    decreases |changes|
  {
    if changes != [] {
      var c := changes[0];
      ReplaceLength(t, c.before, c.after);
      EditLength(Replace(t, c.before, c.after), changes[1..]);
    }
  }

  /** A text can be edited exactly when it is made of leftmost pieces in the stated number; the
      result then has the new word wherever the old one was, and nothing else is different. */
  lemma EditOneExactly(t: string, c: Change)
    requires c.before != ""
    ensures Edit(t, [c]).Ok? <==>
      exists parts :: Leftmost(parts, c.before) && t == Join(c.before, parts) && |parts| == c.count + 1
    ensures forall parts :: Leftmost(parts, c.before) && t == Join(c.before, parts) && |parts| == c.count + 1 ==>
      Edit(t, [c]) == Ok(Join(c.after, parts))
  {
    hide Find, Leftmost;
    SplitRoundTrip(t, c.before);
    assert [c][1..] == [];
    forall parts | Leftmost(parts, c.before) && t == Join(c.before, parts) ensures parts == Split(t, c.before) {
      SplitUnique(parts, c.before);
    }
  }

  lemma {:induction false} EditConcat(t: string, cs: seq<Change>, ds: seq<Change>)
    ensures Edit(t, cs + ds) == if Edit(t, cs).Err? then Edit(t, cs) else Edit(Edit(t, cs).value, ds)
    decreases |cs|
  {
    hide Find, Replace, Count;
    if cs == [] {
      assert cs + ds == ds;
    } else {
      assert (cs + ds)[1..] == cs[1..] + ds && (cs + ds)[0] == cs[0];
      EditConcat(Replace(t, cs[0].before, cs[0].after), cs[1..], ds);
    }
  }

  /** The first `n` edits went through, and the count of the next one is wrong. */
  ghost predicate StopsAt(t: string, changes: seq<Change>, n: nat) {
    && n < |changes| && Edit(t, changes[..n]).Ok?
    && Count(Edit(t, changes[..n]).value, changes[n].before) != changes[n].count
  }

  lemma StopIsError(t: string, changes: seq<Change>, n: nat)
    requires StopsAt(t, changes, n)
    ensures Edit(t, changes).Err?
    ensures forall m :: n < m <= |changes| ==> Edit(t, changes[..m]).Err?
  {
    hide Find, Replace, Count;
    forall m | n < m <= |changes| ensures Edit(t, changes[..m]).Err? {
      assert changes[..m] == changes[..n] + changes[n..m] && changes[n..m][0] == changes[n];
      EditConcat(t, changes[..n], changes[n..m]);
    }
    assert changes[..|changes|] == changes;
  }

  /** A list of edits fails exactly when there is a first wrong count, taken in the text as the
      edits before it left it; there is only one such place, and nothing behind it matters. */
  lemma {:induction false} EditStopsExactly(t: string, changes: seq<Change>)
    ensures Edit(t, changes).Err? <==> exists n: nat :: StopsAt(t, changes, n)
    ensures forall n: nat, m: nat :: StopsAt(t, changes, n) && StopsAt(t, changes, m) ==> n == m
    decreases |changes|
  {
    hide Find, Replace, Count, StopsAt;
    if Edit(t, changes).Err? { var n := FirstStop(t, changes); }
    forall n: nat | StopsAt(t, changes, n) ensures Edit(t, changes).Err? { StopIsError(t, changes, n); }
    forall n: nat, m: nat | StopsAt(t, changes, n) && StopsAt(t, changes, m) ensures n == m {
      StopIsError(t, changes, n);
      StopIsError(t, changes, m);
      assert n < |changes| && m < |changes| && Edit(t, changes[..n]).Ok? && Edit(t, changes[..m]).Ok? by {
        StopsWhere(t, changes, n);
        StopsWhere(t, changes, m);
      }
    }
  }

  lemma StopsWhere(t: string, changes: seq<Change>, n: nat)
    requires StopsAt(t, changes, n)
    ensures n < |changes| && Edit(t, changes[..n]).Ok?
  {}

  lemma {:induction false} FirstStop(t: string, changes: seq<Change>) returns (n: nat)
    requires Edit(t, changes).Err?
    ensures StopsAt(t, changes, n)
    decreases |changes|
  {
    hide Find, Replace, Count;
    var front := changes[..|changes| - 1];
    assert changes == front + [changes[|changes| - 1]];
    EditConcat(t, front, [changes[|changes| - 1]]);
    if Edit(t, front).Err? {
      n := FirstStop(t, front);
      assert front[..n] == changes[..n];
    } else {
      n := |front|;
      assert [changes[n]][1..] == [];
    }
  }
}
