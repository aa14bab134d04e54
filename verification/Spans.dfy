/** One update seen from the place of its START, for markers that are written in angle brackets:
    what is found across a seam, and what the update leaves in front of START and behind END. */
module Spans {
  import opened Text
  import opened Markers
  import opened Ledger

  // ----- markers in angle brackets -----

  /** Like `<!-- X -->`: the brackets are the first and the last character, and nowhere else. */
  predicate Bracketed(m: string) {
    && |m| >= 2 && m[0] == '<' && m[|m| - 1] == '>' && '\n' !in m
    && '<' !in m[1..] && '>' !in m[..|m| - 1]
  }

  predicate Solid(x: string) {
    x != "" && x[0] == '<' && x[|x| - 1] == '>'
  }

  predicate BracketedKind(k: Kind) {
    Bracketed(k.start) && Bracketed(k.end)
  }

  lemma BracketedIsValid(k: Kind)
    requires BracketedKind(k)
    ensures ValidKind(k) && Solid(k.start) && Solid(k.end)
  {}

  /** No bracketed marker reaches across the beginning of something solid. */
  lemma PastCut(a: string, x: string, m: string)
    requires Bracketed(m) && Solid(x) && !Occurs(a, m)
    ensures Find(a + x, m, 0) == if Find(x, m, 0) == -1 then -1 else |a| + Find(x, m, 0)
  {
    hide Find;
    FindPastCut(a, x, m, 0);
  }

  /** Nor across its end. */
  lemma PastEnd(x: string, r: string, m: string)
    requires Bracketed(m) && Solid(x) && !Occurs(x, m)
    ensures Find(x + r, m, 0) == if Find(r, m, 0) == -1 then -1 else |x| + Find(r, m, 0)
  {
    hide Find;
    var j := Find(x + r, m, 0);
    FindLeftmost(x + r, m, 0);
    FindLeftmost(x, m, 0);
    if 0 <= j < |x| {
      if j + |m| <= |x| { AtLeft(x, r, m, j); } else { LastInside(x + r, m, j, |x| - 1); }
    }
    FindPast(x, r, m);
  }

  lemma LastInside(t: string, m: string, j: nat, i: nat)
    requires At(t, m, j) && j <= i < j + |m| - 1
    ensures t[i] in m[..|m| - 1]
  {
    assert t[i] == m[i - j] == m[..|m| - 1][i - j];
  }

  /** A marker occurs around something solid only if it occurs in one of the parts. */
  lemma InParts(a: string, x: string, c: string, m: string)
    requires Bracketed(m) && Solid(x)
    ensures Occurs(a + x + c, m) <==> Occurs(a, m) || Occurs(x, m) || Occurs(c, m)
  {
    hide Find;
    var xc := x + c;
    assert a + x + c == a + xc;
    if Occurs(a, m) {
      FindStable(a, xc, m, 0);
    } else if Occurs(x, m) {
      InfixHas(a, x, c, m);
    } else {
      PastEnd(x, c, m);
      FindPastCut(a, xc, m, 0);
    }
  }

  /** The same across a line end. */
  lemma InLines(a: string, r: string, m: string)
    requires Bracketed(m)
    ensures Occurs(a + "\n" + r, m) <==> Occurs(a, m) || Occurs(r, m)
  {
    hide Find;
    if Occurs(a, m) {
      assert a + "\n" + r == a + ("\n" + r);
      FindStable(a, "\n" + r, m, 0);
    } else {
      FindPastLine(a, r, m);
    }
  }

  // ----- what an update does, from the place of START -----

  /** The text behind the first END of `rest`. */
  function Behind(rest: string, k: Kind): string
    requires Occurs(rest, k.end)
  {
    rest[Find(rest, k.end, 0) + |k.end|..]
  }

  lemma FoundAfter(pre: string, m: string)
    requires Bracketed(m) && !Occurs(pre, m)
    ensures Find(pre + m, m, 0) == |pre|
  {
    hide Find;
    assert At(m, m, 0);
    FindIs(m, m, 0, 0);
    PastCut(pre, m, m);
  }

  lemma OpenedAt(pre: string, rest: string, k: Kind)
    requires BracketedKind(k) && !Occurs(pre, k.start)
    ensures Find(pre + k.start + rest, k.start, 0) == |pre|
    ensures Find(pre + k.start + rest, k.end, |pre| + |k.start|)
         == if Occurs(rest, k.end) then |pre| + |k.start| + Find(rest, k.end, 0) else -1
  {
    hide Find, Bracketed;
    FoundAfter(pre, k.start);
    FindStable(pre + k.start, rest, k.start, 0);
    FindShift(pre + k.start, rest, k.end, 0);
  }

  /** An update where START stands once: closed, it becomes the block; open, it stays. */
  lemma UpdateAt(pre: string, rest: string, k: Kind, b: string)
    requires BracketedKind(k) && !Occurs(pre, k.start)
    ensures Occurs(pre + k.start + rest, k.start)
    ensures SubFirst(pre + k.start + rest, k, b)
         == if Occurs(rest, k.end) then pre + b + Behind(rest, k) else pre + k.start + rest
  {
    hide Find;
    var t := pre + k.start + rest;
    OpenedAt(pre, rest, k);
    if Occurs(rest, k.end) {
      var q := |pre| + |k.start| + Find(rest, k.end, 0);
      SubFound(t, k, |pre|, q, b);
      assert t[..|pre|] == pre && t[q + |k.end|..] == Behind(rest, k);
    }
  }

  lemma BehindLacks(rest: string, k: Kind, m: string)
    requires Occurs(rest, k.end) && !Occurs(rest, m)
    ensures !Occurs(Behind(rest, k), m)
  {
    hide Find;
    SuffixLacks(rest, Find(rest, k.end, 0) + |k.end|, m);
  }

  lemma BehindStable(rest: string, more: string, k: Kind)
    requires Occurs(rest, k.end)
    ensures Occurs(rest + more, k.end) && Behind(rest + more, k) == Behind(rest, k) + more
  {
    hide Find;
    FindStable(rest, more, k.end, 0);
  }

  lemma BracketedBlockIsSolid(k: Kind, b: string)
    requires BracketedKind(k) && WellFormed(k, b)
    ensures Solid(b)
  {
    hide Find;
    FindLeftmost(b, k.start, 0);
    FindLeftmost(b, k.end, |k.start|);
    assert b[0..|k.start|][0] == '<' && b[|b| - |k.end|..|b|] == k.end;
  }

  /** What stands from the START on, after an update. */
  function Updated(rest: string, k: Kind, b: string): string {
    if Occurs(rest, k.end) then b + Behind(rest, k) else k.start + rest
  }

  lemma SyncAt(pre: string, rest: string, u: Block)
    requires BracketedKind(u.kind) && !Occurs(pre, u.kind.start)
    ensures Sync(u.kind, pre + u.kind.start + rest, u.text).Ok?
    ensures Sync(u.kind, pre + u.kind.start + rest, u.text).value == pre + Updated(rest, u.kind, u.text)
  {
    hide Find, SubFirst, Behind;
    UpdateAt(pre, rest, u.kind, u.text);
  }

  lemma UpdatedLacks(pre: string, rest: string, u: Block, m: string)
    requires BracketedKind(u.kind) && WellFormed(u.kind, u.text) && Bracketed(m)
    requires !Occurs(pre + u.kind.start + rest, m) && !Occurs(u.text, m)
    ensures !Occurs(pre + Updated(rest, u.kind, u.text), m)
  {
    hide Find, WellFormed, Behind;
    BracketedIsValid(u.kind);
    BracketedBlockIsSolid(u.kind, u.text);
    InParts(pre, u.kind.start, rest, m);
    if Occurs(rest, u.kind.end) {
      BehindLacks(rest, u.kind, m);
      InParts(pre, u.text, Behind(rest, u.kind), m);
      assert pre + u.text + Behind(rest, u.kind) == pre + (u.text + Behind(rest, u.kind));
    } else {
      assert pre + u.kind.start + rest == pre + (u.kind.start + rest);
    }
  }

  lemma UpdatedAppended(rest: string, more: string, u: Block)
    requires Occurs(rest + more, u.kind.end) <==> Occurs(rest, u.kind.end)
    ensures Updated(rest + more, u.kind, u.text) == Updated(rest, u.kind, u.text) + more
  {
    hide Find, Behind;
    if Occurs(rest, u.kind.end) {
      BehindStable(rest, more, u.kind);
    } else {
      assert u.kind.start + (rest + more) == u.kind.start + rest + more;
    }
  }

  lemma StaysOpen(a: string, c: string, f: Block)
    requires !Occurs(c, f.kind.end)
    ensures a + Updated(c, f.kind, f.text) == a + f.kind.start + c
  {}
}
