/** The first top block and the first end block of a document: when does their order matter? */
module Commute {
  import opened Outcome
  import opened Text
  import opened Markers
  import opened Ledger
  import opened Runs

  lemma RunPair(t: string, u: Block, v: Block)
    ensures RunText(t, [u]) == Sync(u.kind, t, u.text)
    ensures RunText(t, [u, v]) ==
      if Sync(u.kind, t, u.text).Err? then Sync(u.kind, t, u.text)
      else Sync(v.kind, Sync(u.kind, t, u.text).value, v.text)
  {
    hide Find;
    assert [u, v][..1] == [u] && [u][..0] == [];
  }

  ghost predicate Pair(t: string, b: Block, f: Block, kinds: set<Kind>) {
    && kinds == {b.kind, f.kind} && AllClean([b, f], kinds) && Lacks(t, kinds)
    && ValidKind(b.kind) && ValidKind(f.kind)
    && b.kind.place == AfterFirstLine && f.kind.place == AtEndStripped
  }

  lemma PairClean(t: string, b: Block, f: Block, kinds: set<Kind>)
    requires Pair(t, b, f, kinds)
    ensures Clean(b, kinds) && Clean(f, kinds) && b.kind != f.kind
    ensures !Occurs(b.text, f.kind.start) && !Occurs(f.text, b.kind.start)
    ensures AllClean([f, b], kinds)
  {
    hide Find, WellFormed;
    assert [b, f][0] == b && [b, f][1] == f;
    assert f.kind in kinds - {b.kind} && b.kind in kinds - {f.kind};
  }

  lemma OnlyPair(u: Block, v: Block, top: bool)
    ensures Only([u, v], top) ==
      (if IsTop(u.kind) == top then [u] else []) + (if IsTop(v.kind) == top then [v] else [])
  {
    assert [u, v][..1] == [u] && [u][..0] == [];
    assert Only([u], top) == if IsTop(u.kind) == top then [u] else [];
  }

  /** With print behind the first line, the two orders agree. */
  lemma PrintCommutes(t: string, b: Block, f: Block, kinds: set<Kind>)
    requires Pair(t, b, f, kinds) && Occurs(t, "\n") && !Blank(Rest(t))
    ensures RunText(t, [b, f]) == RunText(t, [f, b])
  {
    hide Find, WellFormed;
    PairClean(t, b, f, kinds);
    forall top ensures Only([b, f], top) == Only([f, b], top) {
      OnlyPair(b, f, top);
      OnlyPair(f, b, top);
    }
    FreshIsDoc(t, kinds);
    EndsCommute(Doc(FirstLine(t), [], Rest(t), []), [b, f], [f, b], kinds);
  }

  /** Without a line end the top update fails, unless an end update has written one. */
  lemma NoLineDoesNotCommute(t: string, b: Block, f: Block, kinds: set<Kind>)
    requires Pair(t, b, f, kinds) && !Occurs(t, "\n")
    ensures RunText(t, [b, f]) == Err(SubstringNotFound)
    ensures RunText(t, [f, b]).Ok?
  {
    hide Find, WellFormed;
    RunPair(t, b, f);
    RunPair(t, f, b);
    PairClean(t, b, f, kinds);
    assert RStrip(t) == t[..|RStrip(t)|];
    PrefixLacks(t, |RStrip(t)|, "\n");
    PrefixLacks(t, |RStrip(t)|, b.kind.start);
    LacksNewline(RStrip(t));
    EndThenTop(RStrip(t), f.text, b);
  }

  lemma LacksNewline(h: string)
    requires !Occurs(h, "\n")
    ensures '\n' !in h
  {
    FindLeftmost(h, "\n", 0);
    forall i | 0 <= i < |h| ensures h[i] != '\n' {
      assert At(h, "\n", i) == (h[i..i + 1] == "\n") && h[i..i + 1] == [h[i]];
    }
  }

  /** The top update behind a one-line text with an end block. */
  lemma EndThenTop(h: string, f: string, b: Block)
    requires ValidKind(b.kind) && b.kind.place == AfterFirstLine
    requires '\n' !in h && !Occurs(h, b.kind.start) && !Occurs(f, b.kind.start)
    ensures Sync(b.kind, h + "\n\n" + f + "\n", b.text).Ok?
    ensures Sync(b.kind, h + "\n\n" + f + "\n", b.text).value == h + "\n\n" + b.text + "\n\n" + f + "\n"
  {
    hide Find, WellFormed;
    var m, r := b.kind.start, "\n" + f + "\n";
    var t := h + "\n\n" + f + "\n";
    EmptyLacks(b.kind);
    FindPastLine(f, "", m);
    assert f + "\n" + "" == f + "\n";
    FindPastLine("", f + "\n", m);
    assert "" + "\n" + (f + "\n") == r;
    FindPastLine(h, r, m);
    assert t == h + "\n" + r;
    FirstNewline(h, r);
    assert t[..|h| + 1] == h + "\n" && t[|h| + 1..] == r;
    assert h + "\n" + "\n" + b.text + "\n" + r == h + "\n\n" + b.text + "\n\n" + f + "\n";
  }

  /** A top block in a text with nothing printed below its first line. */
  lemma TopFirst(h: string, r: string, b: Block)
    requires b.kind.place == AfterFirstLine && '\n' !in h && !Occurs(h + "\n" + r, b.kind.start)
    ensures Sync(b.kind, h + "\n" + r, b.text).Ok?
    ensures Sync(b.kind, h + "\n" + r, b.text).value == h + "\n\n" + b.text + "\n" + r
  {
    hide Find;
    var t := h + "\n" + r;
    FirstNewline(h, r);
    assert t[..|h| + 1] == h + "\n" && t[|h| + 1..] == r;
    assert h + "\n" + "\n" + b.text + "\n" + r == h + "\n\n" + b.text + "\n" + r;
  }

  /** The end update then strips down to the top block. */
  lemma EndBehindTop(h: string, r: string, b: Block, f: Block)
    requires ValidKind(b.kind) && WellFormed(b.kind, b.text) && Blank(r)
    requires f.kind.place == AtEndStripped && !Occurs(h + "\n\n" + b.text + "\n" + r, f.kind.start)
    ensures Sync(f.kind, h + "\n\n" + b.text + "\n" + r, f.text).Ok?
    ensures Sync(f.kind, h + "\n\n" + b.text + "\n" + r, f.text).value
         == h + "\n\n" + b.text + "\n\n" + f.text + "\n"
  {
    hide Find, WellFormed;
    var front := h + "\n\n" + b.text;
    BlockIsSolid(b);
    assert front[|front| - 1] == b.text[|b.text| - 1];
    RStripSolid(front);
    assert Blank("\n" + r);
    RStripConcat(front, "\n" + r);
    assert h + "\n\n" + b.text + "\n" + r == front + ("\n" + r);
  }

  lemma TopThenEnd(h: string, r: string, b: Block, f: Block, kinds: set<Kind>)
    requires Pair(h + "\n" + r, b, f, kinds) && '\n' !in h && Blank(r)
    ensures RunText(h + "\n" + r, [b, f]).Ok?
    ensures RunText(h + "\n" + r, [b, f]).value == h + "\n\n" + b.text + "\n\n" + f.text + "\n"
  {
    hide Find, WellFormed, Sync, RunText;
    PairClean(h + "\n" + r, b, f, kinds);
    LackParts(h, r, b.text, f.kind);
    TopFirst(h, r, b);
    EndBehindTop(h, r, b, f);
    RunPair(h + "\n" + r, b, f);
  }

  lemma RStripOneLine(h: string, r: string)
    requires Blank(r)
    ensures RStrip(h + "\n" + r) == RStrip(h)
  {
    hide RStrip;
    assert Blank("\n" + r);
    RStripConcat(h, "\n" + r);
    assert h + "\n" + r == h + ("\n" + r);
  }

  lemma StrippedLacks(h: string, r: string, m: string)
    requires !Occurs(h + "\n" + r, m)
    ensures !Occurs(RStrip(h), m)
  {
    hide Find, RStrip;
    assert (h + "\n" + r)[..|h|] == h;
    PrefixLacks(h + "\n" + r, |h|, m);
    assert h[..|RStrip(h)|] == RStrip(h);
    PrefixLacks(h, |RStrip(h)|, m);
  }

  /** The other order, from the same text: the stripping reaches the first line. */
  lemma EndOnOneLine(h: string, r: string, b: Block, f: Block)
    requires f.kind.place == AtEndStripped && Blank(r)
    requires !Occurs(h + "\n" + r, f.kind.start) && !Occurs(h + "\n" + r, b.kind.start)
    ensures Sync(f.kind, h + "\n" + r, f.text).Ok?
    ensures Sync(f.kind, h + "\n" + r, f.text).value == RStrip(h) + "\n\n" + f.text + "\n"
    ensures !Occurs(RStrip(h), b.kind.start)
  {
    hide Find, RStrip;
    RStripOneLine(h, r);
    StrippedLacks(h, r, b.kind.start);
  }

  lemma EndFirst(h: string, r: string, b: Block, f: Block, kinds: set<Kind>)
    requires Pair(h + "\n" + r, b, f, kinds) && '\n' !in h && Blank(r)
    ensures RunText(h + "\n" + r, [f, b]).Ok?
    ensures RunText(h + "\n" + r, [f, b]).value == RStrip(h) + "\n\n" + b.text + "\n\n" + f.text + "\n"
  {
    hide Find, WellFormed, RunText, Sync;
    var t := h + "\n" + r;
    PairClean(t, b, f, kinds);
    RunPair(t, f, b);
    EndOnOneLine(h, r, b, f);
    EndThenTop(RStrip(h), f.text, b);
  }

  lemma LackParts(h: string, r: string, b: string, k: Kind)
    requires ValidKind(k) && !Occurs(h + "\n" + r, k.start) && !Occurs(b, k.start)
    ensures !Occurs(h + "\n\n" + b + "\n" + r, k.start)
  {
    hide Find;
    var m := k.start;
    assert (h + "\n" + r)[..|h|] == h && (h + "\n" + r)[|h| + 1..] == r;
    PrefixLacks(h + "\n" + r, |h|, m);
    SuffixLacks(h + "\n" + r, |h| + 1, m);
    EmptyLacks(k);
    FindPastLine(b, r, m);
    FindPastLine("", b + "\n" + r, m);
    FindPastLine(h, "" + "\n" + (b + "\n" + r), m);
    assert h + "\n" + ("" + "\n" + (b + "\n" + r)) == h + "\n\n" + b + "\n" + r;
  }

  /** Exactly when the order of a document's first two blocks does not matter: it has a line
      end, and the `rstrip` of the end update cannot reach into the first line. */
  lemma FirstBlocksCommuteExactly(t: string, b: Block, f: Block, kinds: set<Kind>)
    requires Pair(t, b, f, kinds)
    ensures RunText(t, [b, f]) == RunText(t, [f, b]) <==>
      Occurs(t, "\n") && (!Blank(Rest(t)) || RStrip(FirstLine(t)) == FirstLine(t))
  {
    hide Find, WellFormed;
    if !Occurs(t, "\n") {
      NoLineDoesNotCommute(t, b, f, kinds);
    } else if !Blank(Rest(t)) {
      PrintCommutes(t, b, f, kinds);
    } else {
      BlankTail(t, b, f, kinds);
    }
  }

  lemma BlankTail(t: string, b: Block, f: Block, kinds: set<Kind>)
    requires Pair(t, b, f, kinds) && Occurs(t, "\n") && Blank(Rest(t))
    ensures RunText(t, [b, f]).Ok? && RunText(t, [f, b]).Ok?
    ensures RunText(t, [b, f]).value == FirstLine(t) + "\n\n" + b.text + "\n\n" + f.text + "\n"
    ensures RunText(t, [f, b]).value == RStrip(FirstLine(t)) + "\n\n" + b.text + "\n\n" + f.text + "\n"
  {
    hide Find, WellFormed, RunText;
    var h, r := FirstLine(t), Rest(t);
    SplitFirstLine(t);
    TopThenEnd(h, r, b, f, kinds);
    EndFirst(h, r, b, f, kinds);
  }
}
