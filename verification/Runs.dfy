/** What a whole run of updates leaves behind, said without running it: which blocks, in which
    order, with which text, and everything else byte for byte. */
module Runs {
  import opened Outcome
  import opened Text
  import opened Markers
  import opened Ledger

  // ----- the outcome of a run, from the list of updates alone -----

  predicate IsTop(k: Kind) {
    k.place == AfterFirstLine
  }

  /** The kinds of one end of the document, in the order of their first use. */
  function KindsUsed(us: seq<Block>, top: bool): seq<Kind> {
    if us == [] then []
    else
      var ks, k := KindsUsed(us[..|us| - 1], top), us[|us| - 1].kind;
      if IsTop(k) == top && k !in ks then ks + [k] else ks
  }

  function Latest(us: seq<Block>, k: Kind): string {
    if us == [] then ""
    else if us[|us| - 1].kind == k then us[|us| - 1].text
    else Latest(us[..|us| - 1], k)
  }

  function Current(us: seq<Block>, ks: seq<Kind>): seq<Block> {
    seq(|ks|, i requires 0 <= i < |ks| => Block(ks[i], Latest(us, ks[i])))
  }

  function Reversed(ks: seq<Kind>): seq<Kind> {
    seq(|ks|, i requires 0 <= i < |ks| => ks[|ks| - 1 - i])
  }

  function Settled(first: string, body: string, us: seq<Block>): Doc {
    Doc(first, Current(us, Reversed(KindsUsed(us, true))), body, Current(us, KindsUsed(us, false)))
  }

  ghost predicate Uses(us: seq<Block>, k: Kind) {
    exists i :: 0 <= i < |us| && us[i].kind == k
  }

  lemma {:induction false} KindsUsedOnce(us: seq<Block>, top: bool)
    ensures forall i, j :: 0 <= i < j < |KindsUsed(us, top)| ==> KindsUsed(us, top)[i] != KindsUsed(us, top)[j]
    ensures forall k :: k in KindsUsed(us, top) <==> Uses(us, k) && IsTop(k) == top
  {
    if us != [] {
      var front, u := us[..|us| - 1], us[|us| - 1];
      KindsUsedOnce(front, top);
      forall k ensures Uses(us, k) <==> Uses(front, k) || u.kind == k {
        if Uses(front, k) { var i :| 0 <= i < |front| && front[i].kind == k; assert us[i].kind == k; }
      }
    }
  }

  lemma CurrentAfter(front: seq<Block>, u: Block, ks: seq<Kind>)
    ensures Current(front + [u], ks) == Overwrite(Current(front, ks), u)
    ensures u.kind !in ks ==> Current(front + [u], ks) == Current(front, ks)
  {
    assert (front + [u])[..|front|] == front;
  }

  /** The closed form of a run that starts without blocks. */
  lemma {:induction false} RunSettles(first: string, body: string, us: seq<Block>)
    ensures RunDoc(Doc(first, [], body, []), us) == Settled(first, body, us)
  {
    if us != [] {
      var front, u := us[..|us| - 1], us[|us| - 1];
      assert us == front + [u];
      RunSettles(first, body, front);
      StepSettles(first, body, front, u);
    }
  }

  lemma HasCurrent(us: seq<Block>, ks: seq<Kind>, k: Kind)
    ensures Has(Current(us, ks), k) <==> k in ks
  {
    if k in ks {
      var i :| 0 <= i < |ks| && ks[i] == k;
      assert Current(us, ks)[i].kind == k;
    }
  }

  lemma ReversedHas(ks: seq<Kind>, k: Kind)
    ensures k in Reversed(ks) <==> k in ks
  {
    if k in ks {
      var i :| 0 <= i < |ks| && ks[i] == k;
      assert Reversed(ks)[|ks| - 1 - i] == k;
    }
  }

  lemma StepSettles(first: string, body: string, us: seq<Block>, u: Block)
    ensures Step(Settled(first, body, us), u) == Settled(first, body, us + [u])
  {
    var vs, k, top := us + [u], u.kind, IsTop(u.kind);
    assert vs[..|us|] == us;
    KindsUsedOnce(us, !top);
    var ks := KindsUsed(us, top);
    ReversedHas(ks, k);
    HasCurrent(us, ks, k);
    HasCurrent(us, Reversed(ks), k);
    CurrentAfter(us, u, KindsUsed(us, !top));
    CurrentAfter(us, u, Reversed(KindsUsed(us, !top)));
    ReversedHas(KindsUsed(us, !top), k);
    CurrentAfter(us, u, ks);
    CurrentAfter(us, u, Reversed(ks));
    if k !in ks {
      assert Reversed(ks + [k]) == [k] + Reversed(ks);
      assert Current(vs, [k] + Reversed(ks)) == [u] + Current(vs, Reversed(ks));
      assert Current(vs, ks + [k]) == Current(vs, ks) + [u];
    }
  }

  // ----- fresh documents -----

  /** A text in which no block has been placed yet: it has a line end and, behind it, some print. */
  ghost predicate Fresh(t: string, kinds: set<Kind>) {
    && Occurs(t, "\n") && !Blank(t[Find(t, "\n", 0) + 1..])
    && Lacks(t, kinds) && (forall k :: k in kinds ==> ValidKind(k))
  }

  function FirstLine(t: string): string
    requires Occurs(t, "\n")
  {
    t[..Find(t, "\n", 0)]
  }

  function Rest(t: string): string
    requires Occurs(t, "\n")
  {
    t[Find(t, "\n", 0) + 1..]
  }

  lemma SplitFirstLine(t: string)
    requires Occurs(t, "\n")
    ensures t == FirstLine(t) + "\n" + Rest(t) && '\n' !in FirstLine(t)
  {
    var n := Find(t, "\n", 0);
    FindLeftmost(t, "\n", 0);
    assert t[n] == '\n';
    NoNewlineBefore(t, n);
  }

  lemma FreshIsDoc(t: string, kinds: set<Kind>)
    requires Fresh(t, kinds)
    ensures Admissible(Doc(FirstLine(t), [], Rest(t), []), kinds)
    ensures Render(Doc(FirstLine(t), [], Rest(t), [])) == t
  {
    hide Find, WellFormed;
    var n := Find(t, "\n", 0);
    SplitFirstLine(t);
    forall k | k in kinds ensures !Occurs(FirstLine(t), k.start) && !Occurs(Rest(t), k.start) {
      PrefixLacks(t, n, k.start);
      SuffixLacks(t, n + 1, k.start);
    }
    assert Lines(Doc(FirstLine(t), [], Rest(t), [])) == [FirstLine(t)] + [Rest(t)];
    JoinConcat("\n", [FirstLine(t)], [Rest(t)]);
  }

  lemma NoNewlineBefore(t: string, n: nat)
    requires Find(t, "\n", 0) == n
    ensures '\n' !in t[..n]
  {
    FindLeftmost(t, "\n", 0);
    forall i | 0 <= i < n ensures t[i] != '\n' {
      assert At(t, "\n", i) == (t[i..i + 1] == "\n") && t[i..i + 1] == [t[i]];
    }
  }

  /** Main result: the text after any run over a fresh text is the settled document: one block
      for each kind used, its latest text, the newest kind on top, the history untouched. */
  lemma FreshRunSettles(t: string, us: seq<Block>, kinds: set<Kind>)
    requires Fresh(t, kinds) && AllClean(us, kinds)
    ensures RunText(t, us).Ok?
    ensures RunText(t, us).value == Render(Settled(FirstLine(t), Rest(t), us))
    ensures Admissible(Settled(FirstLine(t), Rest(t), us), kinds)
  {
    hide Find, WellFormed;
    FreshIsDoc(t, kinds);
    RunRefines(Doc(FirstLine(t), [], Rest(t), []), us, kinds);
    RunSettles(FirstLine(t), Rest(t), us);
  }

  // ----- documents that have blocks already -----

  function Backwards(bs: seq<Block>): seq<Block> {
    if bs == [] then [] else Backwards(bs[1..]) + [bs[0]]
  }

  /** A run that makes the blocks of `d`. */
  function Made(d: Doc): seq<Block> {
    Backwards(d.tops) + d.facts
  }

  lemma {:induction false} RunDocConcat(d: Doc, us: seq<Block>, vs: seq<Block>)
    ensures RunDoc(d, us + vs) == RunDoc(RunDoc(d, us), vs)
    decreases |vs|
  {
    if vs == [] {
      assert us + vs == us;
    } else {
      assert (us + vs)[..|us + vs| - 1] == us + vs[..|vs| - 1];
      RunDocConcat(d, us, vs[..|vs| - 1]);
    }
  }

  lemma {:induction false} MakesTops(first: string, body: string, tops: seq<Block>)
    requires forall i :: 0 <= i < |tops| ==> IsTop(tops[i].kind)
    requires forall i, j :: 0 <= i < j < |tops| ==> tops[i].kind != tops[j].kind
    ensures RunDoc(Doc(first, [], body, []), Backwards(tops)) == Doc(first, tops, body, [])
    decreases |tops|
  {
    if tops != [] {
      MakesTops(first, body, tops[1..]);
      var before := Backwards(tops[1..]);
      assert (before + [tops[0]])[..|before|] == before;
      assert [tops[0]] + tops[1..] == tops;
    }
  }

  lemma {:induction false} MakesFacts(first: string, tops: seq<Block>, body: string, facts: seq<Block>)
    requires forall i :: 0 <= i < |facts| ==> !IsTop(facts[i].kind)
    requires forall i, j :: 0 <= i < j < |facts| ==> facts[i].kind != facts[j].kind
    ensures RunDoc(Doc(first, tops, body, []), facts) == Doc(first, tops, body, facts)
    decreases |facts|
  {
    if facts != [] {
      MakesFacts(first, tops, body, facts[..|facts| - 1]);
      assert facts[..|facts| - 1] + [facts[|facts| - 1]] == facts;
    }
  }

  lemma DocIsMade(d: Doc, kinds: set<Kind>)
    requires Admissible(d, kinds)
    ensures RunDoc(Doc(d.first, [], d.body, []), Made(d)) == d
  {
    hide Find, WellFormed;
    MakesTops(d.first, d.body, d.tops);
    MakesFacts(d.first, d.tops, d.body, d.facts);
    RunDocConcat(Doc(d.first, [], d.body, []), Backwards(d.tops), d.facts);
  }

  /** A run over a document with blocks is settled like a run that makes those blocks first. */
  lemma RunSettlesAnyDoc(d: Doc, us: seq<Block>, kinds: set<Kind>)
    requires Admissible(d, kinds) && AllClean(us, kinds)
    ensures RunText(Render(d), us).Ok?
    ensures RunText(Render(d), us).value == Render(Settled(d.first, d.body, Made(d) + us))
    ensures Admissible(Settled(d.first, d.body, Made(d) + us), kinds)
  {
    hide Find, WellFormed;
    RunRefines(d, us, kinds);
    DocIsMade(d, kinds);
    RunDocConcat(Doc(d.first, [], d.body, []), Made(d), us);
    RunSettles(d.first, d.body, Made(d) + us);
  }

  // ----- the two ends of a document are independent -----

  function Only(us: seq<Block>, top: bool): seq<Block> {
    if us == [] then []
    else
      var u := us[|us| - 1];
      Only(us[..|us| - 1], top) + if IsTop(u.kind) == top then [u] else []
  }

  lemma {:induction false} OnlyDecides(us: seq<Block>, top: bool)
    ensures KindsUsed(Only(us, top), top) == KindsUsed(us, top)
    ensures forall k :: IsTop(k) == top ==> Latest(Only(us, top), k) == Latest(us, k)
  {
    if us != [] {
      var front, u := us[..|us| - 1], us[|us| - 1];
      OnlyDecides(front, top);
      if IsTop(u.kind) == top {
        assert Only(us, top)[..|Only(us, top)| - 1] == Only(front, top);
      } else {
        assert Only(us, top) == Only(front, top);
      }
    }
  }

  lemma CurrentDepends(us: seq<Block>, vs: seq<Block>, ks: seq<Kind>, top: bool)
    requires Only(us, top) == Only(vs, top) && forall k :: k in ks ==> IsTop(k) == top
    ensures Current(us, ks) == Current(vs, ks)
  {
    OnlyDecides(us, top);
    OnlyDecides(vs, top);
    assert forall i :: 0 <= i < |ks| ==> ks[i] in ks;
  }

  lemma {:induction false} OnlyConcat(us: seq<Block>, vs: seq<Block>, top: bool)
    ensures Only(us + vs, top) == Only(us, top) + Only(vs, top)
    decreases |vs|
  {
    if vs == [] {
      assert us + vs == us;
    } else {
      assert (us + vs)[..|us + vs| - 1] == us + vs[..|vs| - 1];
      OnlyConcat(us, vs[..|vs| - 1], top);
    }
  }

  lemma SameEndsSettle(first: string, body: string, us: seq<Block>, vs: seq<Block>)
    requires Only(us, true) == Only(vs, true) && Only(us, false) == Only(vs, false)
    ensures Settled(first, body, us) == Settled(first, body, vs)
  {
    forall top
      ensures KindsUsed(us, top) == KindsUsed(vs, top)
      ensures Current(us, KindsUsed(us, top)) == Current(vs, KindsUsed(us, top))
    {
      OnlyDecides(us, top);
      OnlyDecides(vs, top);
      KindsUsedOnce(us, top);
      CurrentDepends(us, vs, KindsUsed(us, top), top);
    }
    var ks := KindsUsed(us, true);
    KindsUsedOnce(us, true);
    forall k | k in Reversed(ks) ensures IsTop(k) { ReversedHas(ks, k); }
    CurrentDepends(us, vs, Reversed(ks), true);
  }

  /** Top and end updates commute, with or without blocks in the document: only the order among
      the updates of one end matters, in spite of the `rstrip` at the end and of the search for
      the first newline. */
  lemma EndsCommute(d: Doc, us: seq<Block>, vs: seq<Block>, kinds: set<Kind>)
    requires Admissible(d, kinds) && AllClean(us, kinds) && AllClean(vs, kinds)
    requires Only(us, true) == Only(vs, true) && Only(us, false) == Only(vs, false)
    ensures RunText(Render(d), us).Ok? && RunText(Render(d), vs).Ok?
    ensures RunText(Render(d), us).value == RunText(Render(d), vs).value
  {
    hide Find, WellFormed, Admissible, Settled, RunText, Render, Only, Made;
    RunSettlesAnyDoc(d, us, kinds);
    RunSettlesAnyDoc(d, vs, kinds);
    forall top ensures Only(us, top) == Only(vs, top) ==> Only(Made(d) + us, top) == Only(Made(d) + vs, top) {
      OnlyConcat(Made(d), us, top);
      OnlyConcat(Made(d), vs, top);
    }
    SameEndsSettle(d.first, d.body, Made(d) + us, Made(d) + vs);
  }

  // ----- one block per kind -----

  lemma LinesBySegments(d: Doc)
    requires d.facts != []
    ensures Segments(d.facts) == [""] + Texts(d.facts)
    ensures Lines(d) == Front(d) + Opening(d.body, d.facts[0]) + Texts(d.facts) + [""]
  {
    LinesAppended(d, d.facts[0]);
  }

  lemma SegmentsOthersLack(bs: seq<Block>, i: nat, kinds: set<Kind>, top: bool)
    requires i < |bs| && CleanBlocks(bs, kinds, top) && forall k :: k in kinds ==> ValidKind(k)
    ensures |Segments(bs)| == 2 * |bs| && Segments(bs)[2 * i + 1] == bs[i].text
    ensures forall j :: 0 <= j < 2 * |bs| && j != 2 * i + 1 ==> !Occurs(Segments(bs)[j], bs[i].kind.start)
  {
    hide Find, WellFormed;
    SegmentAt(bs, i);
    forall j | 0 <= j < 2 * |bs| && j != 2 * i + 1 ensures !Occurs(Segments(bs)[j], bs[i].kind.start) {
      SegmentLacks(bs, j / 2, bs[i].kind, kinds, top);
    }
  }

  /** Where a block's line is; every other line of the text lacks its START. */
  lemma TopLine(d: Doc, i: nat, kinds: set<Kind>)
    requires Admissible(d, kinds) && i < |d.tops|
    ensures |Lines(d)| > 2 * i + 2 && Lines(d)[2 * i + 2] == d.tops[i].text
    ensures forall j :: 0 <= j < |Lines(d)| && j != 2 * i + 2 ==> !Occurs(Lines(d)[j], d.tops[i].kind.start)
  {
    hide Find, WellFormed;
    var k := d.tops[i].kind;
    SegmentsOthersLack(d.tops, i, kinds, true);
    EmptyLacks(k);
    ClosingLacks(d, k, kinds);
    var a, b, c := [d.first], Segments(d.tops), Closing(d.body, d.facts);
    assert Lines(d) == a + b + c && Lacking(a, k.start) && Lacking(c, k.start);
  }

  lemma ClosingLacks(d: Doc, k: Kind, kinds: set<Kind>)
    requires k in kinds && Admissible(d, kinds) && !Has(d.facts, k)
    ensures Lacking(Closing(d.body, d.facts), k.start)
  {
    hide Find, WellFormed;
    EmptyLacks(k);
    if d.facts != [] {
      OpeningLacks(d.body, d.facts[0], k);
      SegmentsLack(d.facts[1..], k, kinds, false);
      assert k in kinds - {d.facts[0].kind};
    }
  }

  lemma FactLine(d: Doc, i: nat, kinds: set<Kind>) returns (n: nat)
    requires Admissible(d, kinds) && i < |d.facts|
    ensures n < |Lines(d)| && Lines(d)[n] == d.facts[i].text
    ensures forall j :: 0 <= j < |Lines(d)| && j != n ==> !Occurs(Lines(d)[j], d.facts[i].kind.start)
  {
    hide Find, WellFormed;
    var k := d.facts[i].kind;
    SegmentsOthersLack(d.facts, i, kinds, false);
    EmptyLacks(k);
    OpeningLacks(d.body, d.facts[0], k);
    FrontLacks(d, k, kinds);
    LinesBySegments(d);
    var pre, ts := Front(d) + Opening(d.body, d.facts[0]), Texts(d.facts);
    assert Lacking(pre, k.start);
    assert forall j :: 0 <= j < |ts| ==> ts[j] == Segments(d.facts)[j + 1];
    n := |pre| + 2 * i;
  }

  /** `b` stands in `t`, and its START is nowhere else. */
  ghost predicate OnlyBlock(t: string, b: Block) {
    exists pre, post :: StandsBetween(t, pre, b, post)
  }

  ghost predicate StandsBetween(t: string, pre: string, b: Block, post: string) {
    t == pre + b.text + post && !Occurs(pre, b.kind.start) && !Occurs(post, b.kind.start)
  }

  lemma OnlyLine(lines: seq<string>, n: nat, b: Block)
    requires ValidKind(b.kind) && WellFormed(b.kind, b.text) && n < |lines| && lines[n] == b.text
    requires forall j :: 0 <= j < |lines| && j != n ==> !Occurs(lines[j], b.kind.start)
    ensures OnlyBlock(Join("\n", lines), b)
    ensures Extract(Join("\n", lines), b.kind).Ok?
    ensures Extract(Join("\n", lines), b.kind).value == Inner(b.kind, b.text)
  {
    hide Find, WellFormed;
    SubLine(lines, n, b.kind, b.text);
    JoinAround(lines, n, b.text);
    assert lines[n := b.text] == lines;
    LinesAroundLack(lines, n, b.kind.start);
    assert StandsBetween(Join("\n", lines), LinesBefore(lines, n), b, LinesAfter(lines, n));
  }

  lemma BlockStandsAlone(d: Doc, b: Block, kinds: set<Kind>)
    requires Admissible(d, kinds) && (b in d.tops || b in d.facts)
    ensures OnlyBlock(Render(d), b)
    ensures WellFormed(b.kind, b.text) && Extract(Render(d), b.kind).Ok?
    ensures Extract(Render(d), b.kind).value == Inner(b.kind, b.text)
  {
    hide Find, WellFormed;
    if b in d.tops {
      var i :| 0 <= i < |d.tops| && d.tops[i] == b;
      TopLine(d, i, kinds);
      OnlyLine(Lines(d), 2 * i + 2, b);
    } else {
      var i :| 0 <= i < |d.facts| && d.facts[i] == b;
      var n := FactLine(d, i, kinds);
      OnlyLine(Lines(d), n, b);
    }
  }

  /** A settled document has exactly one block, the latest one, for each kind that was used, and
      no marker of any other. */
  lemma SettledHasOne(first: string, body: string, us: seq<Block>, k: Kind, kinds: set<Kind>)
    requires Admissible(Settled(first, body, us), kinds) && k in kinds
    ensures var t := Render(Settled(first, body, us));
      if Uses(us, k) then OnlyBlock(t, Block(k, Latest(us, k))) && Reads(t, k, Latest(us, k)) else !Occurs(t, k.start)
  {
    hide Find, WellFormed;
    var d, top := Settled(first, body, us), IsTop(k);
    var ks := KindsUsed(us, top);
    KindsUsedOnce(us, top);
    KindsUsedOnce(us, !top);
    ReversedHas(ks, k);
    ReversedHas(KindsUsed(us, !top), k);
    HasCurrent(us, ks, k);
    HasCurrent(us, Reversed(ks), k);
    HasCurrent(us, KindsUsed(us, !top), k);
    HasCurrent(us, Reversed(KindsUsed(us, !top)), k);
    if Uses(us, k) {
      BlockStandsAlone(d, Block(k, Latest(us, k)), kinds);
    } else {
      AbsentLacks(d, k, kinds);
    }
  }

  /** A reader gets the inside of the well-formed block `b`. */
  predicate Reads(t: string, k: Kind, b: string) {
    WellFormed(k, b) && Extract(t, k).Ok? && Extract(t, k).value == Inner(k, b)
  }

  /** After any run, over a document with or without blocks, a kind that was ever used has exactly
      one block, its latest one, and a reader gets that block's inside; any other kind has no
      marker at all. */
  lemma OneBlockPerKind(d: Doc, us: seq<Block>, k: Kind, kinds: set<Kind>)
    requires Admissible(d, kinds) && AllClean(us, kinds) && k in kinds
    ensures RunText(Render(d), us).Ok?
    ensures var t, all := RunText(Render(d), us).value, Made(d) + us;
      if Uses(all, k) then OnlyBlock(t, Block(k, Latest(all, k))) && Reads(t, k, Latest(all, k))
      else !Occurs(t, k.start)
  {
    hide Find, WellFormed, Admissible, Settled, RunText, Render, Made, OnlyBlock, Reads;
    RunSettlesAnyDoc(d, us, kinds);
    SettledHasOne(d.first, d.body, Made(d) + us, k, kinds);
  }
}
