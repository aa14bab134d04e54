/** The document as its authors think of it: a first line, the current blocks, the history.
    Every run of updates over any number of kinds is shown to keep the text in this shape. */
module Ledger {
  import opened Outcome
  import opened Text
  import opened Markers

  datatype Block = Block(kind: Kind, text: string)

  /** `tops` are the blocks behind the first line, newest kind first; `facts` are the blocks at
      the end, oldest kind first. */
  datatype Doc = Doc(first: string, tops: seq<Block>, body: string, facts: seq<Block>)

  // ----- the text of a document -----

  function Segments(bs: seq<Block>): seq<string> {
    if bs == [] then [] else ["", bs[0].text] + Segments(bs[1..])
  }

  /** The first appended block strips the history's trailing white space, or only starts a line. */
  function Opening(body: string, u: Block): seq<string> {
    if u.kind.place == AtEnd then [body] else [RStrip(body), ""]
  }

  function Closing(body: string, facts: seq<Block>): seq<string> {
    if facts == [] then [body]
    else Opening(body, facts[0]) + [facts[0].text] + Segments(facts[1..]) + [""]
  }

  function Lines(d: Doc): seq<string> {
    [d.first] + Segments(d.tops) + Closing(d.body, d.facts)
  }

  function Render(d: Doc): string {
    Join("\n", Lines(d))
  }

  // ----- updates of a document -----

  predicate Has(bs: seq<Block>, k: Kind) {
    exists i :: 0 <= i < |bs| && bs[i].kind == k
  }

  function Overwrite(bs: seq<Block>, u: Block): seq<Block> {
    seq(|bs|, i requires 0 <= i < |bs| => if bs[i].kind == u.kind then u else bs[i])
  }

  function Step(d: Doc, u: Block): Doc {
    if u.kind.place == AfterFirstLine then
      d.(tops := if Has(d.tops, u.kind) then Overwrite(d.tops, u) else [u] + d.tops)
    else
      d.(facts := if Has(d.facts, u.kind) then Overwrite(d.facts, u) else d.facts + [u])
  }

  function RunDoc(d: Doc, us: seq<Block>): Doc {
    if us == [] then d else Step(RunDoc(d, us[..|us| - 1]), us[|us| - 1])
  }

  /** What the scripts do: one text update after the other. */
  function RunText(t: string, us: seq<Block>): Result<string> {
    if us == [] then Ok(t)
    else
      var t' :- RunText(t, us[..|us| - 1]);
      var u := us[|us| - 1];
      Sync(u.kind, t', u.text)
  }

  // ----- the documents and updates considered -----

  ghost predicate Lacks(t: string, kinds: set<Kind>) {
    forall k :: k in kinds ==> !Occurs(t, k.start)
  }

  /** A block that closes itself and mentions no other kind's START. */
  ghost predicate Clean(u: Block, kinds: set<Kind>) {
    u.kind in kinds && WellFormed(u.kind, u.text) && Lacks(u.text, kinds - {u.kind})
  }

  ghost predicate CleanBlocks(bs: seq<Block>, kinds: set<Kind>, top: bool) {
    && (forall i :: 0 <= i < |bs| ==> Clean(bs[i], kinds) && (bs[i].kind.place == AfterFirstLine) == top)
    && (forall i, j :: 0 <= i < j < |bs| ==> bs[i].kind != bs[j].kind)
  }

  ghost predicate Admissible(d: Doc, kinds: set<Kind>) {
    && (forall k :: k in kinds ==> ValidKind(k))
    && '\n' !in d.first && Lacks(d.first, kinds)
    && !Blank(d.body) && Lacks(d.body, kinds)
    && CleanBlocks(d.tops, kinds, true)
    && CleanBlocks(d.facts, kinds, false)
  }

  // ----- replacing one line of the text -----

  lemma SubLine(lines: seq<string>, i: nat, k: Kind, b: string)
    requires ValidKind(k) && i < |lines| && WellFormed(k, lines[i])
    requires forall j :: 0 <= j < i ==> !Occurs(lines[j], k.start)
    ensures Occurs(Join("\n", lines), k.start)
    ensures SubFirst(Join("\n", lines), k, b) == Join("\n", lines[i := b])
    ensures Extract(Join("\n", lines), k).Ok?
    ensures Extract(Join("\n", lines), k).value == Inner(k, lines[i])
  {
    hide Find;
    var pre, post := LinesBefore(lines, i), LinesAfter(lines, i);
    JoinAround(lines, i, b);
    JoinAround(lines, i, lines[i]);
    assert lines[i := lines[i]] == lines;
    LinesBeforeSeamFree(lines, i, lines[i] + post, k.start);
    SubAt(pre, lines[i], post, k, b);
  }

  lemma SegmentAt(bs: seq<Block>, i: nat)
    requires i < |bs|
    ensures |Segments(bs)| == 2 * |bs|
    ensures Segments(bs)[2 * i] == "" && Segments(bs)[2 * i + 1] == bs[i].text
  {
    if i == 0 { SegmentsLength(bs); } else { SegmentAt(bs[1..], i - 1); }
  }

  lemma SegmentsLength(bs: seq<Block>)
    ensures |Segments(bs)| == 2 * |bs|
  {}

  lemma SegmentsOverwrite(bs: seq<Block>, i: nat, u: Block)
    requires i < |bs| && bs[i].kind == u.kind
    requires forall j :: 0 <= j < |bs| && j != i ==> bs[j].kind != u.kind
    ensures |Segments(bs)| == 2 * |bs|
    ensures Segments(Overwrite(bs, u)) == Segments(bs)[2 * i + 1 := u.text]
  {
    hide Find;
    SegmentsLength(bs);
    var rest := bs[1..];
    assert Overwrite(bs, u)[1..] == Overwrite(rest, u);
    if i == 0 {
      assert Overwrite(rest, u) == rest;
    } else {
      SegmentsOverwrite(rest, i - 1, u);
    }
  }

  // ----- one update -----

  /** The block of kind `u.kind` is overwritten where it stands. */
  lemma OverwriteAmong(pre: seq<string>, bs: seq<Block>, post: seq<string>, u: Block, kinds: set<Kind>, top: bool)
    requires ValidKind(u.kind) && u.kind in kinds && Has(bs, u.kind)
    requires CleanBlocks(bs, kinds, top)
    requires forall j :: 0 <= j < |pre| ==> !Occurs(pre[j], u.kind.start)
    ensures Occurs(Join("\n", pre + Segments(bs) + post), u.kind.start)
    ensures SubFirst(Join("\n", pre + Segments(bs) + post), u.kind, u.text)
         == Join("\n", pre + Segments(Overwrite(bs, u)) + post)
  {
    hide Find;
    var i :| 0 <= i < |bs| && bs[i].kind == u.kind;
    var lines := pre + Segments(bs) + post;
    var n := |pre| + 2 * i + 1;
    SegmentAt(bs, i);
    SegmentsOverwrite(bs, i, u);
    assert lines[n] == bs[i].text;
    assert lines[n := u.text] == pre + Segments(Overwrite(bs, u)) + post;
    forall j | 0 <= j < n ensures !Occurs(lines[j], u.kind.start) {
      if |pre| <= j { SegmentLacks(bs, (j - |pre|) / 2, u.kind, kinds, top); }
    }
    SubLine(lines, n, u.kind, u.text);
  }

  lemma SegmentLacks(bs: seq<Block>, i: nat, k: Kind, kinds: set<Kind>, top: bool)
    requires i < |bs| && k in kinds && ValidKind(k) && CleanBlocks(bs, kinds, top)
    ensures |Segments(bs)| == 2 * |bs|
    ensures !Occurs(Segments(bs)[2 * i], k.start)
    ensures bs[i].kind != k ==> !Occurs(Segments(bs)[2 * i + 1], k.start)
  {
    hide Find;
    SegmentAt(bs, i);
    assert !Occurs("", k.start);
    if bs[i].kind != k { assert k in kinds - {bs[i].kind}; }
  }

  predicate Lacking(lines: seq<string>, m: string) {
    forall j :: 0 <= j < |lines| ==> !Occurs(lines[j], m)
  }

  lemma SegmentsLack(bs: seq<Block>, k: Kind, kinds: set<Kind>, top: bool)
    requires k in kinds && ValidKind(k) && CleanBlocks(bs, kinds, top) && !Has(bs, k)
    ensures Lacking(Segments(bs), k.start)
  {
    hide Find;
    SegmentsLength(bs);
    forall j | 0 <= j < 2 * |bs| ensures !Occurs(Segments(bs)[j], k.start) {
      SegmentLacks(bs, j / 2, k, kinds, top);
    }
  }

  lemma OpeningLacks(body: string, u: Block, k: Kind)
    requires ValidKind(k) && !Occurs(body, k.start)
    ensures Lacking(Opening(body, u), k.start)
  {
    hide Find;
    assert !Occurs("", k.start);
    assert body[..|RStrip(body)|] == RStrip(body);
    PrefixLacks(body, |RStrip(body)|, k.start);
  }

  lemma EmptyLacks(k: Kind)
    requires ValidKind(k)
    ensures !Occurs("", k.start)
  {}

  /** Everything that stands in front of the appended blocks. */
  function Front(d: Doc): seq<string> {
    [d.first] + Segments(d.tops)
  }

  lemma FrontLacks(d: Doc, k: Kind, kinds: set<Kind>)
    requires k in kinds && Admissible(d, kinds) && !Has(d.tops, k)
    ensures Lacking(Front(d), k.start)
  {
    hide Find;
    SegmentsLack(d.tops, k, kinds, true);
  }

  lemma AbsentLacks(d: Doc, k: Kind, kinds: set<Kind>)
    requires k in kinds && Admissible(d, kinds) && !Has(d.tops, k) && !Has(d.facts, k)
    ensures !Occurs(Render(d), k.start)
  {
    hide Find, WellFormed, Join, Opening, Segments;
    FrontLacks(d, k, kinds);
    EmptyLacks(k);
    if d.facts != [] {
      OpeningLacks(d.body, d.facts[0], k);
      SegmentsLack(d.facts[1..], k, kinds, false);
      assert k in kinds - {d.facts[0].kind};
    }
    assert Lines(d) == Front(d) + Closing(d.body, d.facts);
    JoinLacks(Lines(d), k.start);
  }

  lemma TopOverwritten(d: Doc, u: Block, kinds: set<Kind>)
    requires Admissible(d, kinds) && Clean(u, kinds)
    requires u.kind.place == AfterFirstLine && Has(d.tops, u.kind)
    ensures Sync(u.kind, Render(d), u.text).Ok?
    ensures Sync(u.kind, Render(d), u.text).value == Render(Step(d, u))
  {
    hide Find;
    OverwriteAmong([d.first], d.tops, Closing(d.body, d.facts), u, kinds, true);
  }

  lemma OverwriteFirst(bs: seq<Block>, u: Block)
    requires bs != [] && bs[0].kind == u.kind && forall i :: 1 <= i < |bs| ==> bs[i].kind != u.kind
    ensures Overwrite(bs, u) == [u] + bs[1..]
  {}

  lemma OverwriteLater(bs: seq<Block>, u: Block)
    requires bs != [] && bs[0].kind != u.kind
    ensures Overwrite(bs, u) == [bs[0]] + Overwrite(bs[1..], u)
  {}

  lemma FirstFactLines(d: Doc, u: Block)
    requires d.facts != [] && d.facts[0].kind == u.kind && u.kind.place != AfterFirstLine
    requires forall i :: 1 <= i < |d.facts| ==> d.facts[i].kind != u.kind
    ensures Lines(d) == Front(d) + Opening(d.body, u) + [d.facts[0].text] + (Segments(d.facts[1..]) + [""])
    ensures Lines(Step(d, u)) == Front(d) + Opening(d.body, u) + [u.text] + (Segments(d.facts[1..]) + [""])
  {
    hide RStrip, Segments, Overwrite;
    OverwriteFirst(d.facts, u);
    assert Has(d.facts, u.kind);
    assert ([u] + d.facts[1..])[1..] == d.facts[1..];
  }

  lemma SubMiddle(pre: seq<string>, old0: string, post: seq<string>, k: Kind, b: string)
    requires ValidKind(k) && WellFormed(k, old0) && Lacking(pre, k.start)
    ensures Occurs(Join("\n", pre + [old0] + post), k.start)
    ensures SubFirst(Join("\n", pre + [old0] + post), k, b) == Join("\n", pre + [b] + post)
  {
    hide Find, WellFormed;
    var lines := pre + [old0] + post;
    SubLine(lines, |pre|, k, b);
    assert lines[|pre| := b] == pre + [b] + post;
  }

  lemma FirstFactOverwritten(d: Doc, u: Block, kinds: set<Kind>)
    requires Admissible(d, kinds) && Clean(u, kinds)
    requires u.kind.place != AfterFirstLine && d.facts != [] && d.facts[0].kind == u.kind
    ensures Occurs(Render(d), u.kind.start)
    ensures SubFirst(Render(d), u.kind, u.text) == Render(Step(d, u))
  {
    hide Find, WellFormed, Join;
    FrontLacks(d, u.kind, kinds);
    OpeningLacks(d.body, u, u.kind);
    FirstFactLines(d, u);
    SubMiddle(Front(d) + Opening(d.body, u), d.facts[0].text, Segments(d.facts[1..]) + [""], u.kind, u.text);
  }

  lemma LaterFactLines(d: Doc, u: Block)
    requires d.facts != [] && d.facts[0].kind != u.kind && Has(d.facts, u.kind) && u.kind.place != AfterFirstLine
    ensures Lines(d) == Front(d) + Opening(d.body, d.facts[0]) + [d.facts[0].text] + Segments(d.facts[1..]) + [""]
    ensures Lines(Step(d, u))
         == Front(d) + Opening(d.body, d.facts[0]) + [d.facts[0].text] + Segments(Overwrite(d.facts[1..], u)) + [""]
  {
    hide RStrip, Segments, Overwrite;
    OverwriteLater(d.facts, u);
    var bs := Overwrite(d.facts[1..], u);
    assert ([d.facts[0]] + bs)[1..] == bs;
  }

  lemma LaterFactOverwritten(d: Doc, u: Block, kinds: set<Kind>)
    requires Admissible(d, kinds) && Clean(u, kinds)
    requires u.kind.place != AfterFirstLine && Has(d.facts, u.kind) && d.facts[0].kind != u.kind
    ensures Occurs(Render(d), u.kind.start)
    ensures SubFirst(Render(d), u.kind, u.text) == Render(Step(d, u))
  {
    hide Find, WellFormed, Join, Segments, Overwrite, Lines, Step, SubFirst;
    var pre := Front(d) + Opening(d.body, d.facts[0]) + [d.facts[0].text];
    FrontLacks(d, u.kind, kinds);
    OpeningLacks(d.body, d.facts[0], u.kind);
    assert Clean(d.facts[0], kinds) && u.kind in kinds - {d.facts[0].kind};
    LaterFactLines(d, u);
    OverwriteAmong(pre, d.facts[1..], [""], u, kinds, false);
  }

  /** Inserting behind the first line is inserting two lines. */
  lemma InsertBehindFirst(first: string, rest: seq<string>, b: string)
    requires '\n' !in first && rest != []
    ensures InsertAt(AfterFirstLine, Join("\n", [first] + rest), b).Ok?
    ensures InsertAt(AfterFirstLine, Join("\n", [first] + rest), b).value == Join("\n", [first, "", b] + rest)
  {
    hide Find;
    var r := Join("\n", rest);
    assert ([first] + rest)[1..] == rest;
    FirstNewline(first, r);
    assert [first, "", b] + rest == [first] + (["", b] + rest);
    JoinConcat("\n", [first], ["", b] + rest);
    JoinConcat("\n", ["", b], rest);
    var t := first + "\n" + r;
    assert t[..|first| + 1] == first + "\n" && t[|first| + 1..] == r;
  }

  lemma FirstNewline(a: string, r: string)
    requires '\n' !in a
    ensures Find(a + "\n" + r, "\n", 0) == |a|
  {
    hide Find;
    var t := a + "\n" + r;
    assert t[|a|..|a| + 1] == "\n";
    forall j | 0 <= j < |a| ensures !At(t, "\n", j) {
      assert t[j..j + 1] == [a[j]] && a[j] in a;
    }
    FindIs(t, "\n", 0, |a|);
  }

  lemma TopInserted(d: Doc, u: Block, kinds: set<Kind>)
    requires Admissible(d, kinds) && Clean(u, kinds)
    requires u.kind.place == AfterFirstLine && !Has(d.tops, u.kind)
    ensures Sync(u.kind, Render(d), u.text).Ok?
    ensures Sync(u.kind, Render(d), u.text).value == Render(Step(d, u))
  {
    hide Find, WellFormed, Lines, Segments, Closing;
    AbsentLacks(d, u.kind, kinds);
    var rest := Segments(d.tops) + Closing(d.body, d.facts);
    TopLines(d, u);
    InsertBehindFirst(d.first, rest, u.text);
  }

  lemma TopLines(d: Doc, u: Block)
    ensures Segments(d.tops) + Closing(d.body, d.facts) != []
    ensures Lines(d) == [d.first] + (Segments(d.tops) + Closing(d.body, d.facts))
    ensures Lines(d.(tops := [u] + d.tops)) == [d.first, "", u.text] + (Segments(d.tops) + Closing(d.body, d.facts))
  {
    hide Opening;
    assert ([u] + d.tops)[1..] == d.tops;
  }

  /** A block ends in print, so stripping the text that follows it stops there. */
  lemma BlockIsSolid(u: Block)
    requires ValidKind(u.kind) && WellFormed(u.kind, u.text)
    ensures u.text != "" && !IsSpace(u.text[|u.text| - 1])
  {
    hide Find;
    FindLeftmost(u.text, u.kind.end, |u.kind.start|);
    assert u.text[|u.text| - |u.kind.end|..] == u.kind.end;
  }

  /** Appending to a text that ends in an empty line: the three appended pieces are three lines. */
  lemma AppendLines(front: seq<string>, last: string, b: string)
    ensures Join("\n", front + [last]) + "\n" + b + "\n" == Join("\n", front + [last, b, ""])
    ensures Join("\n", front + [last]) + "\n\n" + b + "\n" == Join("\n", front + [last, "", b, ""])
  {
    assert front + [last, b, ""] == front + [last] + [b, ""];
    assert front + [last, "", b, ""] == front + [last] + ["", b, ""];
    JoinConcat("\n", front + [last], [b, ""]);
    JoinConcat("\n", front + [last], ["", b, ""]);
    assert Join("\n", [b, ""]) == b + "\n" + "";
    assert Join("\n", ["", b, ""]) == "" + "\n" + (b + "\n" + "");
  }

  lemma RStripLines(front: seq<string>, last: string)
    requires !Blank(last)
    ensures RStrip(Join("\n", front + [last])) == Join("\n", front + [RStrip(last)])
  {
    if front == [] {
      assert front + [last] == [last] && front + [RStrip(last)] == [RStrip(last)];
    } else {
      JoinConcat("\n", front, [last]);
      JoinConcat("\n", front, [RStrip(last)]);
      RStripConcat(Join("\n", front) + "\n", last);
    }
  }

  lemma RStripLastLine(front: seq<string>, last: string)
    requires last != "" && !IsSpace(last[|last| - 1])
    ensures RStrip(Join("\n", front + [last, ""])) == Join("\n", front + [last])
  {
    var t := Join("\n", front + [last]);
    RStripSolid(last);
    RStripLines(front, last);
    RStripConcat(t, "\n");
    assert front + [last, ""] == front + [last] + [""];
    JoinConcat("\n", front + [last], [""]);
    assert t + "\n" + "" == t + "\n";
  }

  lemma FirstFactText(front: seq<string>, body: string, u: Block)
    requires !Blank(body) && u.kind.place != AfterFirstLine
    ensures InsertAt(u.kind.place, Join("\n", front + [body]), u.text).Ok?
    ensures InsertAt(u.kind.place, Join("\n", front + [body]), u.text).value
         == Join("\n", front + Closing(body, [u]))
  {
    if u.kind.place == AtEnd {
      AppendLines(front, body, u.text);
      assert Closing(body, [u]) == [body, u.text, ""];
    } else {
      RStripLines(front, body);
      AppendLines(front, RStrip(body), u.text);
      assert Closing(body, [u]) == [RStrip(body), "", u.text, ""];
    }
  }

  lemma FirstFactInserted(d: Doc, u: Block, kinds: set<Kind>)
    requires Admissible(d, kinds) && Clean(u, kinds)
    requires u.kind.place != AfterFirstLine && d.facts == []
    ensures Sync(u.kind, Render(d), u.text).Ok?
    ensures Sync(u.kind, Render(d), u.text).value == Render(Step(d, u))
  {
    hide Find, WellFormed, Join, Closing, InsertAt;
    AbsentLacks(d, u.kind, kinds);
    FirstFactText(Front(d), d.body, u);
    assert [] + [u] == [u];
    assert Closing(d.body, d.facts) == [d.body] by { ClosingEmpty(d.body); }
  }

  lemma ClosingEmpty(body: string)
    ensures Closing(body, []) == [body]
  {}

  lemma SegmentsAppend(bs: seq<Block>, u: Block)
    ensures Segments(bs + [u]) == Segments(bs) + ["", u.text]
  {
    if bs == [] {
      assert bs + [u] == [u];
    } else {
      assert (bs + [u])[1..] == bs[1..] + [u];
    }
  }

  /** With a block already at the end, both ways of appending give the same text. */
  lemma InsertBehindLast(front: seq<string>, last: string, place: Place, b: string)
    requires last != "" && !IsSpace(last[|last| - 1]) && place != AfterFirstLine
    ensures InsertAt(place, Join("\n", front + [last, ""]), b).Ok?
    ensures InsertAt(place, Join("\n", front + [last, ""]), b).value == Join("\n", front + [last, "", b, ""])
  {
    if place == AtEnd {
      AppendLines(front + [last], "", b);
      assert front + [last] + [""] == front + [last, ""];
      assert front + [last] + ["", b, ""] == front + [last, "", b, ""];
    } else {
      RStripLastLine(front, last);
      AppendLines(front, last, b);
    }
  }

  lemma LinesAppended(d: Doc, u: Block)
    requires d.facts != []
    ensures Lines(d) == Front(d) + Opening(d.body, d.facts[0]) + Texts(d.facts) + [""]
    ensures Lines(d.(facts := d.facts + [u]))
         == Front(d) + Opening(d.body, d.facts[0]) + Texts(d.facts) + ["", u.text, ""]
  {
    assert (d.facts + [u])[1..] == d.facts[1..] + [u];
    SegmentsAppend(d.facts[1..], u);
  }

  function Texts(bs: seq<Block>): seq<string>
    requires bs != []
  {
    [bs[0].text] + Segments(bs[1..])
  }

  lemma TextsEnd(bs: seq<Block>)
    requires bs != []
    ensures Texts(bs) != [] && Texts(bs)[|Texts(bs)| - 1] == bs[|bs| - 1].text
  {
    if |bs| > 1 { SegmentAt(bs[1..], |bs| - 2); }
  }

  /** How the lines end before and after another block is appended. */
  lemma FactLinesAppended(d: Doc, u: Block) returns (front: seq<string>)
    requires d.facts != []
    ensures Lines(d) == front + [d.facts[|d.facts| - 1].text, ""]
    ensures Lines(d.(facts := d.facts + [u])) == front + [d.facts[|d.facts| - 1].text, "", u.text, ""]
  {
    hide Lines, Opening, Segments, Texts;
    LinesAppended(d, u);
    TextsEnd(d.facts);
    var ts := Texts(d.facts);
    var n := |ts| - 1;
    assert ts == ts[..n] + [ts[n]];
    front := Front(d) + Opening(d.body, d.facts[0]) + ts[..n];
  }

  lemma LaterFactInserted(d: Doc, u: Block, kinds: set<Kind>)
    requires Admissible(d, kinds) && Clean(u, kinds)
    requires u.kind.place != AfterFirstLine && d.facts != [] && !Has(d.facts, u.kind)
    ensures Sync(u.kind, Render(d), u.text).Ok?
    ensures Sync(u.kind, Render(d), u.text).value == Render(Step(d, u))
  {
    hide Find, WellFormed, Join, Lines;
    AbsentLacks(d, u.kind, kinds);
    var last := d.facts[|d.facts| - 1];
    assert Clean(last, kinds);
    BlockIsSolid(last);
    var front := FactLinesAppended(d, u);
    InsertBehindLast(front, last.text, u.kind.place, u.text);
  }

  // ----- every run -----

  lemma StepKeepsAdmissible(d: Doc, u: Block, kinds: set<Kind>)
    requires Admissible(d, kinds) && Clean(u, kinds)
    ensures Admissible(Step(d, u), kinds)
  {
    hide Find, WellFormed;
  }

  /** One update of the text is one update of the document. */
  lemma StepRefines(d: Doc, u: Block, kinds: set<Kind>)
    requires Admissible(d, kinds) && Clean(u, kinds)
    ensures Sync(u.kind, Render(d), u.text).Ok?
    ensures Sync(u.kind, Render(d), u.text).value == Render(Step(d, u))
  {
    hide Find, WellFormed;
    if u.kind.place == AfterFirstLine {
      if Has(d.tops, u.kind) { TopOverwritten(d, u, kinds); } else { TopInserted(d, u, kinds); }
    } else if Has(d.facts, u.kind) {
      if d.facts[0].kind == u.kind { FirstFactOverwritten(d, u, kinds); } else { LaterFactOverwritten(d, u, kinds); }
    } else {
      if d.facts == [] { FirstFactInserted(d, u, kinds); } else { LaterFactInserted(d, u, kinds); }
    }
  }

  ghost predicate AllClean(us: seq<Block>, kinds: set<Kind>) {
    forall i :: 0 <= i < |us| ==> Clean(us[i], kinds)
  }

  /** Refinement: any run of updates, over any kinds and in any order, leaves the text of the
      document that the same updates make of the abstract one. */
  lemma {:induction false} RunRefines(d: Doc, us: seq<Block>, kinds: set<Kind>)
    requires Admissible(d, kinds) && AllClean(us, kinds)
    ensures Admissible(RunDoc(d, us), kinds)
    ensures RunText(Render(d), us).Ok? && RunText(Render(d), us).value == Render(RunDoc(d, us))
  {
    hide Find, WellFormed;
    if us != [] {
      var front, u := us[..|us| - 1], us[|us| - 1];
      RunRefines(d, front, kinds);
      StepKeepsAdmissible(RunDoc(d, front), u, kinds);
      StepRefines(RunDoc(d, front), u, kinds);
    }
  }
}
