/** When the order of one top update and one end update matters: a condition under which it does
    not, on any text, and which is exact where neither START stands twice. */
module Order {
  import opened Outcome
  import opened Text
  import opened Markers
  import opened Ledger
  import opened Runs
  import opened Naming
  import opened Commute
  import opened Spans

  // ----- two updates, one after the other -----

  function TwoUpdates(t: string, u: Block, v: Block): Result<string> {
    var t' :- Sync(u.kind, t, u.text);
    Sync(v.kind, t', v.text)
  }

  predicate Commuting(t: string, u: Block, v: Block) {
    TwoUpdates(t, u, v) == TwoUpdates(t, v, u)
  }

  lemma TwoAre(t: string, u: Block, v: Block, t': string, t'': string)
    requires Sync(u.kind, t, u.text).Ok? && Sync(u.kind, t, u.text).value == t'
    requires Sync(v.kind, t', v.text).Ok? && Sync(v.kind, t', v.text).value == t''
    ensures TwoUpdates(t, u, v).Ok? && TwoUpdates(t, u, v).value == t''
  {}

  // ----- both STARTs are there: x first, then y -----

  /** The two blocks: each closes itself and has no marker of the other kind. */
  ghost predicate Blocks(b: Block, f: Block) {
    && BracketedKind(b.kind) && BracketedKind(f.kind)
    && WellFormed(b.kind, b.text) && WellFormed(f.kind, f.text)
    && Free(b.text, f.kind) && Free(f.text, b.kind)
    && !Occurs(b.kind.start, f.kind.start) && !Occurs(f.kind.start, b.kind.start)
    && !Occurs(b.kind.start, f.kind.end) && !Occurs(f.kind.start, b.kind.end)
  }

  predicate Free(t: string, k: Kind) {
    !Occurs(t, k.start) && !Occurs(t, k.end)
  }

  /** What stands before and between the first STARTs of `x` and `y`. */
  ghost predicate Firsts(a: string, b: string, x: Block, y: Block) {
    Blocks(x, y) && !Occurs(a, x.kind.start) && !Occurs(a, y.kind.start) && !Occurs(b, y.kind.start)
  }

  /** A text with both STARTs once, that of `x` first. */
  ghost predicate Both(a: string, b: string, c: string, x: Block, y: Block) {
    Firsts(a, b, x, y) && !Occurs(b, x.kind.start) && !Occurs(c, x.kind.start) && !Occurs(c, y.kind.start)
  }

  function BothText(a: string, b: string, c: string, x: Block, y: Block): string {
    a + x.kind.start + (b + y.kind.start + c)
  }

  function Front2(a: string, b: string, x: Block): string {
    a + x.kind.start + b
  }

  lemma BothSplits(a: string, b: string, c: string, x: Block, y: Block)
    requires Firsts(a, b, x, y)
    ensures BothText(a, b, c, x, y) == Front2(a, b, x) + y.kind.start + c
    ensures !Occurs(Front2(a, b, x), y.kind.start)
    ensures Occurs(b + y.kind.start + c, x.kind.end) <==> Occurs(b, x.kind.end) || Occurs(c, x.kind.end)
  {
    hide Find, WellFormed;
    BracketedIsValid(x.kind);
    BracketedIsValid(y.kind);
    InParts(a, x.kind.start, b, y.kind.start);
    InParts(b, y.kind.start, c, x.kind.end);
  }

  /** `x` closes in front of `y`: the updates do not see each other. */
  lemma ClosedFirst(a: string, b: string, c: string, x: Block, y: Block)
    requires Firsts(a, b, x, y) && Occurs(b, x.kind.end)
    ensures Commuting(BothText(a, b, c, x, y), x, y)
  {
    hide Find, WellFormed, Sync, Updated, Bracketed;
    BothSplits(a, b, c, x, y);
    var s, v, w := y.kind.start, Updated(c, y.kind, y.text), Updated(b, x.kind, x.text);
    var t := a + x.kind.start + (b + s + c);
    AppendedToClosed(a, b, s + c, x);
    assert b + (s + c) == b + s + c && a + w + (s + c) == a + w + s + c;
    UpdatedLacks(a, b, x, s);
    SyncAt(a + w, c, y);
    TwoAre(t, x, y, a + w + s + c, a + w + v);
    SyncAt(Front2(a, b, x), c, y);
    assert Front2(a, b, x) + v == a + x.kind.start + (b + v);
    AppendedToClosed(a, b, v, x);
    TwoAre(t, y, x, a + x.kind.start + (b + v), a + w + v);
  }

  lemma AppendedToClosed(a: string, b: string, more: string, x: Block)
    requires BracketedKind(x.kind) && !Occurs(a, x.kind.start) && Occurs(b, x.kind.end)
    ensures Sync(x.kind, a + x.kind.start + (b + more), x.text).Ok?
    ensures Sync(x.kind, a + x.kind.start + (b + more), x.text).value == a + Updated(b, x.kind, x.text) + more
  {
    hide Find, Sync, Updated, Behind, Bracketed;
    BehindStable(b, more, x.kind);
    SyncAt(a, b + more, x);
    UpdatedAppended(b, more, x);
  }

  /** `x` never closes: it stays as it is in both orders. */
  lemma NeverClosed(a: string, b: string, c: string, x: Block, y: Block)
    requires Firsts(a, b, x, y) && !Occurs(b, x.kind.end) && !Occurs(c, x.kind.end)
    ensures Commuting(BothText(a, b, c, x, y), x, y)
  {
    hide Find, WellFormed, Sync, Updated, Bracketed;
    BothSplits(a, b, c, x, y);
    var v := Updated(c, y.kind, y.text);
    var t := a + x.kind.start + (b + y.kind.start + c);
    var t' := a + x.kind.start + (b + v);
    SyncAt(a, b + y.kind.start + c, x);
    StaysOpen(a, b + y.kind.start + c, x);
    SyncAt(Front2(a, b, x), c, y);
    assert Front2(a, b, x) + v == t';
    TwoAre(t, x, y, t, t');
    UpdatedLacks(b, c, y, x.kind.end);
    SyncAt(a, b + v, x);
    StaysOpen(a, b + v, x);
    TwoAre(t, y, x, t', t');
  }

  /** When `x` is open up to something solid, its update either takes that along, and with it any
      START in it, or leaves `x` open. */
  lemma TakesAlong(a: string, b: string, m: string, z: string, x: Block, s: string)
    requires BracketedKind(x.kind) && WellFormed(x.kind, x.text) && Bracketed(s)
    requires Solid(m) && !Occurs(b, x.kind.end) && !Occurs(m, x.kind.end)
    requires !Occurs(a, x.kind.start) && !Occurs(a, s) && !Occurs(z, s) && !Occurs(x.text, s)
    ensures var t := a + Updated(b + m + z, x.kind, x.text);
      if Occurs(z, x.kind.end) then t == a + x.text + Behind(z, x.kind) && !Occurs(t, s)
      else !Closed(t, x.kind)
  {
    hide Find, WellFormed, Behind, Bracketed;
    var rest := b + m + z;
    if Occurs(z, x.kind.end) {
      BracketedBlockIsSolid(x.kind, x.text);
      EndBehindSolid(b, m, z, x.kind);
      BehindLacks(z, x.kind, s);
      InParts(a, x.text, Behind(z, x.kind), s);
      assert a + Updated(rest, x.kind, x.text) == a + x.text + Behind(z, x.kind);
    } else {
      InParts(b, m, z, x.kind.end);
      StaysOpen(a, rest, x);
      OpenedAt(a, rest, x.kind);
    }
  }

  /** `x` closes behind `y`: updating `x` first takes the START of `y` along. */
  lemma XTakesY(a: string, b: string, c: string, x: Block, y: Block)
    requires Both(a, b, c, x, y) && !Occurs(b, x.kind.end) && Occurs(c, x.kind.end)
    ensures Sync(x.kind, BothText(a, b, c, x, y), x.text).Ok?
    ensures Sync(x.kind, BothText(a, b, c, x, y), x.text).value == a + x.text + Behind(c, x.kind)
    ensures !Occurs(a + x.text + Behind(c, x.kind), y.kind.start)
  {
    hide Find, WellFormed, Sync, Updated, Behind;
    BracketedIsValid(y.kind);
    SyncAt(a, b + y.kind.start + c, x);
    TakesAlong(a, b, y.kind.start, c, x, y.kind.start);
  }

  /** Updating `y` first either leaves `x` open, or the START of `y` goes as well. */
  lemma YThenX(a: string, b: string, c: string, x: Block, y: Block)
    requires Both(a, b, c, x, y) && !Occurs(b, x.kind.end) && Occurs(c, x.kind.end)
    ensures TwoUpdates(BothText(a, b, c, x, y), y, x).Ok?
    ensures var t := TwoUpdates(BothText(a, b, c, x, y), y, x).value; !Occurs(t, y.kind.start) || !Closed(t, x.kind)
  {
    hide Find, WellFormed, Sync, Updated, Behind, Closed, Bracketed;
    BothSplits(a, b, c, x, y);
    var v := Updated(c, y.kind, y.text);
    SyncAt(Front2(a, b, x), c, y);
    assert Front2(a, b, x) + v == a + x.kind.start + (b + v);
    SyncAt(a, b + v, x);
    TwoAre(BothText(a, b, c, x, y), y, x, a + x.kind.start + (b + v), a + Updated(b + v, x.kind, x.text));
    var m, z := SolidHead(b, c, y);
    TakesAlong(a, b, m, z, x, y.kind.start);
  }

  lemma SolidHead(b: string, c: string, y: Block) returns (m: string, z: string)
    requires BracketedKind(y.kind) && WellFormed(y.kind, y.text) && !Occurs(c, y.kind.start)
    ensures b + Updated(c, y.kind, y.text) == b + m + z && Solid(m) && !Occurs(z, y.kind.start)
    ensures m == y.text || m == y.kind.start
  {
    hide Find, WellFormed, Behind;
    BracketedIsValid(y.kind);
    BracketedBlockIsSolid(y.kind, y.text);
    if Occurs(c, y.kind.end) {
      m, z := y.text, Behind(c, y.kind);
      BehindLacks(c, y.kind, y.kind.start);
    } else {
      m, z := y.kind.start, c;
    }
  }

  lemma EndBehindSolid(b: string, s: string, c: string, k: Kind)
    requires BracketedKind(k) && Solid(s) && !Occurs(b, k.end) && !Occurs(s, k.end) && Occurs(c, k.end)
    ensures Occurs(b + s + c, k.end) && Behind(b + s + c, k) == Behind(c, k)
  {
    hide Find;
    assert b + s + c == b + (s + c);
    PastEnd(s, c, k.end);
    FindPastCut(b, s + c, k.end, 0);
  }

  // ----- a text that stays closed -----

  /** Something put in behind a line end does not part a marker. */
  lemma AtSpread(l: string, mid: string, r: string, m: string, i: nat)
    requires '\n' !in m && At(l + "\n" + r, m, i)
    ensures var v := l + "\n" + mid + r;
      if i + |m| <= |l| then At(v, m, i) else |l| < i + |m| && |l| + 1 <= i && At(v, m, i + |mid|)
  {
    var u, v := l + "\n" + r, l + "\n" + mid + r;
    if i + |m| <= |l| {
      assert u[i..i + |m|] == v[i..i + |m|];
    } else {
      if i <= |l| && m != "" { assert u[|l|] == '\n'; CharInside(u, m, i, |l|); }
      assert u[i..i + |m|] == v[i + |mid|..i + |mid| + |m|];
    }
  }

  lemma ClosedSpread(l: string, mid: string, r: string, k: Kind)
    requires BracketedKind(k) && Closed(l + "\n" + r, k)
    ensures Closed(l + "\n" + mid + r, k)
  {
    hide Find, Closed, At;
    var i, j := ClosedSays(l + "\n" + r, k);
    AtSpread(l, mid, r, k.start, i);
    AtSpread(l, mid, r, k.end, j);
    var i' := if i + |k.start| <= |l| then i else i + |mid|;
    var j' := if j + |k.end| <= |l| then j else j + |mid|;
    ClosedIf(l + "\n" + mid + r, k, i', j');
  }

  lemma SpaceBehind(t: string)
    ensures forall i :: |RStrip(t)| <= i < |t| ==> IsSpace(t[i])
  {
    hide RStrip;
    forall i | |RStrip(t)| <= i < |t| ensures IsSpace(t[i]) {
      assert t[i] == t[|RStrip(t)|..][i - |RStrip(t)|];
    }
  }

  lemma ClosedStripped(t: string, more: string, k: Kind)
    requires BracketedKind(k) && Closed(t, k)
    ensures Closed(RStrip(t) + more, k)
  {
    hide Find, Closed, RStrip;
    var i, j := ClosedSays(t, k);
    var r := RStrip(t);
    assert t[j..j + |k.end|][|k.end| - 1] == '>';
    assert t[j + |k.end| - 1] == '>';
    SpaceBehind(t);
    assert t == r + t[|r|..];
    AtLeft(r, t[|r|..], k.start, i);
    AtLeft(r, t[|r|..], k.end, j);
    AtLeft(r, more, k.start, i);
    AtLeft(r, more, k.end, j);
    ClosedIf(r + more, k, i, j);
  }

  lemma InsertionKeepsClosed(place: Place, t: string, b: string, k: Kind)
    requires BracketedKind(k) && Closed(t, k) && place != AtEnd && InsertAt(place, t, b).Ok?
    ensures Closed(InsertAt(place, t, b).value, k)
  {
    hide Find, Closed, RStrip;
    if place == AtEndStripped {
      ClosedStripped(t, "\n\n" + b + "\n", k);
      assert RStrip(t) + "\n\n" + b + "\n" == RStrip(t) + ("\n\n" + b + "\n");
    } else {
      var p := Find(t, "\n", 0);
      SplitFirstLine(t);
      ClosedSpread(FirstLine(t), "\n" + b + "\n", Rest(t), k);
      assert t[..p + 1] == FirstLine(t) + "\n";
      assert t[..p + 1] + "\n" + b + "\n" + t[p + 1..] == FirstLine(t) + "\n" + ("\n" + b + "\n") + Rest(t);
    }
  }

  lemma InsertedHas(place: Place, t: string, b: string, m: string)
    requires Occurs(b, m) && InsertAt(place, t, b).Ok?
    ensures Occurs(InsertAt(place, t, b).value, m)
  {
    hide Find, RStrip;
    InsertSplits(place, t, b);
    InfixHas(Before(place, t), b, After(place, t), m);
  }

  /** Both STARTs in the text: the order matters exactly when the first one closes behind the
      second one. */
  lemma BothExactly(a: string, b: string, c: string, x: Block, y: Block)
    requires Both(a, b, c, x, y) && y.kind.place != AtEnd
    ensures Commuting(BothText(a, b, c, x, y), x, y) <==> Occurs(b, x.kind.end) || !Occurs(c, x.kind.end)
  {
    hide Find, WellFormed, Sync, Behind, Closed, BothText;
    if Occurs(b, x.kind.end) {
      ClosedFirst(a, b, c, x, y);
    } else if !Occurs(c, x.kind.end) {
      NeverClosed(a, b, c, x, y);
    } else {
      XTakesY(a, b, c, x, y);
      YThenX(a, b, c, x, y);
      SwallowedDiffers(a, Behind(c, x.kind), x, y);
    }
  }

  /** The update of `y` behind that of `x` appends or inserts; `x` stays closed, `y` is there. */
  lemma SwallowedDiffers(a: string, z: string, x: Block, y: Block)
    requires Blocks(x, y) && !Occurs(a, x.kind.start) && !Occurs(a + x.text + z, y.kind.start) && y.kind.place != AtEnd
    ensures Sync(y.kind, a + x.text + z, y.text).Ok? ==>
      var v := Sync(y.kind, a + x.text + z, y.text).value; Occurs(v, y.kind.start) && Closed(v, x.kind)
  {
    hide Find, InsertAt;
    var u := a + x.text + z;
    BracketedBlockIsSolid(x.kind, x.text);
    FindStable(x.text, z, x.kind.start, 0);
    FindPastCut(a, x.text + z, x.kind.start, 0);
    assert u == a + (x.text + z);
    BlockFound(a, x.text, z, x.kind);
    if Sync(y.kind, u, y.text).Ok? {
      InsertionKeepsClosed(y.kind.place, u, y.text, x.kind);
      InsertedHas(y.kind.place, u, y.text, y.kind.start);
    }
  }

  // ----- only the top block's START is there -----

  lemma RStripBehindSolid(a: string, x: string, z: string)
    requires Solid(x)
    ensures RStrip(a + x + z) == a + x + RStrip(z)
  {
    hide RStrip;
    assert (a + x)[|a + x| - 1] == '>';
    RStripSolid(a + x);
    RStripConcat(a + x, z);
    if Blank(z) { BlankStrips(z); }
  }

  lemma {:induction false} BlankStrips(z: string)
    requires Blank(z)
    ensures RStrip(z) == ""
  {
    if z != "" { BlankStrips(z[..|z| - 1]); }
  }

  lemma SplitAtEnd(rest: string, k: Kind)
    requires BracketedKind(k) && Occurs(rest, k.end)
    ensures rest == rest[..Find(rest, k.end, 0)] + k.end + Behind(rest, k)
    ensures !Occurs(rest[..Find(rest, k.end, 0)], k.end)
  {
    hide Find;
    var i := Find(rest, k.end, 0);
    FindLeftmost(rest, k.end, 0);
    assert rest[i..i + |k.end|] == k.end;
    assert rest == rest[..i] + rest[i..i + |k.end|] + rest[i + |k.end|..];
    var y, r := rest[..i], rest[i..];
    assert rest == y + r;
    if Occurs(y, k.end) { FindStable(y, r, k.end, 0); }
  }

  /** The END that closes a block survives the stripping, with what is printed behind it. */
  lemma StrippedBehind(rest: string, k: Kind)
    requires BracketedKind(k)
    ensures Occurs(RStrip(rest), k.end) <==> Occurs(rest, k.end)
    ensures Occurs(rest, k.end) ==> Behind(RStrip(rest), k) == RStrip(Behind(rest, k))
  {
    hide Find, RStrip;
    if Occurs(rest, k.end) {
      var y, z := rest[..Find(rest, k.end, 0)], Behind(rest, k);
      SplitAtEnd(rest, k);
      RStripBehindSolid(y, k.end, z);
      FoundAfter(y, k.end);
      FindStable(y + k.end, RStrip(z), k.end, 0);
      assert (y + k.end + RStrip(z))[|y| + |k.end|..] == RStrip(z);
    } else {
      assert rest[..|RStrip(rest)|] == RStrip(rest);
      PrefixLacks(rest, |RStrip(rest)|, k.end);
    }
  }

  lemma AppendedLacks(r: string, f: string, m: string)
    requires Bracketed(m) && !Occurs(f, m)
    ensures Occurs(r + "\n\n" + f + "\n", m) <==> Occurs(r, m)
  {
    hide Find;
    NothingInEmpty(m);
    InLines(f, "", m);
    InLines("", f + "\n", m);
    assert f + "\n" + "" == f + "\n" && "" + "\n" + (f + "\n") == "\n" + f + "\n";
    InLines(r, "\n" + f + "\n", m);
    assert r + "\n" + ("\n" + f + "\n") == r + "\n\n" + f + "\n";
  }

  lemma NothingInEmpty(m: string)
    requires Bracketed(m)
    ensures !Occurs("", m)
  {}

  ghost predicate Ends(b: Block, f: Block) {
    Blocks(b, f) && b.kind.place == AfterFirstLine && f.kind.place == AtEndStripped
  }

  lemma UpdatedStripped(pre: string, rest: string, u: Block)
    requires BracketedKind(u.kind) && WellFormed(u.kind, u.text)
    ensures RStrip(pre + Updated(rest, u.kind, u.text)) == pre + Updated(RStrip(rest), u.kind, u.text)
  {
    hide Find, WellFormed, Behind, RStrip, Bracketed;
    BracketedIsValid(u.kind);
    BracketedBlockIsSolid(u.kind, u.text);
    StrippedBehind(rest, u.kind);
    if Occurs(rest, u.kind.end) {
      StripsBehind(pre, u.text, Behind(rest, u.kind));
    } else {
      StripsBehind(pre, u.kind.start, rest);
    }
  }

  lemma StripsBehind(a: string, x: string, z: string)
    requires Solid(x)
    ensures RStrip(a + (x + z)) == a + (x + RStrip(z))
  {
    hide RStrip;
    RStripBehindSolid(a, x, z);
    assert a + x + z == a + (x + z) && a + x + RStrip(z) == a + (x + RStrip(z));
  }

  /** A block with the empty line in front, as either insertion sets it. */
  function Spaced(b: string): string {
    "\n\n" + b + "\n"
  }

  lemma EndAppends(t: string, f: Block)
    requires f.kind.place == AtEndStripped && !Occurs(t, f.kind.start)
    ensures Sync(f.kind, t, f.text).Ok?
    ensures Sync(f.kind, t, f.text).value == RStrip(t) + Spaced(f.text)
  {
    hide Find, RStrip;
    assert RStrip(t) + "\n\n" + f.text + "\n" == RStrip(t) + Spaced(f.text);
  }

  /** With only the top START there, the end update appends and the order does not matter. */
  lemma TopOnlyCommutes(a: string, c: string, b: Block, f: Block)
    requires Ends(b, f) && !Occurs(a, b.kind.start)
    requires !Occurs(a + b.kind.start + c, f.kind.start)
    ensures Commuting(a + b.kind.start + c, b, f)
  {
    hide Find, WellFormed, Sync, Updated, RStrip, Spaced;
    var t, tail, v := a + b.kind.start + c, Spaced(f.text), Updated(RStrip(c), b.kind, b.text);
    SyncAt(a, c, b);
    UpdatedLacks(a, c, b, f.kind.start);
    EndAppends(a + Updated(c, b.kind, b.text), f);
    UpdatedStripped(a, c, b);
    TwoAre(t, b, f, a + Updated(c, b.kind, b.text), a + v + tail);
    EndAppends(t, f);
    BracketedIsValid(b.kind);
    RStripBehindSolid(a, b.kind.start, c);
    assert RStrip(t) + tail == a + b.kind.start + (RStrip(c) + tail);
    SyncAt(a, RStrip(c) + tail, b);
    AppendedLacks(RStrip(c), f.text, b.kind.end);
    AppendedText(RStrip(c), f.text);
    UpdatedAppended(RStrip(c), tail, b);
    assert a + (v + tail) == a + v + tail;
    TwoAre(t, f, b, RStrip(t) + tail, a + v + tail);
  }

  lemma AppendedText(r: string, f: string)
    ensures r + "\n\n" + f + "\n" == r + Spaced(f)
  {}

  // ----- only the end block's START is there -----

  /** What the top update makes of a text whose first line end is known. */
  lemma TopInserts(h: string, r: string, b: Block)
    requires b.kind.place == AfterFirstLine && '\n' !in h && !Occurs(h + "\n" + r, b.kind.start)
    ensures Sync(b.kind, h + "\n" + r, b.text).Ok?
    ensures Sync(b.kind, h + "\n" + r, b.text).value == h + Spaced(b.text) + r
  {
    hide Find;
    TopFirst(h, r, b);
    assert h + "\n\n" + b.text + "\n" + r == h + Spaced(b.text) + r;
  }

  lemma InsertedLacks(l: string, b: string, r: string, m: string)
    requires Bracketed(m) && !Occurs(b, m)
    ensures Occurs(l + Spaced(b) + r, m) <==> Occurs(l, m) || Occurs(r, m)
    ensures Occurs(l + "\n" + r, m) <==> Occurs(l, m) || Occurs(r, m)
  {
    hide Find;
    NothingInEmpty(m);
    InLines(l, r, m);
    InLines(b, r, m);
    InLines("", b + "\n" + r, m);
    assert "" + "\n" + (b + "\n" + r) == "\n" + b + "\n" + r;
    InLines(l, "\n" + b + "\n" + r, m);
    assert l + "\n" + ("\n" + b + "\n" + r) == l + Spaced(b) + r;
  }

  /** The end START stands behind the first line end. */
  lemma EndOnlyBelow(h: string, w: string, c: string, b: Block, f: Block)
    requires Ends(b, f) && '\n' !in h && !Occurs(h + "\n" + w, f.kind.start)
    requires !Occurs(h + "\n" + w + f.kind.start + c, b.kind.start)
    ensures Commuting(h + "\n" + w + f.kind.start + c, b, f)
  {
    hide Find, WellFormed, Sync, Updated, Spaced;
    var s, a, a', v := f.kind.start, h + "\n" + w, h + Spaced(b.text) + w, Updated(c, f.kind, f.text);
    var t := a + s + c;
    assert t == h + "\n" + (w + s + c);
    TopInserts(h, w + s + c, b);
    assert h + Spaced(b.text) + (w + s + c) == a' + s + c;
    InsertedLacks(h, b.text, w, s);
    SyncAt(a', c, f);
    TwoAre(t, b, f, a' + s + c, a' + v);
    SyncAt(a, c, f);
    UpdatedLacks(a, c, f, b.kind.start);
    assert a + v == h + "\n" + (w + v);
    TopInserts(h, w + v, b);
    assert h + Spaced(b.text) + (w + v) == a' + v;
    TwoAre(t, f, b, a + v, a' + v);
  }

  lemma TopFails(t: string, b: Block)
    requires b.kind.place == AfterFirstLine && !Occurs(t, b.kind.start) && !Occurs(t, "\n")
    ensures Sync(b.kind, t, b.text).Err? && Sync(b.kind, t, b.text).error == SubstringNotFound
  {}

  /** The end START stands in the first line and never closes. */
  lemma EndOnlyOpen(a: string, c: string, b: Block, f: Block)
    requires Ends(b, f) && '\n' !in a && !Occurs(a, f.kind.start) && !Occurs(c, f.kind.end)
    requires !Occurs(a + f.kind.start + c, b.kind.start)
    ensures Commuting(a + f.kind.start + c, b, f)
  {
    hide Find, WellFormed, Sync, Updated, Spaced;
    var s := f.kind.start;
    var t := a + s + c;
    SyncAt(a, c, f);
    StaysOpen(a, c, f);
    if Occurs(c, "\n") {
      var c1, c2 := FirstLine(c), Rest(c);
      SplitFirstLine(c);
      assert t == a + s + c1 + "\n" + c2;
      TopInserts(a + s + c1, c2, b);
      InsertedLacks(c1, b.text, c2, f.kind.end);
      var c' := c1 + Spaced(b.text) + c2;
      assert a + s + c1 + Spaced(b.text) + c2 == a + s + c';
      SyncAt(a, c', f);
      StaysOpen(a, c', f);
      TwoAre(t, b, f, a + s + c', a + s + c');
      TwoAre(t, f, b, t, a + s + c');
    } else {
      NoLineEnd(a, s, c);
      TopFails(t, b);
    }
  }

  /** The end START stands in the first line and closes: whether there is a further line end or
      not, the order matters. */
  lemma EndOnlyAbove(a: string, c: string, b: Block, f: Block)
    requires Ends(b, f) && '\n' !in a && !Occurs(a, f.kind.start) && Occurs(c, f.kind.end) && '\n' in f.text
    requires !Occurs(a + f.kind.start + c, b.kind.start)
    ensures !Commuting(a + f.kind.start + c, b, f)
  {
    hide Find, WellFormed, Sync, Behind, Spaced;
    var s, z := f.kind.start, Behind(c, f.kind);
    var t := a + s + c;
    AboveParts(a, c, b, f);
    SyncAt(a, c, f);
    assert a + (f.text + z) == a + f.text + z;
    InsideFirst(a, f.text, z, b);
    if Occurs(c, "\n") {
      var c1, c2 := FirstLine(c), Rest(c);
      SplitFirstLine(c);
      InLines(c1, c2, b.kind.start);
      assert t == a + s + c1 + "\n" + c2;
      TopInserts(a + s + c1, c2, b);
      var c' := c1 + Spaced(b.text) + c2;
      assert a + s + c1 + Spaced(b.text) + c2 == a + s + c';
      EndInInserted(a, c1, c2, b, f);
      SyncAt(a, c', f);
      assert a + (f.text + Behind(c', f.kind)) == a + f.text + Behind(c', f.kind);
    } else {
      NoLineEnd(a, s, c);
      TopFails(t, b);
    }
  }

  lemma AboveParts(a: string, c: string, b: Block, f: Block)
    requires Ends(b, f) && Occurs(c, f.kind.end) && !Occurs(a + f.kind.start + c, b.kind.start)
    ensures !Occurs(a, b.kind.start) && !Occurs(c, b.kind.start) && !Occurs(Behind(c, f.kind), b.kind.start)
    ensures Solid(f.text)
  {
    hide Find, WellFormed, Behind;
    BracketedIsValid(f.kind);
    BracketedBlockIsSolid(f.kind, f.text);
    InParts(a, f.kind.start, c, b.kind.start);
    BehindLacks(c, f.kind, b.kind.start);
  }

  lemma NoLineEnd(a: string, s: string, c: string)
    requires '\n' !in a && '\n' !in s && !Occurs(c, "\n")
    ensures !Occurs(a + s + c, "\n")
  {
    LacksNewline(c);
    NotIn(a + s + c, '\n');
  }

  lemma {:induction false} NotIn(t: string, c: char)
    requires c !in t
    ensures !Occurs(t, [c])
  {
    hide Find;
    forall j | 0 <= j < |t| ensures !At(t, [c], j) {
      assert t[j..j + 1][0] == t[j];
    }
    FindLeftmost(t, [c], 0);
  }

  /** Behind an end block in the first line, the top update goes into that block. */
  lemma InsideFirst(a: string, f: string, z: string, b: Block)
    requires BracketedKind(b.kind) && b.kind.place == AfterFirstLine && WellFormed(b.kind, b.text)
    requires '\n' !in a && '\n' in f && Solid(f)
    requires !Occurs(a, b.kind.start) && !Occurs(f, b.kind.start) && !Occurs(z, b.kind.start)
    ensures Sync(b.kind, a + f + z, b.text).Ok?
    ensures 0 <= Find(Sync(b.kind, a + f + z, b.text).value, b.kind.start, 0) <= |a| + |f| + 1
  {
    hide Find, WellFormed, Spaced;
    var m := b.kind.start;
    BracketedIsValid(b.kind);
    BracketedBlockIsSolid(b.kind, b.text);
    HasNewline(f);
    var f1, f2 := FirstLine(f), Rest(f);
    SplitFirstLine(f);
    InParts(a, f, z, m);
    assert a + f + z == (a + f1) + "\n" + (f2 + z);
    InsertedLacks(a + f1, "", f2 + z, m);
    TopInserts(a + f1, f2 + z, b);
    StartOfInserted(a + f1, f2 + z, b);
  }

  lemma HasNewline(f: string)
    requires '\n' in f
    ensures Occurs(f, "\n")
  {
    if !Occurs(f, "\n") { LacksNewline(f); }
  }

  lemma StartOfInserted(l: string, r: string, b: Block)
    requires BracketedKind(b.kind) && WellFormed(b.kind, b.text) && !Occurs(l, b.kind.start)
    ensures Find(l + Spaced(b.text) + r, b.kind.start, 0) == |l| + 2
  {
    hide Find;
    var m := b.kind.start;
    BracketedIsValid(b.kind);
    BracketedBlockIsSolid(b.kind, b.text);
    NothingInEmpty(m);
    InLines("", "", m);
    InLines(l, "\n", m);
    assert "" + "\n" + "" == "\n" && l + "\n" + "\n" == l + "\n\n";
    FindStable(b.text, "\n" + r, m, 0);
    FindPastCut(l + "\n\n", b.text + ("\n" + r), m, 0);
    assert l + Spaced(b.text) + r == l + "\n\n" + (b.text + ("\n" + r));
  }

  /** The other order: the top block lands behind the end block, or is replaced with it. */
  lemma EndInInserted(a: string, c1: string, c2: string, b: Block, f: Block)
    requires Ends(b, f) && Occurs(c1 + "\n" + c2, f.kind.end)
    requires !Occurs(a, b.kind.start) && !Occurs(c1, b.kind.start) && !Occurs(c2, b.kind.start)
    ensures Occurs(c1 + Spaced(b.text) + c2, f.kind.end)
    ensures var v := a + f.text + Behind(c1 + Spaced(b.text) + c2, f.kind);
      Find(v, b.kind.start, 0) == -1 || |a| + |f.text| + 2 <= Find(v, b.kind.start, 0)
  {
    hide Find, WellFormed, Spaced;
    var m, rest := b.kind.start, c1 + Spaced(b.text) + c2;
    BracketedBlockIsSolid(f.kind, f.text);
    InsertedLacks(c1, b.text, c2, f.kind.end);
    if Occurs(c1, f.kind.end) {
      BehindStable(c1, Spaced(b.text) + c2, f.kind);
      assert c1 + (Spaced(b.text) + c2) == rest;
      BehindLacks(c1, f.kind, m);
      var l := a + f.text + Behind(c1, f.kind);
      InParts(a, f.text, Behind(c1, f.kind), m);
      StartOfInserted(l, c2, b);
      assert l + Spaced(b.text) + c2 == a + f.text + (Behind(c1, f.kind) + (Spaced(b.text) + c2));
    } else {
      BehindInserted(c1, b.text, c2, f.kind);
      BehindLacks(c2, f.kind, m);
      InParts(a, f.text, Behind(c2, f.kind), m);
    }
  }

  lemma BehindInserted(l: string, b: string, r: string, k: Kind)
    requires BracketedKind(k) && !Occurs(l, k.end) && !Occurs(b, k.end) && Occurs(r, k.end)
    ensures Occurs(l + Spaced(b) + r, k.end) && Behind(l + Spaced(b) + r, k) == Behind(r, k)
  {
    hide Find;
    var m := k.end;
    NothingInEmpty(m);
    FindPastLine(b, r, m);
    FindPastLine("", b + "\n" + r, m);
    assert "" + "\n" + (b + "\n" + r) == "\n" + b + "\n" + r;
    FindPastLine(l, "\n" + b + "\n" + r, m);
    assert l + "\n" + ("\n" + b + "\n" + r) == l + Spaced(b) + r;
    assert (l + Spaced(b) + r)[|l + Spaced(b)|..] == r;
    assert |Spaced(b)| == 3 + |b|;
  }

  // ----- an end block on a single line, in the first line -----

  /** Without a line end both orders fail. */
  lemma SingleNoLine(a: string, c: string, b: Block, f: Block)
    requires Ends(b, f) && !Occurs(a, f.kind.start) && Occurs(c, f.kind.end) && '\n' !in a && '\n' !in f.text
    requires !Occurs(a + f.kind.start + c, b.kind.start) && !Occurs(c, "\n")
    ensures Commuting(a + f.kind.start + c, b, f)
  {
    hide Find, WellFormed, Sync, Behind;
    var s, z := f.kind.start, Behind(c, f.kind);
    BracketedIsValid(f.kind);
    NoLineEnd(a, s, c);
    TopFails(a + s + c, b);
    SyncAt(a, c, f);
    UpdatedLacks(a, c, f, b.kind.start);
    BehindLacks(c, f.kind, "\n");
    NoLineEnd(a, f.text, z);
    assert a + f.text + z == a + (f.text + z);
    TopFails(a + (f.text + z), b);
  }

  /** When it closes in front of the line end, the top block goes behind it in both orders. */
  lemma SingleAbove(a: string, c1: string, c2: string, b: Block, f: Block)
    requires Ends(b, f) && !Occurs(a, f.kind.start) && Occurs(c1, f.kind.end)
    requires '\n' !in a && '\n' !in f.text && '\n' !in c1
    requires !Occurs(a + f.kind.start + (c1 + "\n" + c2), b.kind.start)
    ensures Commuting(a + f.kind.start + (c1 + "\n" + c2), b, f)
  {
    hide Find, WellFormed, Sync, Updated, Spaced, Bracketed;
    var s, v, more := f.kind.start, Updated(c1, f.kind, f.text), Spaced(b.text) + c2;
    var t := a + s + (c1 + "\n" + c2);
    BracketedIsValid(f.kind);
    assert t == a + s + c1 + "\n" + c2;
    TopInserts(a + s + c1, c2, b);
    assert a + s + c1 + Spaced(b.text) + c2 == a + s + (c1 + more);
    AppendedToClosed(a, c1, more, f);
    TwoAre(t, b, f, a + s + (c1 + more), a + v + more);
    assert c1 + ("\n" + c2) == c1 + "\n" + c2;
    AppendedToClosed(a, c1, "\n" + c2, f);
    UpdatedLacks(a, c1 + "\n" + c2, f, b.kind.start);
    BehindStable(c1, "\n" + c2, f.kind);
    UpdatedAppended(c1, "\n" + c2, f);
    assert a + (v + ("\n" + c2)) == a + v + ("\n" + c2) == a + v + "\n" + c2;
    OneLineUpdated(c1, f);
    TopInserts(a + v, c2, b);
    assert a + v + Spaced(b.text) + c2 == a + v + more;
    TwoAre(t, f, b, a + v + ("\n" + c2), a + v + more);
  }

  lemma OneLineUpdated(c: string, f: Block)
    requires '\n' !in c && '\n' !in f.text && '\n' !in f.kind.start
    ensures '\n' !in Updated(c, f.kind, f.text)
  {
    hide Find;
  }

  /** When the line end is inside it, the end update takes along what the top update wrote. */
  lemma SingleAcross(a: string, c1: string, c2: string, b: Block, f: Block)
    requires Ends(b, f) && !Occurs(a, f.kind.start) && !Occurs(c1, f.kind.end) && Occurs(c2, f.kind.end)
    requires '\n' !in a && '\n' !in c1
    requires !Occurs(a + f.kind.start + (c1 + "\n" + c2), b.kind.start)
    ensures !Commuting(a + f.kind.start + (c1 + "\n" + c2), b, f)
  {
    hide Find, WellFormed, Sync, Behind, Spaced, Bracketed, InsertAt;
    var s, z, c := f.kind.start, Behind(c2, f.kind), c1 + "\n" + c2;
    var t, v := a + s + c, a + (f.text + z);
    BracketedIsValid(f.kind);
    LineEndBetween(c1, c2, f.kind);
    assert t == a + s + c1 + "\n" + c2;
    TopInserts(a + s + c1, c2, b);
    BehindInserted(c1, b.text, c2, f.kind);
    var c' := c1 + Spaced(b.text) + c2;
    assert a + s + c1 + Spaced(b.text) + c2 == a + s + c';
    SyncAt(a, c', f);
    TwoAre(t, b, f, a + s + c', v);
    SyncAt(a, c, f);
    UpdatedLacks(a, c, f, b.kind.start);
    WrittenHas(v, b);
  }

  lemma LineEndBetween(c1: string, c2: string, k: Kind)
    requires BracketedKind(k) && !Occurs(c1, k.end) && Occurs(c2, k.end)
    ensures Occurs(c1 + "\n" + c2, k.end) && Behind(c1 + "\n" + c2, k) == Behind(c2, k)
  {
    hide Find;
    FindPastLine(c1, c2, k.end);
    assert (c1 + "\n" + c2)[|c1| + 1..] == c2;
  }

  lemma WrittenHas(t: string, b: Block)
    requires !Occurs(t, b.kind.start) && WellFormed(b.kind, b.text)
    ensures Sync(b.kind, t, b.text).Ok? ==> Sync(b.kind, t, b.text).value != t
  {
    hide Find, InsertAt;
    if InsertAt(b.kind.place, t, b.text).Ok? { InsertedHas(b.kind.place, t, b.text, b.kind.start); }
  }

  // ----- every text that has each START at most once -----

  ghost predicate Once(t: string, m: string) {
    forall i, j :: At(t, m, i) && At(t, m, j) ==> i == j
  }

  lemma SplitFirst(t: string, m: string) returns (a: string, c: string)
    requires m != "" && Occurs(t, m)
    ensures t == a + m + c && |a| == Find(t, m, 0) && !Occurs(a, m)
  {
    hide Find;
    var p := Find(t, m, 0);
    FindLeftmost(t, m, 0);
    a, c := t[..p], t[p + |m|..];
    assert t[p..p + |m|] == m;
    assert t == a + m + c == a + (m + c);
    if Occurs(a, m) { FindStable(a, m + c, m, 0); }
  }

  lemma OnlyFirst(a: string, m: string, c: string)
    requires Once(a + m + c, m) && m != ""
    ensures !Occurs(c, m)
  {
    hide Find;
    assert At(a + m + c, m, |a|);
    if Occurs(c, m) {
      var i := Find(c, m, 0);
      FindLeftmost(c, m, 0);
      AtRight(a + m, c, m, i);
    }
  }

  lemma SplitFirsts(t: string, x: Block, y: Block) returns (a: string, b: string, c: string)
    requires Blocks(x, y) && 0 <= Find(t, x.kind.start, 0) < Find(t, y.kind.start, 0)
    ensures Firsts(a, b, x, y) && t == BothText(a, b, c, x, y)
    ensures |a| == Find(t, x.kind.start, 0) && |Front2(a, b, x)| == Find(t, y.kind.start, 0)
  {
    hide Find, WellFormed;
    var sx, sy := x.kind.start, y.kind.start;
    var r;
    BracketedIsValid(x.kind);
    a, r := SplitFirst(t, sx);
    assert t == a + (sx + r);
    if Occurs(a, sy) { FindStable(a, sx + r, sy, 0); }
    PastEnd(sx, r, sy);
    FindPastCut(a, sx + r, sy, 0);
    b, c := SplitFirst(r, sy);
  }

  lemma SplitBoth(t: string, x: Block, y: Block) returns (a: string, b: string, c: string)
    requires Blocks(x, y) && Once(t, x.kind.start) && Once(t, y.kind.start)
    requires 0 <= Find(t, x.kind.start, 0) < Find(t, y.kind.start, 0)
    ensures Both(a, b, c, x, y) && t == BothText(a, b, c, x, y)
    ensures |Front2(a, b, x)| == Find(t, y.kind.start, 0)
  {
    hide Find, WellFormed, Once;
    a, b, c := SplitFirsts(t, x, y);
    BracketedIsValid(y.kind);
    OnlyFirst(a, x.kind.start, b + y.kind.start + c);
    InParts(b, y.kind.start, c, x.kind.start);
    assert t == Front2(a, b, x) + y.kind.start + c;
    OnlyFirst(Front2(a, b, x), y.kind.start, c);
  }

  /** Where the first block of the kind closes. */
  function EndOf(t: string, k: Kind): int
    requires Occurs(t, k.start)
  {
    Find(t, k.end, Find(t, k.start, 0) + |k.start|)
  }

  lemma EndPlace(a: string, b: string, c: string, x: Block, y: Block)
    requires Firsts(a, b, x, y)
    ensures Occurs(BothText(a, b, c, x, y), x.kind.start)
    ensures Occurs(b, x.kind.end) || !Occurs(c, x.kind.end)
       <==> EndOf(BothText(a, b, c, x, y), x.kind) < |Front2(a, b, x)|
  {
    hide Find, WellFormed;
    var e, sy := x.kind.end, y.kind.start;
    BracketedIsValid(y.kind);
    OpenedAt(a, b + sy + c, x.kind);
    FoundAfter(a, x.kind.start);
    FindStable(a + x.kind.start, b + sy + c, x.kind.start, 0);
    assert a + x.kind.start + (b + sy + c) == BothText(a, b, c, x, y);
    assert b + sy + c == b + (sy + c);
    if Occurs(b, e) {
      FindStable(b, sy + c, e, 0);
    } else {
      PastEnd(sy, c, e);
      FindPastCut(b, sy + c, e, 0);
    }
  }

  /** What a caller can look up: where the STARTs stand, where the one in front closes, and where
      the first line ends. */
  predicate OrderFree(t: string, b: Block, f: Block) {
    var p, q, n := Find(t, b.kind.start, 0), Find(t, f.kind.start, 0), Find(t, "\n", 0);
    if p == -1 && q == -1 then n != -1 && (!Blank(Rest(t)) || RStrip(FirstLine(t)) == FirstLine(t))
    else if q == -1 then true
    else if p == -1 then
      EndOf(t, f.kind) == -1 || 0 <= n < q || ('\n' !in f.text && (n == -1 || EndOf(t, f.kind) < n))
    else if p < q then EndOf(t, b.kind) < q
    else EndOf(t, f.kind) < p
  }

  lemma BothOrder(t: string, x: Block, y: Block)
    requires Blocks(x, y) && Once(t, x.kind.start) && Once(t, y.kind.start) && y.kind.place != AtEnd
    requires 0 <= Find(t, x.kind.start, 0) < Find(t, y.kind.start, 0)
    ensures Commuting(t, x, y) <==> EndOf(t, x.kind) < Find(t, y.kind.start, 0)
  {
    hide Find, WellFormed, Once, Commuting, BothText;
    var a, b, c := SplitBoth(t, x, y);
    EndPlace(a, b, c, x, y);
    BothExactly(a, b, c, x, y);
  }

  lemma NotTogether(t: string, x: Block, y: Block)
    requires Blocks(x, y) && Occurs(t, x.kind.start)
    ensures Find(t, x.kind.start, 0) != Find(t, y.kind.start, 0)
  {
    hide Find, WellFormed;
    var p, u, v := Find(t, x.kind.start, 0), x.kind.start, y.kind.start;
    FindLeftmost(t, u, 0);
    FindLeftmost(t, v, 0);
    if p == Find(t, v, 0) {
      if |u| <= |v| { SharedBegin(t, u, v, p); } else { SharedBegin(t, v, u, p); }
    }
  }

  lemma SharedBegin(t: string, u: string, v: string, p: nat)
    requires At(t, u, p) && At(t, v, p) && |u| <= |v|
    ensures Occurs(v, u)
  {
    assert v[0..|u|] == t[p..p + |v|][0..|u|] == u;
    FindIs(v, u, 0, 0);
  }

  /** The first line end of a text that opens a block in its first line. */
  lemma LineEndBehind(a: string, s: string, c: string)
    requires '\n' !in a && '\n' !in s
    ensures Find(a + s + c, "\n", 0) == if Occurs(c, "\n") then |a| + |s| + Find(c, "\n", 0) else -1
  {
    hide Find;
    NotInFront(a + s, c);
    FindPast(a + s, c, "\n");
  }

  /** Whether a block closes in front of a line end. */
  lemma EndBeforeLine(c: string, k: Kind)
    requires BracketedKind(k) && Occurs(c, k.end) && Occurs(c, "\n")
    ensures Find(c, k.end, 0) < Find(c, "\n", 0) <==> Occurs(FirstLine(c), k.end)
    ensures !Occurs(FirstLine(c), k.end) ==> Occurs(Rest(c), k.end)
  {
    hide Find;
    var h, r := FirstLine(c), Rest(c);
    SplitFirstLine(c);
    assert c == h + ("\n" + r);
    if Occurs(h, k.end) { FindStable(h, "\n" + r, k.end, 0); } else { FindPastLine(h, r, k.end); }
  }

  lemma EndOnlySingle(a: string, c: string, b: Block, f: Block)
    requires Ends(b, f) && '\n' !in a && '\n' !in f.text && !Occurs(a, f.kind.start) && Occurs(c, f.kind.end)
    requires !Occurs(a + f.kind.start + c, b.kind.start)
    ensures Commuting(a + f.kind.start + c, b, f) <==>
      !Occurs(c, "\n") || Find(c, f.kind.end, 0) < Find(c, "\n", 0)
  {
    hide Find, WellFormed, Commuting, Bracketed;
    if !Occurs(c, "\n") {
      SingleNoLine(a, c, b, f);
    } else {
      SplitFirstLine(c);
      EndBeforeLine(c, f.kind);
      if Occurs(FirstLine(c), f.kind.end) {
        SingleAbove(a, FirstLine(c), Rest(c), b, f);
      } else {
        SingleAcross(a, FirstLine(c), Rest(c), b, f);
      }
    }
  }

  lemma EndOnlyOrder(t: string, b: Block, f: Block)
    requires Ends(b, f) && Occurs(t, f.kind.start) && !Occurs(t, b.kind.start)
    ensures Commuting(t, b, f) <==> OrderFree(t, b, f)
  {
    hide Find, WellFormed, Commuting, Bracketed;
    var s := f.kind.start;
    BracketedIsValid(f.kind);
    var a, c := SplitFirst(t, s);
    OpenedAt(a, c, f.kind);
    assert t == a + (s + c);
    if Occurs(a, "\n") {
      FindStable(a, s + c, "\n", 0);
      SplitFirstLine(a);
      EndOnlyBelow(FirstLine(a), Rest(a), c, b, f);
    } else {
      LacksNewline(a);
      LineEndBehind(a, s, c);
      if !Occurs(c, f.kind.end) {
        EndOnlyOpen(a, c, b, f);
      } else if '\n' in f.text {
        EndOnlyAbove(a, c, b, f);
      } else {
        EndOnlySingle(a, c, b, f);
      }
    }
  }

  lemma NotInFront(a: string, r: string)
    requires '\n' !in a
    ensures var n := Find(a + r, "\n", 0); n == -1 || |a| <= n
  {
    var n := Find(a + r, "\n", 0);
    FindLeftmost(a + r, "\n", 0);
    if n != -1 { assert (a + r)[n..n + 1][0] == (a + r)[n]; }
  }

  lemma NeitherOrder(t: string, b: Block, f: Block)
    requires Ends(b, f) && !Occurs(t, b.kind.start) && !Occurs(t, f.kind.start)
    ensures Commuting(t, b, f)
       <==> Occurs(t, "\n") && (!Blank(Rest(t)) || RStrip(FirstLine(t)) == FirstLine(t))
  {
    hide Find, WellFormed, RStrip;
    BracketedIsValid(b.kind);
    BracketedIsValid(f.kind);
    assert Pair(t, b, f, {b.kind, f.kind});
    FirstBlocksCommuteExactly(t, b, f, {b.kind, f.kind});
    RunPair(t, b, f);
    RunPair(t, f, b);
  }

  lemma BothFree(t: string, x: Block, y: Block)
    requires Blocks(x, y) && 0 <= Find(t, x.kind.start, 0) < Find(t, y.kind.start, 0)
    requires EndOf(t, x.kind) < Find(t, y.kind.start, 0)
    ensures Commuting(t, x, y)
  {
    hide Find, WellFormed, Commuting, Firsts, BothText;
    var a, b, c := SplitFirsts(t, x, y);
    EndPlace(a, b, c, x, y);
    if Occurs(b, x.kind.end) { ClosedFirst(a, b, c, x, y); } else { NeverClosed(a, b, c, x, y); }
  }

  /** On every text, however many markers stand in it, the order of the two updates does not
      matter when the text is free in this sense. */
  lemma FreeCommutes(t: string, b: Block, f: Block)
    requires Ends(b, f) && OrderFree(t, b, f)
    ensures Commuting(t, b, f)
  {
    hide Find, WellFormed, RStrip;
    var p, q := Find(t, b.kind.start, 0), Find(t, f.kind.start, 0);
    if p == -1 && q == -1 {
      NeitherOrder(t, b, f);
    } else if q == -1 {
      var a, c := SplitFirst(t, b.kind.start);
      TopOnlyCommutes(a, c, b, f);
    } else if p == -1 {
      EndOnlyOrder(t, b, f);
    } else {
      NotTogether(t, b, f);
      if p < q { BothFree(t, b, f); } else { BothFree(t, f, b); }
    }
  }

  /** And where neither START stands twice, only then. */
  lemma OrderExactly(t: string, b: Block, f: Block)
    requires Ends(b, f) && Once(t, b.kind.start) && Once(t, f.kind.start)
    ensures Commuting(t, b, f) <==> OrderFree(t, b, f)
  {
    hide Find, WellFormed, Once, RStrip, Commuting;
    var p, q := Find(t, b.kind.start, 0), Find(t, f.kind.start, 0);
    if OrderFree(t, b, f) {
      FreeCommutes(t, b, f);
    } else if p == -1 && q == -1 {
      NeitherOrder(t, b, f);
    } else if p == -1 {
      EndOnlyOrder(t, b, f);
    } else {
      NotTogether(t, b, f);
      if p < q { BothOrder(t, b, f); } else { BothOrder(t, f, b); CommutingIsSymmetric(t, b, f); }
    }
  }

  lemma CommutingIsSymmetric(t: string, b: Block, f: Block)
    ensures Commuting(t, b, f) == Commuting(t, f, b)
  {}

  // ----- the scripts' own blocks -----

  ghost predicate FourWords(s1: string, e1: string, s2: string, e2: string) {
    && Word(s1) && Word(s2) && Word(e1) && Word(e2)
    && s1 != s2 && s1 != e1 && s1 != e2 && s2 != e1 && s2 != e2 && e1 != e2
  }

  lemma MarkerIsBracketed(w: string)
    requires Word(w)
    ensures Bracketed(Marker(w))
  {
    forall i | 0 <= i < |Marker(w)|
      ensures Marker(w)[i] != '\n' && (Marker(w)[i] == '<' <==> i == 0)
      ensures Marker(w)[i] == '>' <==> i == |Marker(w)| - 1
    {
      MarkerChars(w, i);
    }
  }

  function TopBlock(s: string, body: string, e: string): Block {
    Block(Named(AfterFirstLine, s, e), BlockText(s, body, e))
  }

  function EndBlock(s: string, body: string, e: string): Block {
    Block(Named(AtEndStripped, s, e), BlockText(s, body, e))
  }

  /** The scripts' blocks, named by four words, meet what the theorem asks. */
  lemma ScriptPair(s1: string, x: string, e1: string, s2: string, y: string, e2: string)
    requires FourWords(s1, e1, s2, e2) && !Occurs(x, "<!--") && !Occurs(y, "<!--")
    ensures Ends(TopBlock(s1, x, e1), EndBlock(s2, y, e2))
  {
    hide Find, WellFormed, Bracketed, Marker;
    MarkerIsBracketed(s1);
    MarkerIsBracketed(e1);
    MarkerIsBracketed(s2);
    MarkerIsBracketed(e2);
    BlockTextWellFormed(AfterFirstLine, s1, x, e1);
    BlockTextWellFormed(AtEndStripped, s2, y, e2);
    MarkerInBlock(s1, x, e1, s2);
    MarkerInBlock(s1, x, e1, e2);
    MarkerInBlock(s2, y, e2, s1);
    MarkerInBlock(s2, y, e2, e1);
    MarkersApart(s1, s2);
    MarkersApart(s2, s1);
    MarkersApart(s1, e2);
    MarkersApart(s2, e1);
  }

  /** Crossed markers: the top update takes the end block's START with it. */
  lemma CrossedDoNotCommute(s1: string, x: string, e1: string, s2: string, y: string, e2: string)
    requires FourWords(s1, e1, s2, e2) && !Occurs(x, "<!--") && !Occurs(y, "<!--")
    ensures !Commuting("head\n" + Marker(s1) + ("\n" + Marker(s2) + ("\n" + Marker(e1) + "\n" + Marker(e2))),
                       TopBlock(s1, x, e1), EndBlock(s2, y, e2))
  {
    hide Find, WellFormed, Bracketed, Commuting;
    ScriptPair(s1, x, e1, s2, y, e2);
    CrossedLack(e1, e2, s1);
    CrossedLack(e1, e2, s2);
    CrossedLack(e1, e2, e1);
    BothExactly("head\n", "\n", "\n" + Marker(e1) + "\n" + Marker(e2), TopBlock(s1, x, e1), EndBlock(s2, y, e2));
  }

  lemma CrossedLack(e1: string, e2: string, w: string)
    requires Word(e1) && Word(e2) && Word(w) && w != e2
    ensures !Occurs("head\n", Marker(w)) && !Occurs("\n", Marker(w))
    ensures Occurs("\n" + Marker(e1) + "\n" + Marker(e2), Marker(w)) <==> e1 == w
  {
    hide Find, Bracketed;
    var m := Marker(w);
    MarkerIsBracketed(w);
    MarkersApart(e1, w);
    MarkersApart(e2, w);
    NothingInEmpty(m);
    InLines(Marker(e1), Marker(e2), m);
    InLines("", Marker(e1) + "\n" + Marker(e2), m);
    assert "" + "\n" + (Marker(e1) + "\n" + Marker(e2)) == "\n" + Marker(e1) + "\n" + Marker(e2);
    assert |m| > |"head\n"|;
  }
}
