/** The marker-block editor of the `sync_docs.py` family: a block `START ... END` is replaced
    where the text already has its START, and otherwise inserted at the kind's own place. */
module Markers {
  import opened Outcome
  import opened Text

  /** Where a block of this kind goes when the text has none yet. */
  datatype Place =
    | AfterFirstLine   // after the first newline
    | AtEndStripped    // at the end, behind `rstrip`
    | AtEnd            // at the end, as the text stands

  datatype Kind = Kind(place: Place, start: string, end: string)

  /** Markers are printed on one line. */
  predicate ValidKind(k: Kind) {
    && k.start != "" && '\n' !in k.start
    && k.end != "" && '\n' !in k.end && !IsSpace(k.end[|k.end| - 1])
  }

  /** `re.sub('START.*?END', lambda _: b, t, count=1, flags=re.S)`: the leftmost START, then the
      first END behind it; without such an END nothing matches. */
  function SubFirst(t: string, k: Kind, b: string): string {
    var p := Find(t, k.start, 0);
    if p == -1 then t
    else
      var q := Find(t, k.end, p + |k.start|);
      if q == -1 then t else t[..p] + b + t[q + |k.end|..]
  }

  /** Whether the first START has an END behind it. */
  predicate Closed(t: string, k: Kind) {
    Occurs(t, k.start) && Find(t, k.end, Find(t, k.start, 0) + |k.start|) != -1
  }

  function InsertAt(place: Place, t: string, b: string): Result<string> {
    match place
    case AfterFirstLine =>
      var p := Find(t, "\n", 0);
      if p == -1 then Err(SubstringNotFound) else Ok(t[..p + 1] + "\n" + b + "\n" + t[p + 1..])
    case AtEndStripped => Ok(RStrip(t) + "\n\n" + b + "\n")
    case AtEnd => Ok(t + "\n" + b + "\n")
  }

  /** One update of one document. */
  function Sync(k: Kind, t: string, b: string): Result<string> {
    if Occurs(t, k.start) then Ok(SubFirst(t, k, b)) else InsertAt(k.place, t, b)
  }

  function SyncTwice(k: Kind, t: string, b: string, b': string): Result<string> {
    var t' :- Sync(k, t, b);
    Sync(k, t', b')
  }

  /** A block that the editor can find again: it opens with START and the first END closes it. */
  predicate WellFormed(k: Kind, b: string) {
    && |k.start| + |k.end| <= |b|
    && Find(b, k.start, 0) == 0 && Find(b, k.end, |k.start|) == |b| - |k.end|
  }

  /** What is between the markers of a well-formed block. */
  function Inner(k: Kind, b: string): string
    requires WellFormed(k, b)
  {
    b[|k.start|..|b| - |k.end|]
  }

  /** The reader's side: `t.split(START, 1)[1].split(END, 1)[0]`. */
  function Extract(t: string, k: Kind): Result<string> {
    var p := Find(t, k.start, 0);
    if p == -1 then Err(SubstringNotFound)
    else
      var q := Find(t, k.end, p + |k.start|);
      Ok(if q == -1 then t[p + |k.start|..] else t[p + |k.start|..q])
  }

  // ----- replacing a block that is in place -----

  /** Where a well-formed block stands, its own markers are the first ones found. */
  lemma BlockFound(pre: string, b: string, post: string, k: Kind)
    requires WellFormed(k, b) && SeamFree(pre, b + post, k.start)
    ensures Find(pre + b + post, k.start, 0) == |pre|
    ensures Find(pre + b + post, k.end, |pre| + |k.start|) == |pre| + |b| - |k.end|
  {
    hide Find;
    assert pre + b + post == pre + (b + post);
    FindStable(b, post, k.start, 0);
    FindPast(pre, b + post, k.start);
    FindStable(b, post, k.end, |k.start|);
    FindShift(pre, b + post, k.end, |k.start|);
  }

  lemma SubFound(t: string, k: Kind, p: nat, q: nat, b: string)
    requires Find(t, k.start, 0) == p && Find(t, k.end, p + |k.start|) == q
    ensures SubFirst(t, k, b) == t[..p] + b + t[q + |k.end|..]
    ensures Extract(t, k).Ok? && Extract(t, k).value == t[p + |k.start|..q]
  {
    hide Find;
  }

  lemma ExtractAt(t: string, k: Kind, p: nat, q: int)
    requires Find(t, k.start, 0) == p && Find(t, k.end, p + |k.start|) == q
    ensures Extract(t, k).Ok?
    ensures Extract(t, k).value == if q == -1 then t[p + |k.start|..] else t[p + |k.start|..q]
  {
    hide Find;
  }

  /** What a reader gets from any text: nothing without a START, and what is behind the first START
      up to the END that follows it, or all of it when none does. */
  lemma ExtractExactly(a: string, c: string, k: Kind)
    requires Find(a + k.start, k.start, 0) == |a|
    ensures Extract(a + k.start + c, k).Ok?
    ensures Extract(a + k.start + c, k).value == if Occurs(c, k.end) then c[..Find(c, k.end, 0)] else c
  {
    hide Find, Extract;
    var u := a + k.start;
    var i := Find(c, k.end, 0);
    FindStable(u, c, k.start, 0);
    FindShift(u, c, k.end, 0);
    ExtractAt(u + c, k, |a|, if i == -1 then -1 else |u| + i);
    SliceBehind(u, c, if i == -1 then |c| else i);
  }

  lemma SliceBehind(a: string, c: string, i: nat)
    requires i <= |c|
    ensures (a + c)[|a|..|a| + i] == c[..i] && (a + c)[|a|..] == c && c[..|c|] == c
  {}

  lemma ExtractNothing(t: string, k: Kind)
    ensures Extract(t, k).Err? <==> !Occurs(t, k.start)
  {}

  lemma SubAt(pre: string, b: string, post: string, k: Kind, b': string)
    requires WellFormed(k, b) && SeamFree(pre, b + post, k.start)
    ensures Occurs(pre + b + post, k.start)
    ensures SubFirst(pre + b + post, k, b') == pre + b' + post
    ensures Extract(pre + b + post, k).Ok? && Extract(pre + b + post, k).value == Inner(k, b)
  {
    hide Find;
    var t := pre + b + post;
    BlockFound(pre, b, post, k);
    SubFound(t, k, |pre|, |pre| + |b| - |k.end|, b');
    assert t[..|pre|] == pre && t[|pre| + |b|..] == post;
    SliceOfMiddle(pre, b, post, |k.start|, |b| - |k.end|);
  }

  /** A START cannot arise to the left of a block that replaces one beginning at the first START. */
  lemma NoEarlierStart(t: string, k: Kind, b: string, post: string)
    requires Occurs(t, k.start) && Find(b, k.start, 0) == 0
    ensures SeamFree(t[..Find(t, k.start, 0)], b + post, k.start)
  {
    hide Find;
    var p, n := Find(t, k.start, 0), |k.start|;
    FindLeftmost(t, k.start, 0);
    FindLeftmost(b, k.start, 0);
    var u, v := t[..p] + k.start, b[n..] + post;
    assert u == t[..p + n] && t == u + t[p + n..];
    assert b == k.start + b[n..] && t[..p] + (b + post) == u + v;
    FirstInPrefix(t, k.start, p + n);
    FindStable(u, v, k.start, 0);
  }

  lemma ClosedIf(t: string, k: Kind, i: nat, j: nat)
    requires At(t, k.start, i) && i + |k.start| <= j && At(t, k.end, j)
    ensures Closed(t, k)
  {
    hide Find;
    FindLeftmost(t, k.start, 0);
    FindLeftmost(t, k.end, Find(t, k.start, 0) + |k.start|);
  }

  lemma ClosedSays(t: string, k: Kind) returns (i: nat, j: nat)
    requires Closed(t, k)
    ensures At(t, k.start, i) && i + |k.start| <= j && At(t, k.end, j)
  {
    hide Find;
    i := Find(t, k.start, 0);
    j := Find(t, k.end, i + |k.start|);
    FindLeftmost(t, k.start, 0);
    FindLeftmost(t, k.end, i + |k.start|);
  }

  /** What an insertion puts in front of the block, and behind it. */
  function Before(place: Place, t: string): string {
    match place
    case AfterFirstLine => t[..Find(t, "\n", 0) + 1] + "\n"
    case AtEndStripped => RStrip(t) + "\n\n"
    case AtEnd => t + "\n"
  }

  function After(place: Place, t: string): string {
    if place == AfterFirstLine then "\n" + t[Find(t, "\n", 0) + 1..] else "\n"
  }

  lemma InsertSplits(place: Place, t: string, b: string)
    requires place == AfterFirstLine ==> Occurs(t, "\n")
    ensures InsertAt(place, t, b) == Ok(Before(place, t) + b + After(place, t))
  {
    if place == AfterFirstLine {
      var p := Find(t, "\n", 0);
      assert t[..p + 1] + "\n" + b + "\n" + t[p + 1..] == Before(place, t) + b + After(place, t);
    }
  }

  lemma BeforeIsSeamFree(k: Kind, t: string, r: string)
    requires ValidKind(k) && !Occurs(t, k.start)
    ensures SeamFree(Before(k.place, t), r, k.start)
  {
    hide Find;
    match k.place
    case AfterFirstLine =>
      PrefixLacks(t, Find(t, "\n", 0) + 1, k.start);
      NoStraddle(t[..Find(t, "\n", 0) + 1], '\n', r, k.start);
    case AtEnd => NoStraddle(t, '\n', r, k.start);
    case AtEndStripped =>
      var a := RStrip(t);
      assert t[..|a|] == a;
      PrefixLacks(t, |a|, k.start);
      FindPastLine(a, "", k.start);
      assert a + "\n" + "" == a + "\n";
      NoStraddle(a + "\n", '\n', r, k.start);
      assert a + "\n\n" == a + "\n" + ['\n'];
  }

  // ----- main results -----

  lemma LastReplacementWins(k: Kind, t: string, b: string, b': string)
    requires WellFormed(k, b) && Occurs(t, k.start)
    ensures Occurs(SubFirst(t, k, b), k.start)
    ensures SubFirst(SubFirst(t, k, b), k, b') == SubFirst(t, k, b')
  {
    hide Find;
    var p := Find(t, k.start, 0);
    var q := Find(t, k.end, p + |k.start|);
    if q != -1 {
      var pre, post := t[..p], t[q + |k.end|..];
      assert SubFirst(t, k, b) == pre + b + post && SubFirst(t, k, b') == pre + b' + post;
      NoEarlierStart(t, k, b, post);
      SubAt(pre, b, post, k, b');
    }
  }

  lemma LastInsertionWins(k: Kind, t: string, b: string, b': string)
    requires ValidKind(k) && WellFormed(k, b) && !Occurs(t, k.start)
    requires k.place == AfterFirstLine ==> Occurs(t, "\n")
    ensures SyncTwice(k, t, b, b') == Sync(k, t, b')
  {
    hide Find;
    var pre, post := Before(k.place, t), After(k.place, t);
    InsertSplits(k.place, t, b);
    InsertSplits(k.place, t, b');
    BeforeIsSeamFree(k, t, b + post);
    SubAt(pre, b, post, k, b');
  }

  /** Only the latest block counts, on every text: inserted, replaced, or left alone because
      a START has no END.  The two sides also fail on the same texts. */
  lemma LastWriterWins(k: Kind, t: string, b: string, b': string)
    requires ValidKind(k) && WellFormed(k, b)
    ensures SyncTwice(k, t, b, b') == Sync(k, t, b')
  {
    hide Find;
    if Occurs(t, k.start) {
      LastReplacementWins(k, t, b, b');
    } else if k.place != AfterFirstLine || Occurs(t, "\n") {
      LastInsertionWins(k, t, b, b');
    }
  }

  /** Updating the bare pair START END writes the block and nothing else. */
  lemma BarePair(k: Kind, b: string)
    requires ValidKind(k)
    ensures Sync(k, k.start + k.end, b).Ok? && Sync(k, k.start + k.end, b).value == b
  {
    hide Find;
    var w := k.start + k.end;
    assert At(w, k.start, 0) && At(w, k.end, |k.start|);
    FindIs(w, k.start, 0, 0);
    FindIs(w, k.end, |k.start|, |k.start|);
    SubFound(w, k, 0, |k.start|, b);
    assert w[..0] + b + w[|w|..] == b;
  }

  lemma EmptiedIsWellFormed(k: Kind, b: string)
    requires ValidKind(k) && Sync(k, b, "").Ok? && Sync(k, b, "").value == ""
    ensures WellFormed(k, b)
  {
    hide Find;
    if Occurs(b, k.start) && Find(b, k.end, Find(b, k.start, 0) + |k.start|) != -1 {
      SubFound(b, k, Find(b, k.start, 0), Find(b, k.end, Find(b, k.start, 0) + |k.start|), "");
    }
  }

  /** Conversely, a block with this property for every text is well formed: the bare pair
      START END already tells the bad blocks apart. */
  lemma LastWriterNeedsWellFormed(k: Kind, b: string)
    requires ValidKind(k)
    requires SyncTwice(k, k.start + k.end, b, "") == Sync(k, k.start + k.end, "")
    ensures WellFormed(k, b)
  {
    hide Find, Sync;
    BarePair(k, b);
    BarePair(k, "");
    EmptiedIsWellFormed(k, b);
  }

  lemma LastWriterExactly(k: Kind, b: string)
    requires ValidKind(k)
    ensures WellFormed(k, b) <==> forall t, b' :: SyncTwice(k, t, b, b') == Sync(k, t, b')
  {
    if WellFormed(k, b) {
      forall t, b' ensures SyncTwice(k, t, b, b') == Sync(k, t, b') { LastWriterWins(k, t, b, b'); }
    } else if forall t, b' :: SyncTwice(k, t, b, b') == Sync(k, t, b') {
      LastWriterNeedsWellFormed(k, b);
    }
  }
}
