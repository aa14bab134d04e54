/** The one-shot rename in front of an update: when can a second pass of the loop tell that there
    was a first one? */
module Renaming {
  import opened Outcome
  import opened Text
  import opened Markers
  import opened Ledger
  import opened Spans

  /** `text.replace(old, new, 1)`, or no rename at all. */
  datatype Rename = Keep | Rename(before: string, after: string)

  function Renamed(r: Rename, t: string): string {
    match r
    case Keep => t
    case Rename(before, after) =>
      var i := Find(t, before, 0);
      if i == -1 then t else t[..i] + after + t[i + |before|..]
  }

  /** What one pass of the loop makes of a document. */
  function Revise(k: Kind, r: Rename, t: string, b: string): Result<string> {
    Sync(k, Renamed(r, t), b)
  }

  /** No update can tell the two texts apart. */
  ghost predicate Alike(k: Kind, r: Rename, t: string, t0: string) {
    forall b :: Revise(k, r, t, b) == Revise(k, r, t0, b)
  }

  // ----- what a pass puts the block between -----

  /** An update of this text writes the block: it replaces a closed one, or finds its place. */
  predicate Writes(k: Kind, t: string) {
    if Occurs(t, k.start) then Closed(t, k) else k.place == AfterFirstLine ==> Occurs(t, "\n")
  }

  function Pre(k: Kind, t: string): string {
    if Occurs(t, k.start) then t[..Find(t, k.start, 0)] else Before(k.place, t)
  }

  function Post(k: Kind, t: string): string {
    if Closed(t, k) then t[Find(t, k.end, Find(t, k.start, 0) + |k.start|) + |k.end|..] else After(k.place, t)
  }

  /** START is found where it is put behind `pre`, and not before. */
  predicate StartsAt(pre: string, k: Kind) {
    Find(pre + k.start, k.start, 0) == |pre|
  }

  lemma SyncWrites(k: Kind, t: string, b: string)
    requires Writes(k, t)
    ensures Sync(k, t, b).Ok? && Sync(k, t, b).value == Pre(k, t) + b + Post(k, t)
  {
    hide Find;
    if !Occurs(t, k.start) { InsertSplits(k.place, t, b); }
  }

  lemma PreStarts(k: Kind, t: string)
    requires ValidKind(k) && Writes(k, t)
    ensures StartsAt(Pre(k, t), k)
  {
    hide Find;
    var m := k.start;
    assert At(m, m, 0);
    FindIs(m, m, 0, 0);
    assert m + "" == m;
    if Occurs(t, m) { NoEarlierStart(t, k, m, ""); } else { BeforeIsSeamFree(k, t, m); }
    FindPast(Pre(k, t), m, m);
  }

  lemma StartsSeamFree(pre: string, k: Kind, b: string, post: string)
    requires StartsAt(pre, k) && WellFormed(k, b)
    ensures SeamFree(pre, b + post, k.start)
  {
    hide Find;
    FindLeftmost(b, k.start, 0);
    var more := b[|k.start|..] + post;
    assert b == k.start + b[|k.start|..];
    FindStable(pre + k.start, more, k.start, 0);
    assert pre + k.start + more == pre + (b + post);
  }

  // ----- only one text can come out the same around every block -----

  function Other(c: char): char {
    if c == 'x' then 'y' else 'x'
  }

  lemma ShorterDiffers(l: string, r: string, pre: string, post: string)
    requires |l| < |pre|
    ensures exists b :: l + b + r != pre + b + post
  {
    var c := Other(pre[|l|]);
    assert (l + [c] + r)[|l|] == c && (pre + [c] + post)[|l|] == pre[|l|];
  }

  lemma Pinned(l: string, r: string, pre: string, post: string)
    requires forall b :: l + b + r == pre + b + post
    ensures l == pre && r == post
  {
    assert l + "" + r == pre + "" + post;
    if |l| < |pre| { ShorterDiffers(l, r, pre, post); }
    if |pre| < |l| { ShorterDiffers(pre, post, l, r); }
    assert (l + "" + r)[|l|..] == r && (pre + "" + post)[|pre|..] == post;
    assert (l + "" + r)[..|l|] == l && (pre + "" + post)[..|pre|] == pre;
  }

  ghost predicate Always(k: Kind, v: string, pre: string, post: string) {
    forall b :: Sync(k, v, b).Ok? && Sync(k, v, b).value == pre + b + post
  }

  /** A text that any block goes into between `pre` and `post` has them around its first START. */
  lemma AlwaysSplits(k: Kind, v: string, pre: string, post: string)
    requires Always(k, v, pre, post)
    ensures Writes(k, v) && Pre(k, v) == pre && Post(k, v) == post
  {
    hide Find, InsertAt, SubFirst, Closed, Pre, Post, Before, After;
    assert Sync(k, v, "").Ok? && Sync(k, v, "x").Ok?;
    assert |pre + "x" + post| == |pre + "" + post| + 1;
    if !Writes(k, v) {
      StaysOrFails(k, v);
    } else {
      forall b ensures Pre(k, v) + b + Post(k, v) == pre + b + post { SyncWrites(k, v, b); }
      Pinned(Pre(k, v), Post(k, v), pre, post);
    }
  }

  lemma StaysOrFails(k: Kind, v: string)
    requires !Writes(k, v)
    ensures forall b :: Sync(k, v, b).Err? || Sync(k, v, b).value == v
  {
    hide Find;
  }

  // ----- the rename -----

  /** A phrase that does not reach into a marker from outside, and is not renamed to itself. */
  predicate Phrase(r: Rename) {
    r.Rename? && r.before != "" && r.before != r.after && '<' !in r.before && '<' !in r.after
  }

  lemma RenamedAt(r: Rename, t: string, i: nat)
    requires r.Rename? && Find(t, r.before, 0) == i
    ensures Renamed(r, t) == t[..i] + r.after + t[i + |r.before|..]
    ensures t == t[..i] + r.before + t[i + |r.before|..]
  {
    hide Find;
    FindLeftmost(t, r.before, 0);
    assert t[i..i + |r.before|] == r.before;
  }

  lemma RenamedDiffers(r: Rename, t: string)
    requires r.Rename? && r.before != r.after && Occurs(t, r.before)
    ensures Renamed(r, t) != t
  {
    hide Find;
    var i := Find(t, r.before, 0);
    RenamedAt(r, t, i);
    assert |Renamed(r, t)| == |t| + |r.after| - |r.before|;
    assert Renamed(r, t)[i..i + |r.after|] == r.after && t[i..i + |r.before|] == r.before;
  }

  /** Behind a prefix in which the phrase does not begin, renaming is renaming what follows. */
  lemma RenamedBehind(r: Rename, a: string, t: string)
    requires r.Rename? && (Find(a + t, r.before, 0) == -1 || |a| <= Find(a + t, r.before, 0))
    ensures Renamed(r, a + t) == a + Renamed(r, t)
    ensures Find(a + t, r.before, 0) == if Find(t, r.before, 0) == -1 then -1 else |a| + Find(t, r.before, 0)
  {
    hide Find;
    FindPast(a, t, r.before);
    var i := Find(t, r.before, 0);
    if i != -1 {
      RenamedAt(r, a + t, |a| + i);
      assert (a + t)[..|a| + i] == a + t[..i] && (a + t)[|a| + i + |r.before|..] == t[i + |r.before|..];
    }
  }

  lemma RenamedInFront(r: Rename, t: string, z: string)
    requires r.Rename? && 0 <= Find(t + z, r.before, 0) && Find(t + z, r.before, 0) + |r.before| <= |t|
    ensures Renamed(r, t + z) == Renamed(r, t) + z && Find(t, r.before, 0) == Find(t + z, r.before, 0)
  {
    hide Find, Renamed;
    var i := Find(t + z, r.before, 0);
    FirstInPrefix(t + z, r.before, |t|);
    assert (t + z)[..|t|] == t;
    RenamedAt(r, t, i);
    RenamedAt(r, t + z, i);
    assert (t + z)[..i] == t[..i] && (t + z)[i + |r.before|..] == t[i + |r.before|..] + z;
  }

  /** The first occurrence that a pass leaves stands in its block, which is still one afterwards;
      or there is none. */
  predicate Harmless(k: Kind, r: Rename, pre: string, b: string, post: string)
    requires r.Rename?
  {
    var i := Find(pre + b + post, r.before, 0);
    i == -1 || (|pre| <= i && i + |r.before| <= |pre| + |b| && WellFormed(k, Renamed(r, b)))
  }

  lemma HarmlessIsUnseen(k: Kind, r: Rename, pre: string, b: string, post: string)
    requires r.Rename? && WellFormed(k, b) && StartsAt(pre, k) && Harmless(k, r, pre, b, post)
    ensures Always(k, Renamed(r, pre + b + post), pre, post)
  {
    hide Find, WellFormed, Renamed;
    var b1 := if Find(pre + b + post, r.before, 0) == -1 then b else Renamed(r, b);
    if Find(pre + b + post, r.before, 0) == -1 { LacksStays(r, pre + b + post); }
    assert pre + b + post == pre + (b + post);
    if Find(pre + b + post, r.before, 0) != -1 {
      RenamedBehind(r, pre, b + post);
      RenamedInFront(r, b, post);
    }
    assert Renamed(r, pre + b + post) == pre + b1 + post;
    StartsSeamFree(pre, k, b1, post);
    forall b' ensures Sync(k, pre + b1 + post, b').Ok? && Sync(k, pre + b1 + post, b').value == pre + b' + post {
      SubAt(pre, b1, post, k, b');
    }
  }

  // ----- conversely, by where the phrase stands -----

  lemma HeadOfBlock(k: Kind, b: string)
    requires BracketedKind(k) && WellFormed(k, b)
    ensures |b| >= |k.start| + |k.end| && b[0] == '<' && b[|b| - |k.end|] == '<' && b[..|k.start|] == k.start
    ensures b[|b| - |k.end|..] == k.end
  {
    hide Find;
    FindLeftmost(b, k.start, 0);
    FindLeftmost(b, k.end, |k.start|);
  }

  lemma NotAcross(t: string, m: string, i: nat, n: nat)
    requires At(t, m, i) && n < |t| && t[n] !in m
    ensures n < i || i + |m| <= n
  {
    if i <= n < i + |m| { CharInside(t, m, i, n); }
  }

  /** What stands behind a replaced word moves with it. */
  lemma Moved(x: string, p: string, a: string, y: string, m: string, n: nat)
    ensures At(x + p + y, m, |x| + |p| + n) == At(x + a + y, m, |x| + |a| + n)
  {
    hide At;
    AtRight(x + p, y, m, n);
    AtRight(x + a, y, m, n);
  }

  lemma BlockStarts(k: Kind, pre: string, b: string, post: string)
    requires StartsAt(pre, k) && WellFormed(k, b)
    ensures Find(pre + b + post, k.start, 0) == |pre|
  {
    hide Find, WellFormed;
    StartsSeamFree(pre, k, b, post);
    BlockFound(pre, b, post, k);
  }

  /** When the phrase is in front of the block, renaming it moves the START or changes what is in
      front of it. */
  lemma StartMoves(k: Kind, r: Rename, pre: string, b: string, post: string, i: nat)
    requires BracketedKind(k) && Phrase(r) && WellFormed(k, b) && StartsAt(pre, k)
    requires Find(pre + b + post, r.before, 0) == i && i + |r.before| <= |pre|
    ensures var v := Renamed(r, pre + b + post); Occurs(v, k.start) && v[..Find(v, k.start, 0)] != pre
  {
    hide Find, WellFormed, At, Renamed, Bracketed;
    var u := pre + b + post;
    var x, y := u[..i], u[i + |r.before|..];
    BracketedIsValid(k);
    RenamedAt(r, u, i);
    BlockStarts(k, pre, b, post);
    assert x + r.before == pre[..i + |r.before|];
    WordMoves(r, x, y, k.start, pre);
  }

  lemma WordMoves(r: Rename, x: string, y: string, m: string, pre: string)
    requires Phrase(r) && m != "" && m[0] == '<' && x + r.before <= pre
    requires Find(x + r.before + y, m, 0) == |pre|
    ensures var v := x + r.after + y; Occurs(v, m) && v[..Find(v, m, 0)] != pre
  {
    hide Find, At;
    var p, a := r.before, r.after;
    var u, v := x + p + y, x + a + y;
    var n := |pre| - |x| - |p|;
    FindLeftmost(u, m, 0);
    FindLeftmost(v, m, 0);
    Moved(x, p, a, y, m, n);
    var s := Find(v, m, 0);
    AtBegins(v, m, s);
    assert forall j :: |x| <= j < |x| + |a| ==> v[j] == a[j - |x|] && a[j - |x|] in a;
    assert pre[..|x| + |p|] == x + p && v[..|x| + |a|] == x + a;
    assert |a| == |p| ==> (x + a)[|x|..] == a && (x + p)[|x|..] == p;
    if s >= |x| + |a| { Moved(x, p, a, y, m, s - |x| - |a|); }
    assert |x| + |a| <= s ==> v[..s][..|x| + |a|] == v[..|x| + |a|];
  }

  lemma AtBegins(t: string, m: string, i: nat)
    requires At(t, m, i) && m != ""
    ensures i < |t| && t[i] == m[0]
  {
    assert t[i..i + |m|][0] == t[i];
  }

  lemma SeenInFront(k: Kind, r: Rename, pre: string, b: string, post: string, i: nat)
    requires BracketedKind(k) && Phrase(r) && WellFormed(k, b) && StartsAt(pre, k)
    requires Find(pre + b + post, r.before, 0) == i && i < |pre|
    ensures !Always(k, Renamed(r, pre + b + post), pre, post)
  {
    hide Find, WellFormed, Always, Bracketed, Closed, Renamed;
    var u := pre + b + post;
    BracketedIsValid(k);
    HeadOfBlock(k, b);
    FindLeftmost(u, r.before, 0);
    assert |b| > 0 && u[|pre|] == b[0];
    NotAcross(u, r.before, i, |pre|);
    StartMoves(k, r, pre, b, post, i);
    if Always(k, Renamed(r, u), pre, post) { AlwaysSplits(k, Renamed(r, u), pre, post); }
  }

  lemma InsertLength(k: Kind, t: string)
    requires Writes(k, t) && k.place == AfterFirstLine
    ensures !Occurs(t, k.start) ==> |Pre(k, t)| + |Post(k, t)| == |t| + 2
  {
    hide Find;
  }

  /** What such a text has behind `pre`. */
  lemma BehindPins(k: Kind, pre: string, w: string, post: string) returns (q: nat)
    requires k.place == AfterFirstLine && k.start != "" && Always(k, pre + w, pre, post)
    requires Occurs(pre + w, k.start) || |post| <= |w|
    ensures At(w, k.start, 0) && Find(w, k.end, |k.start|) == q && q >= |k.start|
    ensures q + |k.end| <= |w| && w[q + |k.end|..] == post
  {
    hide Find, Always;
    var v := pre + w;
    AlwaysSplits(k, v, pre, post);
    InsertLength(k, v);
    var s := Find(v, k.start, 0);
    assert |v[..s]| == |pre|;
    FindLeftmost(v, k.start, 0);
    AtRight(pre, w, k.start, 0);
    FindShift(pre, w, k.end, |k.start|);
    q := Find(w, k.end, |k.start|);
    assert v[|pre| + q + |k.end|..] == w[q + |k.end|..];
  }

  /** Behind the block: what follows it differs. */
  lemma SeenBehind(k: Kind, r: Rename, pre: string, b: string, post: string)
    requires k.place == AfterFirstLine && k.start != "" && Phrase(r) && WellFormed(k, b)
    requires Occurs(post, r.before) && StartsAt(pre, k)
    ensures !Always(k, pre + (b + Renamed(r, post)), pre, post)
  {
    hide Find, WellFormed, Always, Renamed;
    var z := Renamed(r, post);
    if Always(k, pre + (b + z), pre, post) {
      BlockStarts(k, pre, b, z);
      assert pre + b + z == pre + (b + z);
      var q := BehindPins(k, pre, b + z, post);
      EndStays(k, b, z);
      assert (b + z)[|b|..] == z;
      RenamedDiffers(r, post);
    }
  }

  lemma EndStays(k: Kind, b: string, z: string)
    requires WellFormed(k, b)
    ensures Find(b + z, k.end, |k.start|) == |b| - |k.end|
  {
    hide Find;
    FindStable(b, z, k.end, |k.start|);
  }

  /** Inside the block: what the rename makes of it has to be a block. */
  lemma InsideStays(k: Kind, pre: string, b1: string, post: string)
    requires k.place == AfterFirstLine && k.start != "" && Always(k, pre + (b1 + post), pre, post)
    ensures WellFormed(k, b1)
  {
    hide Find, Always;
    var w := b1 + post;
    var q := BehindPins(k, pre, w, post);
    assert q + |k.end| == |b1| && w[0..|b1|] == b1;
    AtLeft(b1, post, k.start, 0);
    FindIs(b1, k.start, 0, 0);
    FindFirstIn(w, 0, |b1|, k.end, |k.start|, q);
  }

  /** Across the end of the block: its END is no longer what closes it. */
  lemma SeenAcrossEnd(k: Kind, r: Rename, pre: string, b: string, post: string, x: nat)
    requires BracketedKind(k) && k.place == AfterFirstLine && Phrase(r) && WellFormed(k, b) && StartsAt(pre, k)
    requires Find(b + post, r.before, 0) == x && x < |b| < x + |r.before|
    ensures !Always(k, pre + Renamed(r, b + post), pre, post)
  {
    hide Find, WellFormed, Always, Renamed, Bracketed, At;
    var w, z := Renamed(r, b + post), post[x + |r.before| - |b|..];
    BracketedIsValid(k);
    AcrossEnd(k, r, b, post, x);
    if Always(k, pre + w, pre, post) {
      AtRight(pre, w, k.start, 0);
      FindLeftmost(pre + w, k.start, 0);
      var q := BehindPins(k, pre, w, post);
      FindLeftmost(w, k.end, |k.start|);
      EndOnlyThere(k, r, b, x, w, z, q);
      SameEnd(k, r, b, post, x, w, z);
    }
  }

  lemma AcrossEnd(k: Kind, r: Rename, b: string, post: string, x: nat)
    requires BracketedKind(k) && Phrase(r) && WellFormed(k, b)
    requires Find(b + post, r.before, 0) == x && x < |b| < x + |r.before|
    ensures x + |r.before| <= |b + post| && At(b + post, r.before, x) && |b| - |k.end| < x
    ensures var w := Renamed(r, b + post);
      w == b[..x] + r.after + post[x + |r.before| - |b|..] && At(w, k.start, 0)
  {
    hide Find, WellFormed, Renamed;
    RenamedAt(r, b + post, x);
    HeadOfBlock(k, b);
    var n := |b| - |k.end|;
    FindLeftmost(b + post, r.before, 0);
    assert (b + post)[n] == b[n];
    NotAcross(b + post, r.before, x, n);
    assert (b + post)[..x] == b[..x] && (b + post)[x + |r.before|..] == post[x + |r.before| - |b|..];
    assert b[..x][..|k.start|] == b[..|k.start|];
  }

  lemma SameEnd(k: Kind, r: Rename, b: string, post: string, x: nat, w: string, z: string)
    requires BracketedKind(k) && WellFormed(k, b) && r.Rename?
    requires |b| - |k.end| < x < |b| < x + |r.before| <= |b + post| && At(b + post, r.before, x)
    requires z == post[x + |r.before| - |b|..] && w == b[..x] + r.after + z && At(w, k.end, |b| - |k.end|)
    requires w[|b|..] == post
    ensures r.before == r.after
  {
    hide Find, WellFormed;
    HeadOfBlock(k, b);
    var n := |b| - |k.end|;
    assert w[n..|b|] == k.end == b[n..];
    assert w[x..|b|] == w[n..|b|][x - n..] && b[x..] == b[n..][x - n..];
    SamePhrase(b, post, x, w, r.after, r.before);
  }

  lemma EndOnlyThere(k: Kind, r: Rename, b: string, x: nat, w: string, z: string, q: nat)
    requires BracketedKind(k) && Phrase(r) && WellFormed(k, b) && |b| - |k.end| < x < |b|
    requires w == b[..x] + r.after + z && At(w, k.end, q) && |k.start| <= q && q + |k.end| < x + |r.after|
    ensures q == |b| - |k.end|
  {
    hide Find, WellFormed, At;
    HeadOfBlock(k, b);
    var n, a := |b| - |k.end|, r.after;
    AtBegins(w, k.end, q);
    assert forall j :: x <= j < x + |a| ==> w[j] == a[j - x] && a[j - x] in a;
    assert w[..x] == b[..x];
    assert forall j :: 0 <= j < x ==> w[j] == w[..x][j] == b[j];
    assert forall j :: n < j < |b| ==> b[j] == k.end[j - n] == k.end[1..][j - n - 1];
    if q < n { NoEndBefore(k, b, x, w, q); }
  }

  lemma NoEndBefore(k: Kind, b: string, x: nat, w: string, q: nat)
    requires BracketedKind(k) && WellFormed(k, b) && |b| - |k.end| < x < |b| && x <= |w| && w[..x] == b[..x]
    requires |k.start| <= q < |b| - |k.end|
    ensures !At(w, k.end, q)
  {
    hide Find, WellFormed, At;
    var n := |b| - |k.end|;
    EndStays(k, b, "");
    assert b + "" == b;
    FindLeftmost(b, k.end, |k.start|);
    HeadOfBlock(k, b);
    assert w[n] == w[..x][n] == b[..x][n] == b[n] == '<';
    if q + |k.end| <= n {
      assert b[..x] + b[x..] == b && w[..x] + w[x..] == w;
      AtLeft(b[..x], b[x..], k.end, q);
      AtLeft(w[..x], w[x..], k.end, q);
    } else if At(w, k.end, q) {
      CharBehindHead(w, k.end, q, n);
    }
  }

  lemma SamePhrase(b: string, post: string, x: nat, w: string, a: string, p: string)
    requires x < |b| < x + |p| <= |b + post| && At(b + post, p, x)
    requires w == b[..x] + a + post[x + |p| - |b|..] && |a| == |p|
    requires w[x..|b|] == b[x..] && w[|b|..] == post
    ensures a == p
  {
    var m, y := |b| - x, x + |p| - |b|;
    assert w[x..|b|] == a[..m];
    assert w[|b|..] == a[m..] + post[y..];
    assert p == (b + post)[x..x + |p|] == b[x..] + post[..y];
    assert post == post[..y] + post[y..];
    assert a[m..] == (a[m..] + post[y..])[..y] == post[..y];
    assert a == a[..m] + a[m..];
  }

  // ----- main results -----

  /** Exactly when the text around the block comes out the same after one more rename. */
  lemma HarmlessExactly(k: Kind, r: Rename, pre: string, b: string, post: string)
    requires BracketedKind(k) && k.place == AfterFirstLine && Phrase(r) && WellFormed(k, b) && StartsAt(pre, k)
    ensures Harmless(k, r, pre, b, post) <==> Always(k, Renamed(r, pre + b + post), pre, post)
  {
    hide Find, WellFormed, Always, Renamed, Bracketed;
    BracketedIsValid(k);
    var u := pre + b + post;
    var i := Find(u, r.before, 0);
    assert u == pre + (b + post);
    if Harmless(k, r, pre, b, post) {
      HarmlessIsUnseen(k, r, pre, b, post);
    } else if i < |pre| {
      SeenInFront(k, r, pre, b, post, i);
    } else {
      RenamedBehind(r, pre, b + post);
      var x := i - |pre|;
      if |b| <= x {
        RenamedBehind(r, b, post);
        SeenBehind(k, r, pre, b, post);
      } else if |b| < x + |r.before| {
        SeenAcrossEnd(k, r, pre, b, post, x);
      } else {
        RenamedInFront(r, b, post);
        if Always(k, Renamed(r, u), pre, post) { InsideStays(k, pre, Renamed(r, b), post); }
      }
    }
  }

  /** What a pass leaves of the phrase, outside the block it writes: nothing that a second pass
      would rename first. */
  predicate Spent(k: Kind, r: Rename, t: string, b: string) {
    r.Rename? ==>
      var t1 := Renamed(r, t);
      if Writes(k, t1) then Harmless(k, r, Pre(k, t1), b, Post(k, t1)) else !Occurs(t1, r.before)
  }

  /** The same, said of the parts: none in front of the block, and either one in the block, which is
      still a block with it renamed, or none from there on. */
  predicate HarmlessParts(k: Kind, r: Rename, pre: string, b: string, post: string)
    requires r.Rename?
  {
    && !Occurs(pre, r.before)
    && if Occurs(b, r.before) then WellFormed(k, Renamed(r, b)) else !Occurs(b + post, r.before)
  }

  predicate SpentInParts(k: Kind, r: Rename, t: string, b: string) {
    r.Rename? ==>
      var t1 := Renamed(r, t);
      if Writes(k, t1) then HarmlessParts(k, r, Pre(k, t1), b, Post(k, t1)) else !Occurs(t1, r.before)
  }

  lemma HarmlessInParts(k: Kind, r: Rename, pre: string, b: string, post: string)
    requires BracketedKind(k) && Phrase(r) && WellFormed(k, b)
    ensures Harmless(k, r, pre, b, post) <==> HarmlessParts(k, r, pre, b, post)
  {
    hide Find, WellFormed, Renamed, Bracketed;
    var p := r.before;
    BracketedIsValid(k);
    HeadOfBlock(k, b);
    assert pre + b + post == pre + (b + post) && (b + post)[0] == b[0];
    if Occurs(pre, p) {
      FindStable(pre, b + post, p, 0);
    } else {
      FindPastCut(pre, b + post, p, 0);
      if Occurs(b, p) { FindStable(b, post, p, 0); } else { NotWithin(b, post, p); }
    }
  }

  lemma NotWithin(b: string, post: string, p: string)
    requires !Occurs(b, p)
    ensures Occurs(b + post, p) ==> |b| < Find(b + post, p, 0) + |p|
  {
    hide Find;
    FindLeftmost(b, p, 0);
    FindLeftmost(b + post, p, 0);
    var i := Find(b + post, p, 0);
    if i != -1 && i + |p| <= |b| { AtLeft(b, post, p, i); }
  }

  lemma SpentIsUnseen(k: Kind, r: Rename, t: string, b: string)
    requires ValidKind(k) && WellFormed(k, b) && Spent(k, r, t, b) && Revise(k, r, t, b).Ok?
    ensures Alike(k, r, Revise(k, r, t, b).value, t)
  {
    hide Find, WellFormed, Renamed, Pre, Post, Harmless, Sync;
    var t1 := Renamed(r, t);
    if r.Keep? {
      forall b' ensures Revise(k, r, Revise(k, r, t, b).value, b') == Revise(k, r, t, b') {
        KeepsText(t);
        KeepsText(Revise(k, r, t, b).value);
        LastWriterWins(k, t, b, b');
      }
    } else if Writes(k, t1) {
      PreStarts(k, t1);
      SyncWrites(k, t1, b);
      HarmlessIsUnseen(k, r, Pre(k, t1), b, Post(k, t1));
      AlwaysIsAlike(k, r, t, Pre(k, t1) + b + Post(k, t1));
    } else {
      StaysOrFails(k, t1);
      LacksStays(r, t1);
    }
  }

  lemma KeepsText(t: string)
    ensures Renamed(Keep, t) == t
  {}

  lemma LacksStays(r: Rename, t: string)
    requires r.Rename? && !Occurs(t, r.before)
    ensures Renamed(r, t) == t
  {}

  lemma AlwaysIsAlike(k: Kind, r: Rename, t: string, u: string)
    requires Writes(k, Renamed(r, t))
    ensures Always(k, Renamed(r, u), Pre(k, Renamed(r, t)), Post(k, Renamed(r, t))) <==> Alike(k, r, u, t)
  {
    hide Find, Renamed, Sync, Pre, Post, Writes;
    var t1 := Renamed(r, t);
    forall b ensures Sync(k, t1, b).Ok? && Sync(k, t1, b).value == Pre(k, t1) + b + Post(k, t1) {
      SyncWrites(k, t1, b);
    }
    if Alike(k, r, u, t) {
      forall b ensures Sync(k, Renamed(r, u), b) == Sync(k, t1, b) { AlikeSays(k, r, u, t, b); }
    }
  }

  lemma AlikeSays(k: Kind, r: Rename, t: string, t0: string, b: string)
    requires Alike(k, r, t, t0)
    ensures Revise(k, r, t, b) == Revise(k, r, t0, b)
  {}

  /** Exactly when no later update can tell that there was a first pass. */
  lemma RevisionUnseenExactly(k: Kind, r: Rename, t: string, b: string)
    requires BracketedKind(k) && k.place == AfterFirstLine && WellFormed(k, b)
    requires (r.Rename? ==> Phrase(r)) && Revise(k, r, t, b).Ok?
    ensures Alike(k, r, Revise(k, r, t, b).value, t) <==> Spent(k, r, t, b)
    ensures Spent(k, r, t, b) <==> SpentInParts(k, r, t, b)
  {
    hide Find, WellFormed, Renamed, Pre, Post, Harmless, HarmlessParts, Sync, Bracketed;
    BracketedIsValid(k);
    var t1 := Renamed(r, t);
    if r.Rename? { HarmlessInParts(k, r, Pre(k, t1), b, Post(k, t1)); }
    if Spent(k, r, t, b) {
      SpentIsUnseen(k, r, t, b);
    } else if Writes(k, t1) {
      PreStarts(k, t1);
      SyncWrites(k, t1, b);
      HarmlessExactly(k, r, Pre(k, t1), b, Post(k, t1));
      AlwaysIsAlike(k, r, t, Pre(k, t1) + b + Post(k, t1));
    } else {
      OpenIsSeen(k, r, t, b);
    }
  }

  lemma OpenIsSeen(k: Kind, r: Rename, t: string, b: string)
    requires Phrase(r) && !Writes(k, Renamed(r, t)) && Occurs(Renamed(r, t), r.before) && Revise(k, r, t, b).Ok?
    ensures !Alike(k, r, Revise(k, r, t, b).value, t)
  {
    hide Find, Renamed, Pre, Post, Sync, Writes;
    var t1 := Renamed(r, t);
    StaysOrFails(k, t1);
    OpenAlways(k, t1, b);
    RenamedDiffers(r, t1);
    var v := Renamed(r, t1);
    if Alike(k, r, t1, t) {
      forall b' ensures Sync(k, v, b') == Ok(t1) { AlikeSays(k, r, t1, t, b'); OpenAlways(k, t1, b); }
      if Writes(k, v) { Varies(k, v); } else { StaysOrFails(k, v); }
    }
  }

  lemma Varies(k: Kind, t: string)
    requires Writes(k, t)
    ensures Sync(k, t, "") != Sync(k, t, "x")
  {
    hide Find, Pre, Post, Sync, Writes;
    SyncWrites(k, t, "");
    SyncWrites(k, t, "x");
    assert |Pre(k, t) + "x" + Post(k, t)| == |Pre(k, t) + "" + Post(k, t)| + 1;
  }

  lemma OpenAlways(k: Kind, t: string, b: string)
    requires !Writes(k, t) && Sync(k, t, b).Ok?
    ensures forall b' :: Sync(k, t, b') == Ok(t)
  {
    hide Find;
  }

  /** In particular a phrase that stands twice in the first line, whatever it is: the second pass
      renames it once more. */
  lemma TwiceIsSeen(k: Kind, r: Rename, x: string, y: string, z: string, rest: string, b: string)
    requires BracketedKind(k) && k.place == AfterFirstLine && WellFormed(k, b) && Phrase(r)
    requires '\n' !in x + r.before + r.after + y + z
    requires var t := x + r.before + (y + r.before + z) + "\n" + rest;
      Find(t, r.before, 0) == |x| && !Occurs(Renamed(r, t), k.start)
    ensures var t := x + r.before + (y + r.before + z) + "\n" + rest;
      Revise(k, r, t, b).Ok? && !Alike(k, r, Revise(k, r, t, b).value, t)
  {
    hide Find, WellFormed, Renamed, Pre, Post, Sync, Bracketed;
    var t, h := x + r.before + (y + r.before + z) + "\n" + rest, x + r.after + (y + r.before + z);
    TwiceRenamed(r, x, y, z, rest);
    var t1 := Renamed(r, t);
    FirstNewline(h, rest);
    PreIsFirstLine(k, h, rest);
    SyncWrites(k, t1, b);
    assert h + "\n\n" == x + r.after + y + r.before + (z + "\n\n");
    PhraseInside(x + r.after + y, r.before, z + "\n\n" + b + Post(k, t1));
    assert Pre(k, t1) + b + Post(k, t1) == x + r.after + y + r.before + (z + "\n\n" + b + Post(k, t1));
    RevisionUnseenExactly(k, r, t, b);
  }

  lemma TwiceRenamed(r: Rename, x: string, y: string, z: string, rest: string)
    requires r.Rename? && Find(x + r.before + (y + r.before + z) + "\n" + rest, r.before, 0) == |x|
    ensures Renamed(r, x + r.before + (y + r.before + z) + "\n" + rest)
         == x + r.after + (y + r.before + z) + "\n" + rest
  {
    hide Find, Renamed;
    var t := x + r.before + (y + r.before + z) + "\n" + rest;
    RenamedAt(r, t, |x|);
    assert t[..|x|] == x && t[|x| + |r.before|..] == (y + r.before + z) + "\n" + rest;
  }

  lemma PreIsFirstLine(k: Kind, h: string, rest: string)
    requires k.place == AfterFirstLine && !Occurs(h + "\n" + rest, k.start) && Find(h + "\n" + rest, "\n", 0) == |h|
    ensures Writes(k, h + "\n" + rest) && Pre(k, h + "\n" + rest) == h + "\n\n"
  {
    hide Find;
  }

  lemma PhraseInside(a: string, m: string, c: string)
    ensures 0 <= Find(a + m + c, m, 0) <= |a|
  {
    hide Find;
    FindLeftmost(a + m + c, m, 0);
    assert (a + m + c)[|a|..|a| + |m|] == m;
    assert At(a + m + c, m, |a|);
  }
}
