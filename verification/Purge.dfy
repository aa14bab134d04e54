/** The other way of keeping one current block: delete every block of the kind, then prepend
    the new one (p16_repair_evidence/sync_docs.py). */
module Purge {
  import opened Text
  import opened Markers
  import opened Spans

  function EndOfFirst(t: string, k: Kind): nat
    requires Closed(t, k)
  {
    Find(t, k.end, Find(t, k.start, 0) + |k.start|) + |k.end|
  }

  /** What follows the first block, behind the white space that `\s*` takes with it. */
  function BehindFirst(t: string, k: Kind): string
    requires Closed(t, k)
  {
    LStrip(t[EndOfFirst(t, k)..])
  }

  /** `re.sub('START.*?END\s*', '', t, flags=re.S)`: one pass from left to right, so a START that
      arises where a block has been cut out is not looked at again. */
  function DeleteAll(t: string, k: Kind): (r: string)
    requires k.start != ""
    ensures |r| <= |t|
    decreases |t|
  {
    if !Closed(t, k) then t else t[..Find(t, k.start, 0)] + DeleteAll(BehindFirst(t, k), k)
  }

  function Renew(t: string, k: Kind, b: string): string
    requires k.start != ""
  {
    b + "\n\n" + DeleteAll(t, k)
  }

  /** Several runs of the script, the newest block last. */
  function RenewAll(t: string, k: Kind, bs: seq<string>): string
    requires k.start != ""
  {
    if bs == [] then t else Renew(RenewAll(t, k, bs[..|bs| - 1]), k, bs[|bs| - 1])
  }

  // ----- one deletion -----

  lemma DeletionShortens(t: string, k: Kind)
    requires k.start != ""
    ensures |DeleteAll(t, k)| == |t| ==> !Closed(t, k)
  {}

  lemma LStripNewlines(r: string)
    ensures LStrip("\n\n" + r) == LStrip(r)
  {
    assert ("\n\n" + r)[1..] == "\n" + r && ("\n" + r)[1..] == r;
    assert ("\n\n" + r)[0] == '\n' == ("\n" + r)[0];
  }

  lemma DeleteFound(t: string, k: Kind, p: nat, q: nat)
    requires k.start != "" && Find(t, k.start, 0) == p && Find(t, k.end, p + |k.start|) == q
    ensures DeleteAll(t, k) == t[..p] + DeleteAll(LStrip(t[q + |k.end|..]), k)
  {
    hide Find, LStrip;
    assert BehindFirst(t, k) == LStrip(t[q + |k.end|..]);
  }

  /** The block of the previous run goes, and all white space behind it. */
  lemma NewestIsDeleted(k: Kind, b: string, r: string)
    requires ValidKind(k) && WellFormed(k, b)
    ensures DeleteAll(b + "\n\n" + r, k) == DeleteAll(LStrip(r), k)
  {
    hide Find, DeleteAll;
    var t, post := b + "\n\n" + r, "\n\n" + r;
    assert t == "" + b + post && b + post == t && "" + t == t;
    FindStable(b, post, k.start, 0);
    BlockFound("", b, post, k);
    DeleteFound(t, k, 0, |b| - |k.end|);
    assert t[|b|..] == post && t[..0] == "";
    LStripNewlines(r);
    var x := DeleteAll(LStrip(r), k);
    assert "" + x == x;
  }

  lemma SuffixClosed(t: string, n: nat, k: Kind)
    requires k.start != "" && n <= |t| && Closed(t[n..], k)
    ensures Closed(t, k)
  {
    hide Find;
    var a, r := t[..n], t[n..];
    assert t == a + r;
    if !Occurs(t, k.start) { SuffixLacks(t, n, k.start); }
    FindShift(a, r, k.start, 0);
    var p, q := Find(r, k.start, 0), Find(r, k.end, Find(r, k.start, 0) + |k.start|);
    FindShift(a, r, k.end, p + |k.start|);
    StartNoLater(t, k.start, n);
    EndNoLater(t, k.end, Find(t, k.start, 0) + |k.start|, |a| + p + |k.start|);
  }

  lemma StartNoLater(t: string, m: string, n: nat)
    requires Find(t, m, n) != -1
    ensures 0 <= Find(t, m, 0) <= Find(t, m, n)
  {
    FindLeftmost(t, m, 0);
    FindLeftmost(t, m, n);
  }

  lemma EndNoLater(t: string, m: string, i: nat, j: nat)
    requires i <= j && Find(t, m, j) != -1
    ensures Find(t, m, i) != -1
  {
    FindLeftmost(t, m, i);
    FindLeftmost(t, m, j);
  }

  // ----- what a deletion keeps -----

  /** A stretch that stays, the closed block behind it, and the white space behind that. */
  datatype Part = Part(kept: string, block: string, space: string)

  function Whole(parts: seq<Part>, last: string): string {
    if parts == [] then last
    else parts[0].kept + parts[0].block + (parts[0].space + Whole(parts[1..], last))
  }

  function Kept(parts: seq<Part>, last: string): string {
    if parts == [] then last else parts[0].kept + Kept(parts[1..], last)
  }

  predicate BeginsBlank(t: string) {
    t != "" && IsSpace(t[0])
  }

  predicate GoodPart(p: Part, rest: string, k: Kind) {
    && Find(p.kept + k.start, k.start, 0) == |p.kept| && WellFormed(k, p.block)
    && Blank(p.space) && !BeginsBlank(rest)
  }

  /** A text cut at its closed blocks, from left to right. */
  predicate IsCut(parts: seq<Part>, last: string, k: Kind) {
    if parts == [] then !Closed(last, k)
    else GoodPart(parts[0], Whole(parts[1..], last), k) && IsCut(parts[1..], last, k)
  }

  /** The first part of a cut, read off the text. */
  function FirstPart(t: string, k: Kind): Part
    requires Closed(t, k)
  {
    var p, n := Find(t, k.start, 0), EndOfFirst(t, k);
    Part(t[..p], t[p..n], t[n..|t| - |BehindFirst(t, k)|])
  }

  function CutOf(t: string, k: Kind): (seq<Part>, string)
    requires k.start != ""
    decreases |t|
  {
    if !Closed(t, k) then ([], t)
    else
      var (parts, last) := CutOf(BehindFirst(t, k), k);
      ([FirstPart(t, k)] + parts, last)
  }

  lemma {:induction false} LStripBlank(space: string, r: string)
    requires Blank(space) && !BeginsBlank(r)
    ensures LStrip(space + r) == r
  {
    if space == "" {
      assert space + r == r;
    } else {
      assert (space + r)[1..] == space[1..] + r;
      LStripBlank(space[1..], r);
    }
  }

  lemma KeptIsSeamFree(p: Part, post: string, k: Kind)
    requires k.start != "" && Find(p.kept + k.start, k.start, 0) == |p.kept| && WellFormed(k, p.block)
    ensures SeamFree(p.kept, p.block + post, k.start)
  {
    hide Find;
    FindLeftmost(p.block, k.start, 0);
    var more := p.block[|k.start|..] + post;
    assert p.block == k.start + p.block[|k.start|..];
    FindStable(p.kept + k.start, more, k.start, 0);
    assert p.kept + k.start + more == p.kept + (p.block + post);
  }

  /** The first closed block of a text that begins with a good part. */
  lemma PartFound(p: Part, rest: string, k: Kind)
    requires k.start != "" && GoodPart(p, rest, k)
    ensures var t := p.kept + p.block + (p.space + rest);
      && Find(t, k.start, 0) == |p.kept| && Find(t, k.end, |p.kept| + |k.start|) == |p.kept| + |p.block| - |k.end|
      && Closed(t, k) && BehindFirst(t, k) == rest
  {
    hide Find, LStrip, WellFormed, BeginsBlank;
    var post := p.space + rest;
    KeptIsSeamFree(p, post, k);
    BlockFound(p.kept, p.block, post, k);
    BlockLonger(k, p.block);
    assert (p.kept + p.block + post)[|p.kept| + |p.block|..] == post;
    LStripBlank(p.space, rest);
  }

  lemma BlockLonger(k: Kind, b: string)
    requires WellFormed(k, b)
    ensures |k.start| + |k.end| <= |b|
  {}

  lemma DeletePart(p: Part, rest: string, k: Kind)
    requires k.start != "" && GoodPart(p, rest, k)
    ensures DeleteAll(p.kept + p.block + (p.space + rest), k) == p.kept + DeleteAll(rest, k)
  {
    hide Find, LStrip, GoodPart, BehindFirst;
    var t := p.kept + p.block + (p.space + rest);
    PartFound(p, rest, k);
    assert t[..|p.kept|] == p.kept;
  }

  /** What stays of a cut text: the stretches between the blocks, joined. */
  lemma {:induction false} DeletionKeeps(parts: seq<Part>, last: string, k: Kind)
    requires k.start != "" && IsCut(parts, last, k)
    ensures DeleteAll(Whole(parts, last), k) == Kept(parts, last)
    decreases |parts|
  {
    hide Find, GoodPart, DeleteAll;
    if parts == [] {
      UnclosedStays(last, k);
    } else {
      DeletePart(parts[0], Whole(parts[1..], last), k);
      DeletionKeeps(parts[1..], last, k);
    }
  }

  lemma UnclosedStays(t: string, k: Kind)
    requires k.start != "" && !Closed(t, k)
    ensures DeleteAll(t, k) == t
  {}

  lemma PrefixToBlock(t: string, k: Kind)
    requires k.start != "" && Closed(t, k)
    ensures var p, q := Find(t, k.start, 0), Find(t, k.end, Find(t, k.start, 0) + |k.start|);
      && Find(t[..p] + k.start, k.start, 0) == p && WellFormed(k, t[p..q + |k.end|])
  {
    hide Find;
    var p, q := Find(t, k.start, 0), Find(t, k.end, Find(t, k.start, 0) + |k.start|);
    var n := |k.start|;
    FindLeftmost(t, k.start, 0);
    FindLeftmost(t, k.end, p + n);
    FirstInPrefix(t, k.start, p + n);
    assert t[..p + n] == t[..p] + k.start;
    var b := t[p..q + |k.end|];
    assert At(b, k.start, 0) && At(b, k.end, q - p) by { BlockEnds(t, p, q, k); }
    FindIs(b, k.start, 0, 0);
    FindFirstIn(t, p, q + |k.end|, k.end, n, q - p);
  }

  lemma BlockEnds(t: string, p: nat, q: nat, k: Kind)
    requires At(t, k.start, p) && At(t, k.end, q) && p + |k.start| <= q
    ensures At(t[p..q + |k.end|], k.start, 0) && At(t[p..q + |k.end|], k.end, q - p)
  {
    var b := t[p..q + |k.end|];
    assert b[0..|k.start|] == t[p..p + |k.start|] && b[q - p..] == t[q..q + |k.end|];
  }

  lemma StrippedOff(t: string)
    ensures var space := t[..|t| - |LStrip(t)|];
      t == space + LStrip(t) && Blank(space) && !BeginsBlank(LStrip(t))
  {
    hide LStrip, IsSpace;
  }

  lemma FirstPartSpace(t: string, k: Kind)
    requires Closed(t, k)
    ensures Blank(FirstPart(t, k).space) && !BeginsBlank(BehindFirst(t, k))
    ensures FirstPart(t, k).space + BehindFirst(t, k) == t[EndOfFirst(t, k)..]
  {
    hide Find, LStrip, BeginsBlank, Blank;
    var n := EndOfFirst(t, k);
    StrippedOff(t[n..]);
    CutInThree(t, 0, n, |BehindFirst(t, k)|);
  }

  lemma FirstPartBlock(t: string, k: Kind)
    requires k.start != "" && Closed(t, k)
    ensures var p := FirstPart(t, k);
      && Find(p.kept + k.start, k.start, 0) == |p.kept| && WellFormed(k, p.block)
      && |k.start| <= EndOfFirst(t, k) <= |t| && p.kept + p.block == t[..EndOfFirst(t, k)]
  {
    hide Find, WellFormed, LStrip;
    PrefixToBlock(t, k);
    var p, n := Find(t, k.start, 0), EndOfFirst(t, k);
    assert t[..p] + t[p..n] == t[..n];
  }

  lemma FirstPartIsGood(t: string, k: Kind)
    requires k.start != "" && Closed(t, k)
    ensures GoodPart(FirstPart(t, k), BehindFirst(t, k), k)
    ensures var p := FirstPart(t, k); t == p.kept + p.block + (p.space + BehindFirst(t, k))
    ensures |BehindFirst(t, k)| < |t|
  {
    hide Find, WellFormed, BeginsBlank, Blank, BehindFirst, FirstPart, EndOfFirst, Closed;
    FirstPartBlock(t, k);
    FirstPartSpace(t, k);
    var p, n := FirstPart(t, k), EndOfFirst(t, k);
    assert t == t[..n] + t[n..];
    assert |p.space + BehindFirst(t, k)| == |t| - n;
  }

  lemma CutInThree(t: string, p: nat, n: nat, r: nat)
    requires p <= n <= |t| && r <= |t| - n
    ensures t == t[..p] + t[p..n] + (t[n..|t| - r] + t[|t| - r..])
    ensures t[n..][..|t| - n - r] == t[n..|t| - r] && t[n..][|t| - n - r..] == t[|t| - r..]
  {}

  lemma FirstPartOf(p: Part, rest: string, k: Kind)
    requires k.start != "" && GoodPart(p, rest, k)
    ensures var t := p.kept + p.block + (p.space + rest);
      Closed(t, k) && BehindFirst(t, k) == rest && FirstPart(t, k) == p
  {
    hide Find, WellFormed, LStrip, Closed, BehindFirst;
    var t := p.kept + p.block + (p.space + rest);
    PartFound(p, rest, k);
    var n := |p.kept| + |p.block|;
    assert t[..|p.kept|] == p.kept && t[|p.kept|..n] == p.block && t[n..|t| - |rest|] == p.space;
  }

  /** Every text has a cut. */
  lemma {:induction false} CutExists(t: string, k: Kind)
    requires k.start != ""
    ensures Whole(CutOf(t, k).0, CutOf(t, k).1) == t && IsCut(CutOf(t, k).0, CutOf(t, k).1, k)
    decreases |t|
  {
    hide Find, LStrip, GoodPart, FirstPart, Closed;
    if Closed(t, k) {
      var rest := BehindFirst(t, k);
      FirstPartIsGood(t, k);
      CutExists(rest, k);
      assert CutOf(t, k).0[1..] == CutOf(rest, k).0;
    }
  }

  /** And only one. */
  lemma {:induction false} CutUnique(parts: seq<Part>, last: string, k: Kind)
    requires k.start != "" && IsCut(parts, last, k)
    ensures CutOf(Whole(parts, last), k) == (parts, last)
    decreases |parts|
  {
    hide Find, LStrip, GoodPart, FirstPart, Closed;
    if parts != [] {
      FirstPartOf(parts[0], Whole(parts[1..], last), k);
      CutUnique(parts[1..], last, k);
      assert parts == [parts[0]] + parts[1..];
    }
  }

  // ----- what a deletion mends -----

  predicate Ends(a: string, x: string) {
    |x| <= |a| && a[|a| - |x|..] == x
  }

  /** `m` is put together where `a` and `r` meet. */
  predicate Across(a: string, r: string, m: string) {
    exists j :: 0 < j < |m| && Ends(a, m[..j]) && m[j..] <= r
  }

  /** And `e` stands behind it. */
  predicate AcrossBefore(a: string, r: string, m: string, e: string) {
    exists j :: 0 < j < |m| && Ends(a, m[..j]) && m[j..] <= r && Occurs(r[|m| - j..], e)
  }

  /** Some cut puts a START together, from the end of the stretch before it and what follows. */
  predicate Mends(parts: seq<Part>, last: string, k: Kind) {
    && parts != []
    && (Across(parts[0].kept, Kept(parts[1..], last), k.start) || Mends(parts[1..], last, k))
  }

  predicate MendsClosed(parts: seq<Part>, last: string, k: Kind) {
    && parts != []
    && (AcrossBefore(parts[0].kept, Kept(parts[1..], last), k.start, k.end) || MendsClosed(parts[1..], last, k))
  }

  lemma AcrossAt(a: string, r: string, m: string, i: nat)
    requires i < |a| < i + |m|
    ensures var j := |a| - i;
      At(a + r, m, i) <==> j <= |m| && Ends(a, m[..j]) && m[j..] <= r
  {
    var j := |a| - i;
    if At(a + r, m, i) {
      assert (a + r)[i..i + |m|] == a[i..] + r[..|m| - j];
    }
    if Ends(a, m[..j]) && m[j..] <= r {
      assert (a + r)[i..i + |m|] == a[i..] + r[..|m| - j] == m[..j] + m[j..] == m;
    }
  }

  lemma InTwo(a: string, r: string, m: string)
    requires m != "" && !Occurs(a, m)
    ensures Occurs(a + r, m) <==> Occurs(r, m) || Across(a, r, m)
  {
    hide Find, Ends;
    FindLeftmost(a + r, m, 0);
    FindLeftmost(a, m, 0);
    FindLeftmost(r, m, 0);
    var i := Find(a + r, m, 0);
    if i != -1 {
      if i + |m| <= |a| { AtLeft(a, r, m, i); }
      else if i < |a| { AcrossAt(a, r, m, i); }
      else { AtRight(a, r, m, i - |a|); }
    }
    if Occurs(r, m) { AtRight(a, r, m, Find(r, m, 0)); }
    if Across(a, r, m) {
      var j :| 0 < j < |m| && Ends(a, m[..j]) && m[j..] <= r;
      EndsFits(a, m[..j]);
      AcrossAt(a, r, m, |a| - j);
    }
  }

  lemma EndsFits(a: string, x: string)
    requires Ends(a, x)
    ensures |x| <= |a|
  {}

  lemma GoodPartLacks(p: Part, rest: string, k: Kind)
    requires k.start != "" && GoodPart(p, rest, k)
    ensures !Occurs(p.kept, k.start)
  {
    hide Find;
    if Occurs(p.kept, k.start) { FindStable(p.kept, k.start, k.start, 0); }
  }

  /** A START is left exactly when the last stretch has one, which is then unclosed, or a cut
      puts one together. */
  lemma {:induction false} StartLeftExactly(parts: seq<Part>, last: string, k: Kind)
    requires k.start != "" && IsCut(parts, last, k)
    ensures Occurs(Kept(parts, last), k.start) <==> Occurs(last, k.start) || Mends(parts, last, k)
    decreases |parts|
  {
    hide Occurs, GoodPart, Across;
    if parts != [] {
      GoodPartLacks(parts[0], Whole(parts[1..], last), k);
      StartLeftExactly(parts[1..], last, k);
      InTwo(parts[0].kept, Kept(parts[1..], last), k.start);
    }
  }

  lemma ClosedInTwo(a: string, r: string, k: Kind)
    requires k.start != "" && !Occurs(a, k.start)
    ensures Closed(a + r, k) <==> Closed(r, k) || AcrossBefore(a, r, k.start, k.end)
  {
    hide Find, Closed, Ends;
    if Closed(a + r, k) { ClosedFromTwo(a, r, k); }
    if Closed(r, k) {
      var i, j := ClosedSays(r, k);
      AtRight(a, r, k.start, i);
      AtRight(a, r, k.end, j);
      ClosedIf(a + r, k, |a| + i, |a| + j);
    }
    if AcrossBefore(a, r, k.start, k.end) { AcrossCloses(a, r, k); }
  }

  lemma AcrossCloses(a: string, r: string, k: Kind)
    requires AcrossBefore(a, r, k.start, k.end)
    ensures Closed(a + r, k)
  {
    hide Find, Closed, Ends, At, Occurs;
    var m, e := k.start, k.end;
    var j :| 0 < j < |m| && Ends(a, m[..j]) && m[j..] <= r && Occurs(r[|m| - j..], e);
    EndsFits(a, m[..j]);
    AcrossAt(a, r, m, |a| - j);
    var q := FoundBehind(a, r, |m| - j, e);
    ClosedIf(a + r, k, |a| - j, q);
  }

  lemma FoundBehind(a: string, r: string, n: nat, e: string) returns (q: nat)
    requires n <= |r| && Occurs(r[n..], e)
    ensures |a| + n <= q && At(a + r, e, q)
  {
    hide Find, At;
    FindLeftmost(r[n..], e, 0);
    q := Find(r[n..], e, 0);
    assert r == r[..n] + r[n..];
    AtRight(r[..n], r[n..], e, q);
    AtRight(a, r, e, n + q);
    q := |a| + n + q;
  }

  lemma ClosedFromTwo(a: string, r: string, k: Kind)
    requires k.start != "" && !Occurs(a, k.start) && Closed(a + r, k)
    ensures Closed(r, k) || AcrossBefore(a, r, k.start, k.end)
  {
    hide Find, Closed, Ends;
    var m, e := k.start, k.end;
    var i, q := ClosedSays(a + r, k);
    FindLeftmost(a, m, 0);
    if i >= |a| {
      AtRight(a, r, m, i - |a|);
      AtRight(a, r, e, q - |a|);
      ClosedIf(r, k, i - |a|, q - |a|);
    } else if i + |m| <= |a| {
      AtLeft(a, r, m, i);
    } else {
      AcrossAt(a, r, m, i);
      var n := |m| - (|a| - i);
      AtRight(a, r, e, q - |a|);
      assert r == r[..n] + r[n..];
      AtRight(r[..n], r[n..], e, q - |a| - n);
      FindLeftmost(r[n..], e, 0);
    }
  }

  /** A closed block is left exactly when a cut puts a START together that an END follows. */
  lemma {:induction false} ClosedLeftExactly(parts: seq<Part>, last: string, k: Kind)
    requires k.start != "" && IsCut(parts, last, k)
    ensures Closed(Kept(parts, last), k) <==> MendsClosed(parts, last, k)
    decreases |parts|
  {
    hide Occurs, Closed, GoodPart, AcrossBefore;
    if parts != [] {
      GoodPartLacks(parts[0], Whole(parts[1..], last), k);
      ClosedLeftExactly(parts[1..], last, k);
      ClosedInTwo(parts[0].kept, Kept(parts[1..], last), k);
    }
  }

  function FirstStretch(parts: seq<Part>, last: string): string {
    if parts == [] then last else parts[0].kept
  }

  lemma {:induction false} LeadingBlankExactly(parts: seq<Part>, last: string, k: Kind)
    requires k.start != "" && IsCut(parts, last, k)
    ensures BeginsBlank(Kept(parts, last)) <==> BeginsBlank(FirstStretch(parts, last))
    decreases |parts|
  {
    hide Find, Closed, WellFormed;
    if parts != [] && parts[0].kept == "" {
      var rest := parts[1..];
      LeadingBlankExactly(rest, last, k);
      assert Kept(parts, last) == Kept(rest, last);
      if rest != [] && rest[0].kept != "" { assert Whole(rest, last)[0] == rest[0].kept[0]; }
    }
  }

  // ----- what a run leaves of the older text -----

  /** The older text after `n` runs. */
  function Residue(t: string, k: Kind, n: nat): (r: string)
    requires k.start != ""
  {
    if n == 0 then DeleteAll(t, k) else DeleteAll(LStrip(Residue(t, k, n - 1)), k)
  }

  ghost predicate AllWellFormed(k: Kind, bs: seq<string>) {
    forall i :: 0 <= i < |bs| ==> WellFormed(k, bs[i])
  }

  /** Any number of runs leave the newest block and a residue that depends only on how many
      runs there were. */
  lemma {:induction false} OnlyNewestBlockStays(t: string, k: Kind, bs: seq<string>)
    requires ValidKind(k) && AllWellFormed(k, bs) && bs != []
    ensures RenewAll(t, k, bs) == bs[|bs| - 1] + "\n\n" + Residue(t, k, |bs| - 1)
  {
    hide Find;
    var front := bs[..|bs| - 1];
    if front != [] {
      OnlyNewestBlockStays(t, k, front);
      NewestIsDeleted(k, front[|front| - 1], Residue(t, k, |bs| - 2));
    }
  }

  /** A residue that a further run would not touch. */
  predicate Settled(r: string, k: Kind) {
    !Closed(r, k) && !BeginsBlank(r)
  }

  lemma SettledExactly(r: string, k: Kind)
    requires k.start != ""
    ensures DeleteAll(LStrip(r), k) == r <==> Settled(r, k)
  {
    hide Find, Closed, DeleteAll;
    if |LStrip(r)| == |r| { assert r[0..] == LStrip(r) == r; }
    DeletionShortens(r, k);
    if Settled(r, k) { UnclosedStays(r, k); }
  }

  /** Exactly when a second run makes the first one unseen: the first stretch does not begin with
      white space, and no cut puts a START together that an END follows. */
  lemma SecondRunExactly(t: string, k: Kind, b: string, b': string)
    requires ValidKind(k) && WellFormed(k, b)
    ensures var (parts, last) := CutOf(t, k);
      Renew(Renew(t, k, b), k, b') == Renew(t, k, b') <==>
        !BeginsBlank(FirstStretch(parts, last)) && !MendsClosed(parts, last, k)
  {
    hide Find, DeleteAll, CutOf, IsCut, MendsClosed, WellFormed;
    var (parts, last) := CutOf(t, k);
    CutExists(t, k);
    DeletionKeeps(parts, last, k);
    ClosedLeftExactly(parts, last, k);
    LeadingBlankExactly(parts, last, k);
    NewestIsDeleted(k, b, DeleteAll(t, k));
    SettledExactly(DeleteAll(t, k), k);
    var x, y := DeleteAll(LStrip(DeleteAll(t, k)), k), DeleteAll(t, k);
    assert (b' + "\n\n" + x)[|b'| + 2..] == x && (b' + "\n\n" + y)[|b'| + 2..] == y;
  }

  lemma BlankStripsAway()
    ensures LStrip(" ") == ""
  {
    assert LStrip(" ") == LStrip(" "[1..]);
  }

  /** A text of one blank: the first run keeps it, the second does not. */
  lemma LeadingBlankIsLost(k: Kind, b: string, b': string)
    requires ValidKind(k) && WellFormed(k, b) && !Occurs(" ", k.start)
    ensures Renew(Renew(" ", k, b), k, b') == b' + "\n\n"
    ensures Renew(" ", k, b') == b' + "\n\n" + " "
  {
    hide Find, DeleteAll, WellFormed, LStrip;
    DeletesNothing(" ", k);
    NewestIsDeleted(k, b, " ");
    BlankStripsAway();
    EmptyLacks(k.start);
    DeletesNothing("", k);
    assert b' + "\n\n" + "" == b' + "\n\n";
  }

  lemma SettledStays(t: string, k: Kind, n: nat, m: nat)
    requires k.start != "" && n <= m && Settled(Residue(t, k, n), k)
    ensures Residue(t, k, m) == Residue(t, k, n)
  {
    hide Find, Settled;
    if n < m {
      SettledStays(t, k, n, m - 1);
      SettledExactly(Residue(t, k, n), k);
    }
  }

  /** Every further run shortens the residue until it is settled. */
  lemma {:induction false} ResidueSettles(t: string, k: Kind, n: nat)
    requires k.start != ""
    ensures Settled(Residue(t, k, n), k) || |Residue(t, k, n)| + n <= |t|
  {
    hide Find, Settled, DeleteAll, LStrip;
    if n != 0 {
      ResidueSettles(t, k, n - 1);
      var r := Residue(t, k, n - 1);
      SettledExactly(r, k);
      if !Settled(r, k) { ShorterUnlessEqual(r, k); }
    }
  }

  lemma ShorterUnlessEqual(r: string, k: Kind)
    requires k.start != "" && DeleteAll(LStrip(r), k) != r
    ensures |DeleteAll(LStrip(r), k)| < |r|
  {
    hide Find;
    if |LStrip(r)| == |r| {
      assert r[0..] == LStrip(r) == r;
      DeletionShortens(r, k);
    }
  }

  lemma Converged(t: string, k: Kind, bs: seq<string>)
    requires ValidKind(k) && AllWellFormed(k, bs) && |bs| > |t| + 1
    ensures RenewAll(t, k, bs) == bs[|bs| - 1] + "\n\n" + Residue(t, k, |t| + 1)
  {
    hide Find, Settled, Residue, RenewAll, WellFormed;
    OnlyNewestBlockStays(t, k, bs);
    ResidueSettles(t, k, |t| + 1);
    SettledStays(t, k, |t| + 1, |bs| - 1);
  }

  /** So from some run on, at most one per character of the original text, the document depends
      on nothing but the newest block. */
  lemma RunsConverge(t: string, k: Kind, bs: seq<string>, cs: seq<string>)
    requires ValidKind(k) && AllWellFormed(k, bs) && AllWellFormed(k, cs)
    requires |bs| > |t| + 1 && |cs| > |t| + 1 && bs[|bs| - 1] == cs[|cs| - 1]
    ensures RenewAll(t, k, bs) == RenewAll(t, k, cs)
  {
    hide *;
    Converged(t, k, bs);
    Converged(t, k, cs);
  }

  /** When no cut puts a closed block together, that is already so from the second run on. */
  lemma SecondRunSettles(t: string, k: Kind, n: nat)
    requires k.start != "" && !MendsClosed(CutOf(t, k).0, CutOf(t, k).1, k)
    ensures Residue(t, k, n + 1) == LStrip(DeleteAll(t, k))
  {
    hide Find, CutOf, IsCut, MendsClosed;
    CutExists(t, k);
    DeletionKeeps(CutOf(t, k).0, CutOf(t, k).1, k);
    ClosedLeftExactly(CutOf(t, k).0, CutOf(t, k).1, k);
    var r := DeleteAll(t, k);
    if Closed(LStrip(r), k) { SuffixClosed(r, |r| - |LStrip(r)|, k); }
    assert Settled(Residue(t, k, 1), k);
    SettledStays(t, k, 1, n + 1);
  }

  // ----- one block, at offset 0 -----

  /** The new block is at offset 0; it is the only one exactly when the last stretch of the old
      text has no START and no cut puts one together. */
  lemma OneBlockExactly(t: string, k: Kind, b: string)
    requires ValidKind(k) && WellFormed(k, b)
    ensures var (parts, last) := CutOf(t, k);
      && Find(Renew(t, k, b), k.start, 0) == 0 && Renew(t, k, b) == b + "\n\n" + Kept(parts, last)
      && (Occurs(Renew(t, k, b)[|b|..], k.start) <==> Occurs(last, k.start) || Mends(parts, last, k))
  {
    hide Find, DeleteAll, CutOf, IsCut, Mends;
    var (parts, last) := CutOf(t, k);
    CutExists(t, k);
    DeletionKeeps(parts, last, k);
    StartLeftExactly(parts, last, k);
    var r := DeleteAll(t, k);
    var post := "\n\n" + r;
    assert Renew(t, k, b) == "" + b + post && "" + (b + post) == b + post;
    FindStable(b, post, k.start, 0);
    BlockFound("", b, post, k);
    NewlinesLack(r, k.start);
    assert Renew(t, k, b)[|b|..] == post;
  }

  lemma NewlinesLack(r: string, m: string)
    requires m != "" && '\n' !in m
    ensures Occurs("\n\n" + r, m) <==> Occurs(r, m)
  {
    hide Find;
    EmptyLacks(m);
    FindPastLine("", r, m);
    assert "" + "\n" + r == "\n" + r;
    FindPastLine("", "\n" + r, m);
    assert "" + "\n" + ("\n" + r) == "\n\n" + r;
  }

  lemma EmptyLacks(m: string)
    requires m != ""
    ensures !Occurs("", m)
  {}

  lemma DeletesNothing(t: string, k: Kind)
    requires k.start != "" && !Occurs(t, k.start)
    ensures DeleteAll(t, k) == t
  {}

  lemma TornIsCut(k: Kind, b: string, j: nat)
    requires BracketedKind(k) && WellFormed(k, b) && 0 < j < |k.start| && !IsSpace(k.start[j])
    ensures IsCut([Part(k.start[..j], b, "")], k.start[j..], k)
  {
    hide Find, WellFormed, Bracketed, IsSpace;
    var p, last := Part(k.start[..j], b, ""), k.start[j..];
    TooShort(p.kept, k.start);
    TooShort(last, k.start);
    FoundAfter(p.kept, k.start);
    assert [p][1..] == [] && Whole([], last) == last;
    assert last[0] == k.start[j];
    assert GoodPart(p, last, k);
  }

  /** Wherever a START is torn apart by a block, the deletion mends it. */
  lemma CutMendsStart(k: Kind, b: string, j: nat)
    requires BracketedKind(k) && WellFormed(k, b) && 0 < j < |k.start| && !IsSpace(k.start[j])
    ensures DeleteAll(k.start[..j] + b + k.start[j..], k) == k.start
  {
    hide Find, DeleteAll, WellFormed, Bracketed, IsCut;
    var p, last := Part(k.start[..j], b, ""), k.start[j..];
    TornIsCut(k, b, j);
    BracketedIsValid(k);
    DeletionKeeps([p], last, k);
    assert [p][1..] == [] && "" + last == last && k.start[..j] + last == k.start;
  }

  lemma TooShort(t: string, m: string)
    requires |t| < |m|
    ensures !Occurs(t, m)
  {}
}
