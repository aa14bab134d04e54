/** Layered history: every stage writes its block and a separator in front of the document, and
    the auditor takes the layers off again. */
module Layers {
  import opened Outcome
  import opened Text
  import opened Markers

  function AddLayer(t: string, b: string, sep: string): string {
    b + sep + t
  }

  /** `current, historical = t.split(sep, 1)`, keeping the history. */
  function Peel(t: string, sep: string): Result<string> {
    var i := Find(t, sep, 0);
    if i == -1 then Err(SubstringNotFound) else Ok(t[i + |sep|..])
  }

  function AddLayers(t: string, bs: seq<string>, sep: string): string {
    if bs == [] then t else AddLayer(AddLayers(t, bs[..|bs| - 1], sep), bs[|bs| - 1], sep)
  }

  function PeelTimes(t: string, n: nat, sep: string): Result<string> {
    if n == 0 then Ok(t)
    else
      var t' :- Peel(t, sep);
      PeelTimes(t', n - 1, sep)
  }

  /** A block in front of which, up to the end of its separator, no other separator begins. */
  predicate Separable(b: string, sep: string) {
    Find(b + sep, sep, 0) == |b|
  }

  lemma SeparatorFound(b: string, sep: string)
    ensures 0 <= Find(b + sep, sep, 0) <= |b|
  {
    hide Find;
    FindLeftmost(b + sep, sep, 0);
    assert At(b + sep, sep, |b|);
  }

  lemma PeelFails(t: string, sep: string)
    ensures Peel(t, sep).Err? <==> !Occurs(t, sep)
  {}

  /** One layer comes off exactly when its block is separable, whatever lies below: the history
      may well contain the separator itself. */
  lemma PeelExactly(t: string, b: string, sep: string)
    ensures Peel(AddLayer(t, b, sep), sep).Ok?
    ensures Peel(AddLayer(t, b, sep), sep).value == t <==> Separable(b, sep)
  {
    hide Find;
    SeparatorFound(b, sep);
    FindStable(b + sep, t, sep, 0);
    var i := Find(b + sep, sep, 0);
    assert (b + sep + t)[|b| + |sep|..] == t;
    assert |(b + sep + t)[i + |sep|..]| == |t| + |b| - i;
  }

  ghost predicate AllSeparable(bs: seq<string>, sep: string) {
    forall i :: 0 <= i < |bs| ==> Separable(bs[i], sep)
  }

  /** Every earlier version comes back: taking off `n` layers leaves the document as it was
      before the last `n` stages. */
  lemma {:induction false} EveryVersionComesBack(t: string, bs: seq<string>, n: nat, sep: string)
    requires AllSeparable(bs, sep) && n <= |bs|
    ensures PeelTimes(AddLayers(t, bs, sep), n, sep).Ok?
    ensures PeelTimes(AddLayers(t, bs, sep), n, sep).value == AddLayers(t, bs[..|bs| - n], sep)
  {
    hide Find;
    if n == 0 {
      assert bs[..|bs|] == bs;
    } else {
      var front := bs[..|bs| - 1];
      PeelExactly(AddLayers(t, front, sep), bs[|bs| - 1], sep);
      EveryVersionComesBack(t, front, n - 1, sep);
      assert front[..|front| - (n - 1)] == bs[..|bs| - n];
    }
  }

  // ----- the decision log, which also grows at the end -----

  /** `t.split(sep, 1)[0]` */
  function UpTo(t: string, sep: string): string {
    var i := Find(t, sep, 0);
    if i == -1 then t else t[..i]
  }

  lemma UpToExactly(a: string, sep: string, rest: string)
    ensures !Occurs(a, sep) ==> UpTo(a, sep) == a
    ensures Separable(a, sep) ==> UpTo(a + sep + rest, sep) == a
  {
    hide Find;
    if Separable(a, sep) {
      FindStable(a + sep, rest, sep, 0);
      assert (a + sep + rest)[..|a|] == a;
    }
  }

  /** The log as it was: behind the current layer and before the appended decision. */
  function Historical(t: string, sep: string, decision: string): Result<string> {
    var h :- Peel(t, sep);
    Ok(UpTo(h, decision))
  }

  /** For a separable layer the old log comes back exactly when it did not already contain the
      heading of the decision that is appended to it. */
  lemma DecisionLogExactly(old0: string, b: string, sep: string, decision: string, entry: string)
    requires Separable(b, sep)
    ensures Historical(AddLayer(old0 + decision + entry, b, sep), sep, decision).Ok?
    ensures Historical(AddLayer(old0 + decision + entry, b, sep), sep, decision).value == old0
       <==> Separable(old0, decision)
  {
    hide Find;
    PeelExactly(old0 + decision + entry, b, sep);
    SeparatorFound(old0, decision);
    FindStable(old0 + decision, entry, decision, 0);
    var i := Find(old0 + decision, decision, 0);
    assert (old0 + decision + entry)[..|old0|] == old0;
    assert |(old0 + decision + entry)[..i]| == i;
  }

  // ----- the writer and the reader of an acceptance block -----

  /** The archiver puts START body END in front of the document, the auditor reads between the
      markers: they agree on every document exactly when the first END behind the body closes it. */
  lemma ReaderAgreesExactly(k: Kind, body: string, old0: string)
    requires ValidKind(k)
    ensures Extract(k.start + body + k.end + "\n\n" + old0, k).Ok?
    ensures Extract(k.start + body + k.end + "\n\n" + old0, k).value == body <==> Separable(body, k.end)
  {
    hide Find;
    var r := "\n\n" + old0;
    var t := k.start + (body + k.end + r);
    assert k.start + body + k.end + "\n\n" + old0 == t;
    assert t[0..|k.start|] == k.start && At(t, k.start, 0);
    FindIs(t, k.start, 0, 0);
    SeparatorFound(body, k.end);
    FindStable(body + k.end, r, k.end, 0);
    FindShift(k.start, body + k.end + r, k.end, 0);
    var i := Find(body + k.end, k.end, 0);
    assert Find(t, k.end, |k.start|) == |k.start| + i;
    assert t[|k.start|..|k.start| + i] == body[..i];
    assert body[..|body|] == body;
  }
}
