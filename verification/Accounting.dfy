/** Test suites and their numbers: the order in which a suite tree is run, the pass count of the
    runner, and the simpler pass count of the probe. */
module Accounting {
  import opened Outcome
  import opened Text

  type Id = string

  // ----- flattening a suite -----

  datatype Suite = Test(id: Id) | Group(items: seq<Suite>)

  /** `flatten`: depth first, from left to right. */
  function Flatten(s: Suite): seq<Id>
    decreases s, 0
  {
    match s
    case Test(id) => [id]
    case Group(items) => FlattenAll(items)
  }

  function FlattenAll(items: seq<Suite>): seq<Id>
    decreases items
  {
    if items == [] then [] else Flatten(items[0]) + FlattenAll(items[1..])
  }

  /** A place in the tree: which item, and then which item of that, and so on. */
  type Place = seq<nat>

  function TestAt(s: Suite, p: Place): Option<Id>
    decreases |p|
  {
    match s
    case Test(id) => if p == [] then Some(id) else None
    case Group(items) => if p == [] || p[0] >= |items| then None else TestAt(items[p[0]], p[1..])
  }

  predicate Earlier(p: Place, q: Place)
    decreases |p|
  {
    p != [] && q != [] && (p[0] < q[0] || (p[0] == q[0] && Earlier(p[1..], q[1..])))
  }

  ghost predicate InOrder(ps: seq<Place>) {
    forall i, j :: 0 <= i < j < |ps| ==> Earlier(ps[i], ps[j])
  }

  /** `ps` are exactly the places of tests in `s`, in order, and `ids` the tests there. */
  ghost predicate Enumerates(s: Suite, ps: seq<Place>, ids: seq<Id>) {
    && |ps| == |ids| && InOrder(ps)
    && (forall i :: 0 <= i < |ps| ==> TestAt(s, ps[i]) == Some(ids[i]))
    && (forall p :: TestAt(s, p).Some? ==> p in ps)
  }

  /** The same for the items of a group from the `n`-th on. */
  ghost predicate EnumeratesFrom(items: seq<Suite>, n: nat, ps: seq<Place>, ids: seq<Id>) {
    && |ps| == |ids| && InOrder(ps)
    && (forall i :: 0 <= i < |ps| ==> ps[i] != [] && n <= ps[i][0] && TestAt(Group(items), ps[i]) == Some(ids[i]))
    && (forall p :: TestAt(Group(items), p).Some? && n <= p[0] ==> p in ps)
  }

  function Below(n: nat, ps: seq<Place>): seq<Place> {
    seq(|ps|, i requires 0 <= i < |ps| => [n] + ps[i])
  }

  lemma BelowEarlier(n: nat, p: Place, q: Place)
    ensures Earlier([n] + p, [n] + q) == Earlier(p, q)
  {
    assert ([n] + p)[1..] == p && ([n] + q)[1..] == q;
  }

  lemma BelowInOrder(n: nat, ps: seq<Place>)
    requires InOrder(ps)
    ensures InOrder(Below(n, ps))
  {
    forall i, j | 0 <= i < j < |ps| ensures Earlier(Below(n, ps)[i], Below(n, ps)[j]) {
      BelowEarlier(n, ps[i], ps[j]);
    }
  }

  lemma ItemTest(items: seq<Suite>, n: nat, p: Place)
    requires n < |items|
    ensures TestAt(Group(items), [n] + p) == TestAt(items[n], p)
  {
    assert ([n] + p)[1..] == p;
  }

  lemma PutFirst(items: seq<Suite>, n: nat, ps: seq<Place>, ids: seq<Id>, qs: seq<Place>, jds: seq<Id>)
    requires n < |items| && Enumerates(items[n], ps, ids) && EnumeratesFrom(items, n + 1, qs, jds)
    ensures EnumeratesFrom(items, n, Below(n, ps) + qs, ids + jds)
  {
    var bs := Below(n, ps);
    var rs := bs + qs;
    BelowInOrder(n, ps);
    forall i, j | 0 <= i < j < |rs| ensures Earlier(rs[i], rs[j]) {
      if i < |bs| <= j { assert rs[i] == bs[i] && rs[j] == qs[j - |bs|]; }
    }
    forall i | 0 <= i < |rs|
      ensures rs[i] != [] && n <= rs[i][0] && TestAt(Group(items), rs[i]) == Some((ids + jds)[i])
    {
      if i < |bs| { ItemTest(items, n, ps[i]); }
    }
    forall p | TestAt(Group(items), p).Some? && n <= p[0] ensures p in rs {
      if p[0] == n {
        assert p == [n] + p[1..] && p[1..] in ps;
        var i :| 0 <= i < |ps| && ps[i] == p[1..];
        assert rs[i] == bs[i] == p;
      } else {
        assert p in qs;
      }
    }
  }

  lemma {:induction false} FlattenItems(items: seq<Suite>, n: nat) returns (ps: seq<Place>)
    requires n <= |items|
    ensures EnumeratesFrom(items, n, ps, FlattenAll(items[n..]))
    decreases items, |items| - n
  {
    if n == |items| {
      ps := [];
    } else {
      var first := FlattenEnumerates(items[n]);
      var rest := FlattenItems(items, n + 1);
      assert items[n..][1..] == items[n + 1..];
      PutFirst(items, n, first, Flatten(items[n]), rest, FlattenAll(items[n + 1..]));
      ps := Below(n, first) + rest;
    }
  }

  /** Flattening gives every test of the tree, once for each place it stands at, in tree order. */
  lemma {:induction false} FlattenEnumerates(s: Suite) returns (ps: seq<Place>)
    ensures Enumerates(s, ps, Flatten(s))
    decreases s, 0
  {
    match s
    case Test(id) =>
      ps := [[]];
    case Group(items) =>
      ps := FlattenItems(items, 0);
      assert items[0..] == items;
  }

  // ----- pass counts -----

  /** `records` are the tests of all failure and error entries, one entry for each failing
      subtest, and `skips` those of the skip entries.  An entry may also be about something that
      is no test that ran, like the fixture of a class. */
  datatype Results = Results(ids: seq<Id>, records: seq<Id>, skips: seq<Id>)

  /** The runner counts failing tests, however many records they have. */
  function Passed(o: Results): int {
    |o.ids| - |SetOf(o.records)| - |o.skips|
  }

  /** The probe subtracts every record. */
  function ProbePassed(o: Results): int {
    |o.ids| - |o.records| - |o.skips|
  }

  function CleanTests(o: Results): set<Id> {
    SetOf(o.ids) - SetOf(o.records) - SetOf(o.skips)
  }

  lemma {:induction false} SetSize(xs: seq<Id>)
    ensures |SetOf(xs)| <= |xs|
    ensures |SetOf(xs)| == |xs| <==> Distinct(xs)
  {
    if xs != [] {
      var front, x := xs[..|xs| - 1], xs[|xs| - 1];
      SetSize(front);
      assert SetOf(xs) == SetOf(front) + {x};
      if x in SetOf(front) {
        var i :| 0 <= i < |front| && front[i] == x;
        assert xs[i] == xs[|xs| - 1];
      } else {
        forall i | 0 <= i < |front| ensures front[i] != x { assert front[i] in SetOf(front); }
      }
    }
  }

  lemma Apart(a: set<Id>, b: set<Id>)
    ensures |a + b| <= |a| + |b|
    ensures |a + b| == |a| + |b| <==> a !! b
  {
    assert a + b == a + (b - a) && b == (b - a) + (b * a);
    if |b * a| == 0 { assert b * a == {}; }
  }

  lemma Within(a: set<Id>, b: set<Id>)
    ensures |a| - |b| <= |a - b|
    ensures |a| - |b| == |a - b| <==> b <= a
  {
    Apart(a - b, b);
    assert (a - b) + b == a + (b - a);
    Apart(a, b - a);
    if |b - a| == 0 { assert b - a == {}; }
  }

  /** The runner's number never exceeds the number of tests that neither failed nor were skipped,
      and equals it exactly when every entry is about a test that ran, no test was skipped twice
      and no test has both kinds of entries. */
  lemma PassedIsCleanExactly(o: Results)
    requires Distinct(o.ids)
    ensures Passed(o) <= |CleanTests(o)|
    ensures Passed(o) == |CleanTests(o)| <==>
      && SetOf(o.records) <= SetOf(o.ids) && SetOf(o.skips) <= SetOf(o.ids)
      && Distinct(o.skips) && SetOf(o.skips) !! SetOf(o.records)
  {
    hide SetOf, Distinct;
    SetSize(o.ids);
    SetSize(o.skips);
    var ids, failed, skipped := SetOf(o.ids), SetOf(o.records), SetOf(o.skips);
    Within(ids, failed + skipped);
    Apart(failed, skipped);
    assert ids - (failed + skipped) == CleanTests(o);
  }

  /** The probe never counts more, and agrees exactly when no failing test has two records. */
  lemma ProbeIsLower(o: Results)
    ensures ProbePassed(o) <= Passed(o)
    ensures ProbePassed(o) == Passed(o) <==> Distinct(o.records)
  {
    SetSize(o.records);
  }
}
