/** The fixed-source validation of several test groups (p18_exception_evidence/validate_final.py):
    one after the other, stopping at the first thing that is not as it should be. */
module Validation {

  type Source = map<string, string>

  /** What the script sees of one group: the source before its run, the exit code of the run if
      it is run, and the source afterwards. */
  datatype Group = Group(name: string, before: Source, code: int, after: Source)

  datatype Verdict =
    | Finished          // every group has run
    | NameTaken         // some evidence file existed beforehand
    | Drifted           // the source was not the frozen one
    | Failed(code: int) // a group exited with this code

  predicate Good(g: Group, frozen: Source) {
    g.before == frozen && g.after == frozen && g.code == 0
  }

  method Validate(frozen: Source, taken: set<string>, groups: seq<Group>) returns (ran: nat, verdict: Verdict)
    ensures ran <= |groups|
    // always a prefix of good groups, and at most one more
    ensures forall i :: 0 <= i < ran - 1 ==>
      groups[i].before == frozen && groups[i].after == frozen && groups[i].code == 0
    // the end is reached exactly when nothing was taken and every group is good
    ensures verdict == Finished <==>
      (forall g :: g in groups ==> g.name !in taken && g.before == frozen && g.after == frozen && g.code == 0)
    ensures verdict == Finished ==> ran == |groups|
    ensures verdict == NameTaken <==> exists g :: g in groups && g.name in taken
    ensures verdict == NameTaken ==> ran == 0
    // otherwise the first bad group decides, and no later group has run: it has run itself unless
    // the source had drifted before, and a drift behind it is noticed before its exit code
    ensures verdict.Failed? ==>
      && 0 < ran && FirstBad(groups, ran - 1, frozen)
      && groups[ran - 1].before == groups[ran - 1].after == frozen && verdict.code == groups[ran - 1].code != 0
    ensures verdict == Drifted ==>
      || (ran < |groups| && FirstBad(groups, ran, frozen) && groups[ran].before != frozen)
      || (0 < ran && FirstBad(groups, ran - 1, frozen)
            && groups[ran - 1].before == frozen && groups[ran - 1].after != frozen)
  {
    var j := 0;
    while j < |groups|
      invariant 0 <= j <= |groups|
      invariant forall i :: 0 <= i < j ==> groups[i].name !in taken
    {
      if groups[j].name in taken {
        assert groups[j] in groups;
        return 0, NameTaken;
      }
      j := j + 1;
    }
    var i := 0;
    while i < |groups|
      invariant 0 <= i <= |groups|
      invariant forall n :: 0 <= n < i ==> Good(groups[n], frozen)
    {
      var g := groups[i];
      assert g in groups;
      if g.before != frozen {
        assert FirstBad(groups, i, frozen);
        return i, Drifted;
      }
      if g.after != frozen {
        assert FirstBad(groups, i, frozen);
        return i + 1, Drifted;
      }
      if g.code != 0 {
        assert FirstBad(groups, i, frozen);
        return i + 1, Failed(g.code);
      }
      i := i + 1;
    }
    return |groups|, Finished;
  }

  predicate FirstBad(groups: seq<Group>, i: nat, frozen: Source)
    requires i < |groups|
  {
    !Good(groups[i], frozen) && forall n :: 0 <= n < i ==> Good(groups[n], frozen)
  }
}
