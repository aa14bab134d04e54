/** The chain of custody over the stages: every stage records a baseline that must agree with the
    previous audit, freezes the source, and audits the tree against both.  Between any two steps
    the tree may have been edited by anyone; only the guards speak for it.  Here every step has
    the records of the earlier steps; how it gets them from the same tree is in `Handover`. */
module Custody {
  import opened Outcome
  import opened Text
  import opened Trees

  /** What `before.json` says. */
  datatype Baseline = Baseline(source: Snapshot, kept: Snapshot, existingPending: Snapshot,
                               excluded: set<Path>, identities: seq<string>, allowed: set<Path>)

  /** What `frozen-source.json` says. */
  datatype Frozen = Frozen(source: Snapshot, identities: seq<string>, added: set<string>)

  /** What the audit file says, and where it is. */
  datatype Audit = Audit(path: Path, source: Snapshot, pending: set<Path>, hashes: Snapshot, excluded: set<Path>)

  datatype Chain = Chain(before: Baseline, frozen: Frozen, audit: Audit)

  // ----- the guards' vocabulary -----

  predicate Under(p: Path, folder: string) {
    folder <= p
  }

  /** `source_hashes()`: what is below src and tests, without caches. */
  predicate IsSource(p: Path) {
    && (Under(p, "src/") || Under(p, "tests/"))
    && !Occurs("/" + p + "/", "/__pycache__/")
    && !Compiled(p)
  }

  /** `Path(p).suffix == '.pyc'`: a file that is only called `.pyc` has no suffix. */
  predicate Compiled(p: Path) {
    |p| >= 5 && p[|p| - 4..] == ".pyc" && p[|p| - 5] != '/'
  }

  /** Which files the source is, said without searching. */
  ghost predicate SourceFile(p: Path) {
    && ("src/" <= p || "tests/" <= p)
    && !(exists a, b :: "/" + p + "/" == a + "/__pycache__/" + b)
    && !(exists q :: q != "" && q[|q| - 1] != '/' && p == q + ".pyc")
  }

  lemma OccursExactly(t: string, m: string)
    ensures Occurs(t, m) <==> exists a, b :: t == a + m + b
  {
    hide Find;
    FindLeftmost(t, m, 0);
    if Occurs(t, m) {
      var i := Find(t, m, 0);
      assert t[i..i + |m|] == m;
      assert t == t[..i] + m + t[i + |m|..];
    }
    forall a, b | t == a + m + b ensures Occurs(t, m) {
      assert t[|a|..|a| + |m|] == m;
      assert At(t, m, |a|);
    }
  }

  lemma CompiledExactly(p: Path)
    ensures Compiled(p) <==> exists q :: q != "" && q[|q| - 1] != '/' && p == q + ".pyc"
  {
    if Compiled(p) {
      var q := p[..|p| - 4];
      assert p == q + ".pyc" && q[|q| - 1] == p[|p| - 5];
    }
  }

  lemma IsSourceExactly(p: Path)
    ensures IsSource(p) <==> SourceFile(p)
  {
    hide Occurs;
    OccursExactly("/" + p + "/", "/__pycache__/");
    CompiledExactly(p);
  }

  function SourceOf(s: Snapshot): Snapshot {
    map p | p in s && IsSource(p) :: s[p]
  }

  /** `all(sha(p) == h for p, h in hs.items())`; a missing file fails as well. */
  predicate Agrees(s: Snapshot, hs: Snapshot) {
    forall p :: p in hs ==> p in s && s[p] == hs[p]
  }

  function Changed(was: Snapshot, now: Snapshot): set<Path> {
    set p | p in was && (p !in now || now[p] != was[p])
  }

  // ----- prepare -----

  /** Two ways of saying which files are already pending: what the previous audit hashed and the
      audit itself, or what Git lists now outside the new stage's folder. */
  datatype Carry = Inherit | Listing(git: set<Path>, out: string)

  function Prepare(c: Chain, s: Snapshot, carry: Carry, allowed: set<Path>): Result<Baseline> {
    var b, a := c.before, c.audit;
    match carry
    case Inherit =>
      if SourceOf(s) != a.source || !Agrees(s, b.kept) then Err(GuardFailed)
      else if a.path !in s then Err(FileMissing(a.path))
      else
        var inherited := a.hashes[a.path := s[a.path]];
        if !Agrees(s, inherited) then Err(GuardFailed)
        else Ok(Baseline(SourceOf(s), b.kept, inherited, a.excluded, c.frozen.identities, allowed))
    case Listing(git, out) =>
      if SourceOf(s) != a.source || a.source != b.source then Err(GuardFailed)
      else if !Agrees(s, a.hashes) || !Agrees(s, b.kept) then Err(GuardFailed)
      else
        var mine := set p | p in git - b.excluded && !Under(p, out);
        if !(mine <= s.Keys) then Err(FilesMissing(mine - s.Keys))
        else Ok(b.(existingPending := map p | p in mine :: s[p], allowed := allowed))
  }

  // ----- freeze -----

  function Freeze(b: Baseline, s: Snapshot, ids: seq<string>): Result<Frozen> {
    if Changed(b.source, SourceOf(s)) != b.allowed then Err(GuardFailed)
    else if !Distinct(ids) || !(SetOf(b.identities) <= SetOf(ids)) then Err(GuardFailed)
    else Ok(Frozen(SourceOf(s), ids, SetOf(ids) - SetOf(b.identities)))
  }

  // ----- audit -----

  /** What one audit is given and what it writes: the documents it may find changed, Git's list,
      the paths and contents of its three manifests, its folder and its new tests. */
  datatype Report = Report(docs: set<Path>, git: set<Path>, out: string, newTests: set<Path>,
                           changesPath: Path, changes: Digest, pendingPath: Path, listing: Digest, auditPath: Path)

  function Pending(b: Baseline, r: Report): set<Path> {
    r.git + {r.changesPath, r.pendingPath, r.auditPath} - b.excluded
  }

  predicate AuditGuards(b: Baseline, f: Frozen, s: Snapshot, r: Report) {
    && SourceOf(s) == f.source
    && SetOf(b.identities) <= SetOf(f.identities)
    && f.added == SetOf(f.identities) - SetOf(b.identities)
    && Distinct(f.identities)
    && (forall p :: p in b.source && Under(p, "tests/") ==> p in f.source && f.source[p] == b.source[p])
    && Changed(b.source, f.source) == b.allowed
    && Changed(b.existingPending, s) <= r.docs + b.allowed
    && Agrees(s, b.kept)
    && (forall p :: p in Pending(b, r) && p !in b.existingPending ==>
          Under(p, r.out) || p in r.docs || p in r.newTests)
  }

  /** The tree with the two manifests that are written before the audit file. */
  function WithManifests(s: Snapshot, r: Report): Snapshot {
    s[r.changesPath := r.changes][r.pendingPath := r.listing]
  }

  /** The manifests are created exclusively: none may exist, and no two share a name. */
  predicate CanCreate(s: Snapshot, r: Report) {
    && r.changesPath !in s && r.pendingPath !in s && r.auditPath !in s
    && r.changesPath != r.pendingPath && r.auditPath != r.changesPath && r.auditPath != r.pendingPath
  }

  function AuditTree(b: Baseline, f: Frozen, s: Snapshot, r: Report): Result<Audit> {
    if !AuditGuards(b, f, s, r) || !CanCreate(s, r) then Err(GuardFailed)
    else
      var hashed := Pending(b, r) - {r.auditPath};
      var s' := WithManifests(s, r);
      if !(hashed <= s'.Keys) then Err(FilesMissing(hashed - s'.Keys))
      else Ok(Audit(r.auditPath, f.source, Pending(b, r), map p | p in hashed :: s'[p], b.excluded))
  }

  // ----- stages -----

  /** One stage, with the tree as it happened to be at each of its three steps. */
  datatype Stage = Stage(atPrepare: Snapshot, carry: Carry, allowed: set<Path>,
                         atFreeze: Snapshot, ids: seq<string>, atAudit: Snapshot, report: Report)

  function RunStage(c: Chain, st: Stage): Result<Chain> {
    var b :- Prepare(c, st.atPrepare, st.carry, st.allowed);
    var f :- Freeze(b, st.atFreeze, st.ids);
    var a :- AuditTree(b, f, st.atAudit, st.report);
    Ok(Chain(b, f, a))
  }

  function RunChain(c: Chain, sts: seq<Stage>): Result<Chain> {
    if sts == [] then Ok(c)
    else
      var c' :- RunChain(c, sts[..|sts| - 1]);
      RunStage(c', sts[|sts| - 1])
  }

  /** What every audit leaves for the next stage to build on. */
  ghost predicate Linked(c: Chain) {
    && c.audit.source == c.frozen.source
    && c.audit.path !in c.audit.hashes
    && c.audit.hashes.Keys !! c.before.excluded && c.audit.excluded == c.before.excluded
    && SetOf(c.before.identities) <= SetOf(c.frozen.identities)
    && Distinct(c.frozen.identities)
  }

  /** Whatever it was built on. */
  lemma EveryAuditLinks(c: Chain, st: Stage)
    requires RunStage(c, st).Ok?
    ensures Linked(RunStage(c, st).value)
  {
    hide IsSource, Agrees;
  }

  lemma StageLinks(c: Chain, st: Stage)
    requires Linked(c) && RunStage(c, st).Ok?
    ensures Linked(RunStage(c, st).value)
    ensures RunStage(c, st).value.before.kept == c.before.kept
    ensures RunStage(c, st).value.before.excluded == c.before.excluded
    ensures RunStage(c, st).value.before.source == c.audit.source
    ensures Agrees(st.atPrepare, c.before.kept) && Agrees(st.atAudit, c.before.kept)
    ensures SetOf(c.before.identities) <= SetOf(RunStage(c, st).value.before.identities)
    ensures st.carry.Inherit? ==> RunStage(c, st).value.before.identities == c.frozen.identities
  {
    hide IsSource;
    EveryAuditLinks(c, st);
  }

  lemma {:induction false} ChainLinks(c: Chain, sts: seq<Stage>)
    requires Linked(c) && RunChain(c, sts).Ok?
    ensures Linked(RunChain(c, sts).value)
    ensures RunChain(c, sts).value.before.excluded == c.before.excluded
  {
    hide RunStage, Linked;
    if sts != [] {
      ChainLinks(c, sts[..|sts| - 1]);
      StageLinks(RunChain(c, sts[..|sts| - 1]).value, sts[|sts| - 1]);
    }
  }

  // ----- what the chain guarantees -----

  /** Kept files: at every prepare and every audit of every stage, each has its root hash. */
  lemma {:induction false} KeptForever(c: Chain, sts: seq<Stage>)
    requires Linked(c) && RunChain(c, sts).Ok?
    ensures RunChain(c, sts).value.before.kept == c.before.kept
    ensures forall i :: 0 <= i < |sts| ==>
      Agrees(sts[i].atPrepare, c.before.kept) && Agrees(sts[i].atAudit, c.before.kept)
  {
    hide RunStage, Linked, Agrees;
    if sts != [] {
      var front := sts[..|sts| - 1];
      KeptForever(c, front);
      ChainLinks(c, front);
      StageLinks(RunChain(c, front).value, sts[|sts| - 1]);
      assert forall i :: 0 <= i < |front| ==> front[i] == sts[i];
    }
  }

  /** Test identities: none of the root's is ever lost or repeated; and when every stage inherits,
      neither is any identity that a later stage added. */
  lemma {:induction false} IdentitiesSurvive(c: Chain, sts: seq<Stage>)
    requires Linked(c) && RunChain(c, sts).Ok?
    ensures SetOf(c.before.identities) <= SetOf(RunChain(c, sts).value.before.identities)
    ensures SetOf(c.before.identities) <= SetOf(RunChain(c, sts).value.frozen.identities)
    ensures Distinct(RunChain(c, sts).value.frozen.identities)
    ensures (forall i :: 0 <= i < |sts| ==> sts[i].carry.Inherit?) ==>
      SetOf(c.frozen.identities) <= SetOf(RunChain(c, sts).value.frozen.identities)
  {
    hide RunStage, SetOf, Distinct;
    ChainLinks(c, sts);
    if sts != [] {
      var front := sts[..|sts| - 1];
      IdentitiesSurvive(c, front);
      ChainLinks(c, front);
      StageLinks(RunChain(c, front).value, sts[|sts| - 1]);
      ChainUnfolds(c, sts);
    }
  }

  lemma ChainUnfolds(c: Chain, sts: seq<Stage>)
    requires sts != [] && RunChain(c, sts).Ok?
    ensures RunChain(c, sts[..|sts| - 1]).Ok?
    ensures RunStage(RunChain(c, sts[..|sts| - 1]).value, sts[|sts| - 1]) == RunChain(c, sts)
  {}

  /** Source files: a file that was there at the root still has its root hash unless some stage's
      allowed list names it. */
  lemma StageKeepsSource(c: Chain, st: Stage, p: Path)
    requires Linked(c) && RunStage(c, st).Ok? && p in c.audit.source
    requires p !in st.allowed || Under(p, "tests/")
    ensures p in RunStage(c, st).value.audit.source
    ensures RunStage(c, st).value.audit.source[p] == c.audit.source[p]
  {
    hide IsSource, Agrees;
    StageLinks(c, st);
    var c' := RunStage(c, st).value;
    StageGuards(c, st);
    if p !in st.allowed { assert p !in Changed(c'.before.source, c'.frozen.source); }
  }

  lemma StageGuards(c: Chain, st: Stage)
    requires RunStage(c, st).Ok?
    ensures AuditGuards(RunStage(c, st).value.before, RunStage(c, st).value.frozen, st.atAudit, st.report)
    ensures RunStage(c, st).value.audit.source == RunStage(c, st).value.frozen.source
    ensures RunStage(c, st).value.before.allowed == st.allowed
  {
    hide IsSource, Agrees, AuditGuards;
  }

  /** Only allow-listed source files ever change, and an existing test never does, even if a
      list names it. */
  lemma {:induction false} SourceCustody(c: Chain, sts: seq<Stage>, p: Path)
    requires Linked(c) && RunChain(c, sts).Ok? && p in c.audit.source
    requires Under(p, "tests/") || forall i :: 0 <= i < |sts| ==> p !in sts[i].allowed
    ensures p in RunChain(c, sts).value.audit.source
    ensures RunChain(c, sts).value.audit.source[p] == c.audit.source[p]
  {
    hide RunStage, Linked;
    if sts != [] {
      var front := sts[..|sts| - 1];
      SourceCustody(c, front, p);
      ChainLinks(c, front);
      ChainUnfolds(c, sts);
      StageKeepsSource(RunChain(c, front).value, sts[|sts| - 1], p);
    }
  }

  /** The stage has the file in its baseline and does not say that it may change. */
  ghost predicate Checked(st: Stage, p: Path) {
    && (st.carry.Listing? ==> p in st.carry.git && !Under(p, st.carry.out))
    && p !in st.allowed && p !in st.report.docs
  }

  /** And its audit lists it, for the next stage. */
  ghost predicate Carried(st: Stage, p: Path) {
    Checked(st, p) && p in st.report.git
  }

  lemma PrepareCarries(c: Chain, st: Stage, p: Path)
    requires Linked(c) && Prepare(c, st.atPrepare, st.carry, st.allowed).Ok?
    requires p in c.audit.hashes && Checked(st, p)
    ensures p in Prepare(c, st.atPrepare, st.carry, st.allowed).value.existingPending
    ensures Prepare(c, st.atPrepare, st.carry, st.allowed).value.existingPending[p] == c.audit.hashes[p]
  {
    hide IsSource;
    assert p !in c.before.excluded;
  }

  lemma AuditChecks(b: Baseline, f: Frozen, s: Snapshot, r: Report, p: Path)
    requires AuditTree(b, f, s, r).Ok? && p in b.existingPending && p !in r.docs + b.allowed
    ensures p in s && s[p] == b.existingPending[p]
  {
    hide IsSource;
    assert p !in Changed(b.existingPending, s);
  }

  lemma AuditCarries(b: Baseline, f: Frozen, s: Snapshot, r: Report, p: Path)
    requires AuditTree(b, f, s, r).Ok? && p in b.existingPending && p !in r.docs + b.allowed
    requires p in r.git && p !in b.excluded
    ensures p in AuditTree(b, f, s, r).value.hashes
    ensures AuditTree(b, f, s, r).value.hashes[p] == b.existingPending[p]
  {
    hide IsSource;
    AuditChecks(b, f, s, r, p);
  }

  /** A stage checks what it has in its baseline, whether its audit lists it or not. */
  lemma StageChecksPending(c: Chain, st: Stage, p: Path)
    requires Linked(c) && RunStage(c, st).Ok? && p in c.audit.hashes && Checked(st, p)
    ensures p in st.atAudit && st.atAudit[p] == c.audit.hashes[p]
  {
    hide IsSource, Agrees, AuditTree, Prepare, Freeze;
    PrepareCarries(c, st, p);
    StageGuards(c, st);
    var b := Prepare(c, st.atPrepare, st.carry, st.allowed).value;
    AuditChecks(b, Freeze(b, st.atFreeze, st.ids).value, st.atAudit, st.report, p);
  }

  lemma StageKeepsPending(c: Chain, st: Stage, p: Path)
    requires Linked(c) && RunStage(c, st).Ok? && p in c.audit.hashes && Carried(st, p)
    ensures p in RunStage(c, st).value.audit.hashes
    ensures RunStage(c, st).value.audit.hashes[p] == c.audit.hashes[p]
    ensures p in st.atAudit && st.atAudit[p] == c.audit.hashes[p]
  {
    hide IsSource, Agrees, AuditTree, Prepare, Freeze;
    PrepareCarries(c, st, p);
    StageLinks(c, st);
    StageGuards(c, st);
    var b := Prepare(c, st.atPrepare, st.carry, st.allowed).value;
    var f := Freeze(b, st.atFreeze, st.ids).value;
    assert p !in c.before.excluded;
    AuditChecks(b, f, st.atAudit, st.report, p);
    AuditCarries(b, f, st.atAudit, st.report, p);
  }

  /** Pending files: across any number of stages, whatever was done to the tree in between, a
      file that every stage lists and no stage allows to change has its first recorded hash. */
  lemma {:induction false} PendingCustody(c: Chain, sts: seq<Stage>, p: Path)
    requires Linked(c) && RunChain(c, sts).Ok? && p in c.audit.hashes
    requires forall i :: 0 <= i < |sts| ==> Carried(sts[i], p)
    ensures p in RunChain(c, sts).value.audit.hashes
    ensures RunChain(c, sts).value.audit.hashes[p] == c.audit.hashes[p]
    ensures forall i :: 0 <= i < |sts| ==> p in sts[i].atAudit && sts[i].atAudit[p] == c.audit.hashes[p]
  {
    hide RunStage, Linked, Carried;
    if sts != [] {
      var front := sts[..|sts| - 1];
      assert forall i :: 0 <= i < |front| ==> front[i] == sts[i];
      PendingCustody(c, front, p);
      ChainLinks(c, front);
      ChainUnfolds(c, sts);
      StageKeepsPending(RunChain(c, front).value, sts[|sts| - 1], p);
    }
  }

  // ----- which files count, and what passes, guard by guard -----

  /** A snapshot of the source has every source file of the tree, with its hash, and no other. */
  ghost predicate Samples(source: Snapshot, s: Snapshot) {
    forall p :: (p in source <==> p in s && SourceFile(p)) && (p in source ==> source[p] == s[p])
  }

  lemma SourceOfExactly(source: Snapshot, s: Snapshot)
    ensures source == SourceOf(s) <==> Samples(source, s)
  {
    hide IsSource, SourceFile;
    forall p ensures IsSource(p) <==> SourceFile(p) { IsSourceExactly(p); }
  }

  /** The hashes that were recorded are still there. */
  ghost predicate Holds(s: Snapshot, hs: Snapshot) {
    forall p :: p in hs ==> p in s && s[p] == hs[p]
  }

  predicate Differs(was: Snapshot, now: Snapshot, p: Path) {
    p in was && (p !in now || now[p] != was[p])
  }

  lemma ChangedExactly(was: Snapshot, now: Snapshot, allowed: set<Path>)
    ensures Changed(was, now) == allowed <==> forall p :: p in allowed <==> Differs(was, now, p)
    ensures Changed(was, now) <= allowed <==> forall p :: Differs(was, now, p) ==> p in allowed
  {
    assert forall p :: p in Changed(was, now) <==> Differs(was, now, p);
  }

  /** Exactly when a stage that inherits its baseline may begin, and what it records. */
  lemma InheritExactly(c: Chain, s: Snapshot, allowed: set<Path>)
    ensures var b, a, r := c.before, c.audit, Prepare(c, s, Inherit, allowed);
      && (r.Ok? <==>
            && Samples(a.source, s) && Holds(s, b.kept) && a.path in s
            && forall p :: p in a.hashes && p != a.path ==> p in s && s[p] == a.hashes[p])
      && (r.Ok? ==>
            && r.value.source == a.source && r.value.kept == b.kept && r.value.excluded == a.excluded
            && r.value.identities == c.frozen.identities && r.value.allowed == allowed
            && r.value.existingPending.Keys == a.hashes.Keys + {a.path}
            && Holds(s, r.value.existingPending))
  {
    hide IsSource, Samples, SourceOf;
    SourceOfExactly(c.audit.source, s);
  }

  /** Exactly when a stage may begin that takes its baseline from Git's list. */
  lemma ListingExactly(c: Chain, s: Snapshot, git: set<Path>, out: string, allowed: set<Path>)
    ensures var b, a, r := c.before, c.audit, Prepare(c, s, Listing(git, out), allowed);
      && (r.Ok? <==>
            && Samples(a.source, s) && b.source == a.source && Holds(s, b.kept) && Holds(s, a.hashes)
            && forall p :: p in git && p !in b.excluded && !(out <= p) ==> p in s)
      && (r.Ok? ==>
            && r.value == b.(existingPending := r.value.existingPending, allowed := allowed)
            && (forall p :: p in r.value.existingPending <==> p in git && p !in b.excluded && !(out <= p))
            && Holds(s, r.value.existingPending))
  {
    hide IsSource, Samples, SourceOf;
    SourceOfExactly(c.audit.source, s);
  }

  /** Exactly when a freeze passes, and what it records. */
  lemma FreezePassesExactly(b: Baseline, s: Snapshot, ids: seq<string>)
    ensures var r := Freeze(b, s, ids);
      && (r.Ok? <==>
            && (forall p :: p in b.allowed <==>
                  p in b.source && (p !in s || !SourceFile(p) || s[p] != b.source[p]))
            && (forall i, j :: 0 <= i < j < |ids| ==> ids[i] != ids[j])
            && (forall x :: x in b.identities ==> x in ids))
      && (r.Ok? ==>
            && Samples(r.value.source, s) && r.value.identities == ids
            && forall x :: x in r.value.added <==> x in ids && x !in b.identities)
  {
    hide IsSource, SourceFile;
    forall p ensures IsSource(p) <==> SourceFile(p) { IsSourceExactly(p); }
    SourceOfExactly(SourceOf(s), s);
    ChangedExactly(b.source, SourceOf(s), b.allowed);
    SetOfIn(ids);
    SetOfIn(b.identities);
    assert forall p :: Differs(b.source, SourceOf(s), p) <==>
      p in b.source && (p !in s || !SourceFile(p) || s[p] != b.source[p]);
  }

  lemma SetOfIn(xs: seq<string>)
    ensures forall x :: x in SetOf(xs) <==> x in xs
  {}

  /** Exactly when an audit passes: every guard of the tree, of the records, and of the lists. */
  ghost predicate AuditPasses(b: Baseline, f: Frozen, s: Snapshot, r: Report) {
    && Samples(f.source, s)
    && (forall p :: p in b.allowed <==> Differs(b.source, f.source, p))
    && (forall p :: p in b.source && "tests/" <= p ==> !Differs(b.source, f.source, p))
    && (forall i, j :: 0 <= i < j < |f.identities| ==> f.identities[i] != f.identities[j])
    && (forall x :: x in b.identities ==> x in f.identities)
    && (forall x :: x in f.added <==> x in f.identities && x !in b.identities)
    && Holds(s, b.kept)
    && (forall p :: Differs(b.existingPending, s, p) ==> p in r.docs || p in b.allowed)
    && r.changesPath !in s && r.pendingPath !in s && r.auditPath !in s
    && r.changesPath != r.pendingPath && r.auditPath != r.changesPath && r.auditPath != r.pendingPath
    && (forall p :: Listed(b, r, p) && p !in b.existingPending ==> r.out <= p || p in r.docs || p in r.newTests)
    && (forall p :: Listed(b, r, p) ==> p in s || p in {r.changesPath, r.pendingPath, r.auditPath})
  }

  predicate Listed(b: Baseline, r: Report, p: Path) {
    (p in r.git || p in {r.changesPath, r.pendingPath, r.auditPath}) && p !in b.excluded
  }

  lemma IdentitiesExactly(ids: seq<string>, was: seq<string>, added: set<string>)
    ensures SetOf(was) <= SetOf(ids) && added == SetOf(ids) - SetOf(was) && Distinct(ids) <==>
      && (forall i, j :: 0 <= i < j < |ids| ==> ids[i] != ids[j])
      && (forall x :: x in was ==> x in ids)
      && (forall x :: x in added <==> x in ids && x !in was)
  {
    SetOfIn(ids);
    SetOfIn(was);
  }

  lemma ListsExactly(b: Baseline, s: Snapshot, r: Report)
    ensures (forall p :: p in Pending(b, r) <==> Listed(b, r, p))
    ensures r.auditPath !in s && r.auditPath != r.changesPath && r.auditPath != r.pendingPath ==>
      (Pending(b, r) - {r.auditPath} <= WithManifests(s, r).Keys <==>
        forall p :: Listed(b, r, p) ==> p in s || p in {r.changesPath, r.pendingPath, r.auditPath})
  {
    var keys, three := WithManifests(s, r).Keys, {r.changesPath, r.pendingPath, r.auditPath};
    assert keys == s.Keys + {r.changesPath, r.pendingPath};
    assert forall p :: p in Pending(b, r) <==> Listed(b, r, p);
    assert forall p :: (p in keys || p == r.auditPath) <==> (p in s || p in three);
    assert Pending(b, r) - {r.auditPath} <= keys <==> forall p :: p in Pending(b, r) ==> p in keys || p == r.auditPath;
  }

  lemma TestsExactly(was: Snapshot, now: Snapshot)
    ensures (forall p :: p in was && Under(p, "tests/") ==> p in now && now[p] == was[p])
       <==> (forall p :: p in was && "tests/" <= p ==> !Differs(was, now, p))
  {}

  lemma AuditPassesExactly(b: Baseline, f: Frozen, s: Snapshot, r: Report)
    ensures AuditTree(b, f, s, r).Ok? <==> AuditPasses(b, f, s, r)
  {
    hide IsSource, SourceFile, Samples, SourceOf, SetOf, Distinct, Changed, Differs, Listed, Pending, WithManifests;
    SourceOfExactly(f.source, s);
    ChangedExactly(b.source, f.source, b.allowed);
    ChangedExactly(b.existingPending, s, r.docs + b.allowed);
    IdentitiesExactly(f.identities, b.identities, f.added);
    TestsExactly(b.source, f.source);
    ListsExactly(b, s, r);
  }

  /** In particular every source file of the tree has, at the audit, the hash that was frozen. */
  lemma AuditFindsSource(b: Baseline, f: Frozen, s: Snapshot, r: Report, p: Path)
    requires AuditTree(b, f, s, r).Ok? && SourceFile(p)
    ensures (p in s <==> p in f.source) && (p in s ==> s[p] == f.source[p])
  {
    hide IsSource, SourceFile, AuditTree;
    AuditPassesExactly(b, f, s, r);
  }

  /** What it records. */
  lemma AuditRecordsExactly(b: Baseline, f: Frozen, s: Snapshot, r: Report)
    requires AuditTree(b, f, s, r).Ok?
    ensures var a := AuditTree(b, f, s, r).value;
      && a.path == r.auditPath && a.source == f.source && Samples(a.source, s) && a.excluded == b.excluded
      && (forall p :: p in a.pending <==> Listed(b, r, p))
      && (forall p :: p in a.hashes <==> Listed(b, r, p) && p != r.auditPath)
      && (forall p :: p in a.hashes ==>
            a.hashes[p] == (if p == r.changesPath then r.changes else if p == r.pendingPath then r.listing else s[p]))
  {
    hide IsSource, SourceFile, Samples, SourceOf, AuditGuards;
    AuditPassesExactly(b, f, s, r);
    SourceOfExactly(f.source, s);
    assert forall p :: p in Pending(b, r) <==> Listed(b, r, p);
  }

  // ----- exactly which edits pass -----

  /** What the guards of an audit ask of the content of one file. */
  predicate AuditAllows(b: Baseline, f: Frozen, r: Report, p: Path, x: Digest) {
    && (IsSource(p) ==> p in f.source && f.source[p] == x)
    && (p in b.kept ==> b.kept[p] == x)
    && (p in b.existingPending && p !in r.docs + b.allowed ==> b.existingPending[p] == x)
  }

  lemma AuditEditExactly(b: Baseline, f: Frozen, s: Snapshot, r: Report, p: Path, x: Digest)
    requires AuditTree(b, f, s, r).Ok? && p in s
    ensures AuditTree(b, f, s[p := x], r).Ok? <==> AuditAllows(b, f, r, p, x)
  {
    hide IsSource, Under;
    var s' := s[p := x];
    assert s'.Keys == s.Keys && WithManifests(s', r).Keys == WithManifests(s, r).Keys;
    SourceOfEdited(s, p, x);
    AgreesEdited(s, b.kept, p, x);
    ChangedEdited(b.existingPending, s, p, x);
    assert SourceOf(s) == f.source;
    assert SourceOf(s') == f.source <==> (IsSource(p) ==> f.source[p] == x);
  }

  lemma SourceOfEdited(s: Snapshot, p: Path, x: Digest)
    requires p in s
    ensures SourceOf(s[p := x]) == if IsSource(p) then SourceOf(s)[p := x] else SourceOf(s)
    ensures IsSource(p) ==> p in SourceOf(s) && (SourceOf(s)[p := x] == SourceOf(s) <==> SourceOf(s)[p] == x)
  {
    hide IsSource;
    if IsSource(p) && SourceOf(s)[p] == x { assert SourceOf(s)[p := x] == SourceOf(s); }
    if IsSource(p) && SourceOf(s)[p := x] == SourceOf(s) { assert SourceOf(s)[p := x][p] == x; }
  }

  lemma AgreesEdited(s: Snapshot, hs: Snapshot, p: Path, x: Digest)
    requires Agrees(s, hs) && p in s
    ensures Agrees(s[p := x], hs) <==> (p in hs ==> hs[p] == x)
  {}

  lemma ChangedEdited(was: Snapshot, s: Snapshot, p: Path, x: Digest)
    requires p in s
    ensures forall q :: q in Changed(was, s[p := x]) <==>
      if q == p then p in was && was[p] != x else q in Changed(was, s)
  {
    var s' := s[p := x];
    forall q
      ensures q in Changed(was, s') <==> if q == p then p in was && was[p] != x else q in Changed(was, s)
    {
      if q == p {
        assert q in s' && s'[q] == x;
      } else {
        assert (q in s' <==> q in s) && (q in s ==> s'[q] == s[q]);
      }
    }
  }

  /** The same for a prepare; the audit file itself is taken over as it is found. */
  predicate PrepareAllows(c: Chain, carry: Carry, p: Path, x: Digest) {
    && (IsSource(p) ==> p in c.audit.source && c.audit.source[p] == x)
    && (p in c.before.kept ==> c.before.kept[p] == x)
    && (p in c.audit.hashes && (carry.Inherit? ==> p != c.audit.path) ==> c.audit.hashes[p] == x)
  }

  lemma PrepareEditExactly(c: Chain, s: Snapshot, carry: Carry, allowed: set<Path>, p: Path, x: Digest)
    requires Prepare(c, s, carry, allowed).Ok? && p in s
    ensures Prepare(c, s[p := x], carry, allowed).Ok? <==> PrepareAllows(c, carry, p, x)
  {
    hide IsSource, Under;
    var s' := s[p := x];
    assert s'.Keys == s.Keys;
    SourceOfEdited(s, p, x);
    AgreesEdited(s, c.before.kept, p, x);
    assert SourceOf(s) == c.audit.source;
    if carry.Inherit? { InheritedEdited(s, c.audit, p, x); } else { AgreesEdited(s, c.audit.hashes, p, x); }
  }

  lemma InheritedEdited(s: Snapshot, a: Audit, p: Path, x: Digest)
    requires a.path in s && p in s && Agrees(s, a.hashes[a.path := s[a.path]])
    ensures Agrees(s[p := x], a.hashes[a.path := s[p := x][a.path]]) <==>
      (p in a.hashes && p != a.path ==> a.hashes[p] == x)
  {
    var was := a.hashes[a.path := s[a.path]];
    AgreesEdited(s, was, p, x);
    if p == a.path {
      assert forall q :: q in was && q != p ==> was[q] == s[q];
    }
  }

  /** A freeze looks at the source alone, and asks of an allow-listed file that it has changed. */
  lemma FreezeEditExactly(b: Baseline, s: Snapshot, ids: seq<string>, p: Path, x: Digest)
    requires Freeze(b, s, ids).Ok? && p in s
    ensures Freeze(b, s[p := x], ids).Ok? <==>
      (IsSource(p) && p in b.source ==> (b.source[p] != x <==> p in b.allowed))
  {
    hide IsSource, SetOf, Distinct;
    SourceOfEdited(s, p, x);
    if IsSource(p) { ChangedEdited(b.source, SourceOf(s), p, x); }
    assert Changed(b.source, SourceOf(s)) == b.allowed;
    var now := Changed(b.source, SourceOf(s[p := x]));
    assert forall q :: q != p ==> (q in now <==> q in b.allowed);
    assert now == b.allowed <==> (p in now <==> p in b.allowed);
  }

  // ----- a file that leaves Git's list -----

  /** The scope that a stage gives to files that are new to it. */
  predicate InScope(st: Stage, p: Path) {
    Under(p, st.report.out) || p in st.report.docs || p in st.report.newTests
  }

  predicate SameEntry(m: Snapshot, n: Snapshot, p: Path) {
    (p in m <==> p in n) && (p in m ==> m[p] == n[p])
  }

  lemma InheritingPrepare(c: Chain, s: Snapshot, allowed: set<Path>, p: Path)
    requires Prepare(c, s, Inherit, allowed).Ok? && p != c.audit.path
    ensures SameEntry(Prepare(c, s, Inherit, allowed).value.existingPending, c.audit.hashes, p)
  {
    hide IsSource, Agrees;
  }

  /** What an audit makes of a file that is in no scope: it has it on record exactly when the
      baseline had it and Git lists it, and then as it was; and it checks it in any case. */
  lemma AuditOutOfScope(b: Baseline, f: Frozen, s: Snapshot, r: Report, p: Path)
    requires AuditTree(b, f, s, r).Ok? && p !in r.docs + b.allowed + r.newTests + b.excluded && !Under(p, r.out)
    ensures var a := AuditTree(b, f, s, r).value;
      && p != r.auditPath && (p in a.hashes <==> p in b.existingPending && p in r.git)
      && (p in a.hashes ==> a.hashes[p] == b.existingPending[p])
    ensures p in b.existingPending ==> p in s && s[p] == b.existingPending[p]
    ensures p in r.git ==> p in b.existingPending
  {
    hide IsSource, Under, Agrees;
    if p in b.existingPending {
      AuditChecks(b, f, s, r, p);
    } else {
      assert p !in Pending(b, r);
    }
  }

  lemma InheritingStage(c: Chain, st: Stage, p: Path)
    requires Linked(c) && RunStage(c, st).Ok? && st.carry.Inherit? && p !in st.allowed && !InScope(st, p)
    requires p != c.audit.path && p !in c.before.excluded
    ensures var c' := RunStage(c, st).value;
      && p != c'.audit.path && p !in c'.before.excluded
      && (p in c'.audit.hashes <==> p in c.audit.hashes && p in st.report.git)
      && (p in c'.audit.hashes ==> c'.audit.hashes[p] == c.audit.hashes[p])
    ensures p in c.audit.hashes ==> p in st.atAudit && st.atAudit[p] == c.audit.hashes[p]
    ensures p in st.report.git ==> p in c.audit.hashes
  {
    hide IsSource, Agrees, Under, Prepare, Freeze, AuditTree;
    StageLinks(c, st);
    StageGuards(c, st);
    var b := Prepare(c, st.atPrepare, st.carry, st.allowed).value;
    InheritingPrepare(c, st.atPrepare, st.allowed, p);
    AuditOutOfScope(b, Freeze(b, st.atFreeze, st.ids).value, st.atAudit, st.report, p);
    AuditIsAt(b, Freeze(b, st.atFreeze, st.ids).value, st.atAudit, st.report);
  }

  lemma AuditIsAt(b: Baseline, f: Frozen, s: Snapshot, r: Report)
    requires AuditTree(b, f, s, r).Ok?
    ensures AuditTree(b, f, s, r).value.path == r.auditPath
  {
    hide IsSource, Agrees, AuditGuards;
  }

  lemma LinkedSays(c: Chain)
    requires Linked(c)
    ensures c.audit.path !in c.audit.hashes && c.audit.hashes.Keys !! c.before.excluded
  {}

  /** A file is on record after any number of inheriting stages, none of which names it, exactly
      when every one of them listed it, and then with its first hash.  Up to the first stage that
      does not list it, and in that stage, every audit has found that hash. */
  lemma {:induction false} CarriedExactly(c: Chain, sts: seq<Stage>, p: Path)
    requires Linked(c) && RunChain(c, sts).Ok? && p in c.audit.hashes
    requires forall i :: 0 <= i < |sts| ==> sts[i].carry.Inherit? && p !in sts[i].allowed && !InScope(sts[i], p)
    ensures var a := RunChain(c, sts).value.audit;
      && p != a.path && p !in RunChain(c, sts).value.before.excluded
      && (p in a.hashes <==> forall i :: 0 <= i < |sts| ==> p in sts[i].report.git)
      && (p in a.hashes ==> a.hashes[p] == c.audit.hashes[p])
    ensures forall i :: 0 <= i < |sts| && (forall j :: 0 <= j < i ==> p in sts[j].report.git) ==>
      p in sts[i].atAudit && sts[i].atAudit[p] == c.audit.hashes[p]
  {
    hide RunStage, RunChain, Linked, InScope;
    if sts == [] {
      NoStages(c);
      LinkedSays(c);
    } else {
      var n := |sts| - 1;
      var front := sts[..n];
      assert forall i :: 0 <= i < n ==> front[i] == sts[i];
      ChainUnfolds(c, sts);
      CarriedExactly(c, front, p);
      ChainLinks(c, front);
      InheritingStage(RunChain(c, front).value, sts[n], p);
    }
  }

  lemma StageHeldExactly(c: Chain, st: Stage, p: Path, d: Digest)
    requires Linked(c) && RunStage(c, st).Ok? && st.carry.Inherit? && p !in st.allowed && !InScope(st, p)
    requires p != c.audit.path && p !in c.before.excluded && (p in c.audit.hashes ==> c.audit.hashes[p] == d)
    requires !IsSource(p) && p !in c.before.kept && p in st.atAudit
    ensures (forall x :: RunStage(c, EditedAtAudit(st, p, x)).Ok? ==> x == d) <==> p in c.audit.hashes
  {
    hide RunStage, Linked, IsSource, Agrees, Under;
    if p in c.audit.hashes {
      forall x | RunStage(c, EditedAtAudit(st, p, x)).Ok? ensures x == d {
        InheritingStage(c, EditedAtAudit(st, p, x), p);
      }
    } else {
      StageTakesNothingBack(c, st, p);
      var x := d + "x";
      UnlistedUnseen(c, st, p, x);
      assert |x| == |d| + 1 && RunStage(c, EditedAtAudit(st, p, x)).Ok?;
    }
  }

  lemma LastEditedIs(c: Chain, sts: seq<Stage>, p: Path, x: Digest)
    requires sts != [] && RunChain(c, sts[..|sts| - 1]).Ok?
    ensures LastEdited(c, sts, p, x)
         == RunStage(RunChain(c, sts[..|sts| - 1]).value, EditedAtAudit(sts[|sts| - 1], p, x))
  {
    hide RunStage;
    assert sts[|sts| - 1 := EditedAtAudit(sts[|sts| - 1], p, x)][..|sts| - 1] == sts[..|sts| - 1];
  }

  /** So the content at an audit is determined exactly as long as all stages before have listed the
      file; a file that was dropped before can hold anything. */
  lemma PendingHeldExactly(c: Chain, sts: seq<Stage>, p: Path)
    requires Linked(c) && RunChain(c, sts).Ok? && sts != [] && p in c.audit.hashes
    requires forall i :: 0 <= i < |sts| ==> sts[i].carry.Inherit? && p !in sts[i].allowed && !InScope(sts[i], p)
    requires !IsSource(p) && p !in c.before.kept && p in sts[|sts| - 1].atAudit
    ensures (forall x :: LastEdited(c, sts, p, x).Ok? ==> x == c.audit.hashes[p]) <==>
      forall j :: 0 <= j < |sts| - 1 ==> p in sts[j].report.git
  {
    hide RunStage, RunChain, LastEdited, Linked, InScope, IsSource, Agrees;
    var n := |sts| - 1;
    var front := sts[..n];
    assert forall i :: 0 <= i < n ==> front[i] == sts[i];
    ChainUnfolds(c, sts);
    CarriedExactly(c, front, p);
    ChainLinks(c, front);
    KeptForever(c, front);
    var c' := RunChain(c, front).value;
    StageHeldExactly(c', sts[n], p, c.audit.hashes[p]);
    forall x ensures LastEdited(c, sts, p, x) == RunStage(c', EditedAtAudit(sts[n], p, x)) {
      LastEditedIs(c, sts, p, x);
    }
    assert (forall j :: 0 <= j < n ==> p in front[j].report.git)
      <==> (forall j :: 0 <= j < n ==> p in sts[j].report.git);
  }

  function EditedAtAudit(st: Stage, p: Path, x: Digest): Stage {
    st.(atAudit := st.atAudit[p := x])
  }

  /** The chain with something else in `p` at its last audit. */
  function LastEdited(c: Chain, sts: seq<Stage>, p: Path, x: Digest): Result<Chain>
    requires sts != []
  {
    RunChain(c, sts[|sts| - 1 := EditedAtAudit(sts[|sts| - 1], p, x)])
  }

  /** The stage that drops a file from its list still checks it, and does not record it. */
  lemma DroppedIsCheckedOnce(c: Chain, st: Stage, p: Path)
    requires Linked(c) && RunStage(c, st).Ok? && st.carry.Inherit?
    requires p in c.audit.hashes && p !in st.report.git + {st.report.changesPath, st.report.pendingPath}
    ensures p !in st.report.docs + st.allowed ==> p in st.atAudit && st.atAudit[p] == c.audit.hashes[p]
    ensures p !in RunStage(c, st).value.audit.hashes
  {
    hide IsSource, Agrees;
    StageGuards(c, st);
    var b := RunStage(c, st).value.before;
    assert p in b.existingPending && b.existingPending[p] == c.audit.hashes[p];
    assert p in Changed(b.existingPending, st.atAudit) || (p in st.atAudit && st.atAudit[p] == b.existingPending[p]);
  }

  lemma StageTakesNothingBack(c: Chain, st: Stage, p: Path)
    requires Linked(c) && RunStage(c, st).Ok? && st.carry.Inherit?
    requires p !in c.audit.hashes && p != c.audit.path && p !in c.before.excluded && !InScope(st, p)
    ensures p !in st.report.git && p !in RunStage(c, st).value.audit.hashes && p != RunStage(c, st).value.audit.path
    ensures p !in RunStage(c, st).value.before.existingPending
  {
    hide IsSource, Agrees;
    StageLinks(c, st);
    StageGuards(c, st);
    var b := RunStage(c, st).value.before;
    assert p !in b.existingPending && b.excluded == c.before.excluded;
    assert p !in Pending(b, st.report);
    assert RunStage(c, st).value.audit.path == st.report.auditPath;
  }

  /** A file that is on no record comes back into none, over any number of inheriting stages, and
      a stage that lists it again does not pass, unless some stage has it in its scope. */
  lemma {:induction false} DroppedStaysOut(c: Chain, sts: seq<Stage>, p: Path)
    requires Linked(c) && RunChain(c, sts).Ok?
    requires p !in c.audit.hashes && p != c.audit.path && p !in c.before.excluded
    requires forall i :: 0 <= i < |sts| ==> sts[i].carry.Inherit? && !InScope(sts[i], p)
    ensures p !in RunChain(c, sts).value.audit.hashes && p != RunChain(c, sts).value.audit.path
    ensures forall i :: 0 <= i < |sts| ==> p !in sts[i].report.git
  {
    hide RunStage, Linked, InScope;
    if sts != [] {
      var front := sts[..|sts| - 1];
      assert forall i :: 0 <= i < |front| ==> front[i] == sts[i];
      DroppedStaysOut(c, front, p);
      ChainLinks(c, front);
      ChainUnfolds(c, sts);
      StageTakesNothingBack(RunChain(c, front).value, sts[|sts| - 1], p);
    }
  }

  /** So from then on it can hold anything: at every later audit the records come out the same. */
  lemma DroppedIsUnseen(c: Chain, sts: seq<Stage>, p: Path, x: Digest)
    requires Linked(c) && sts != [] && RunChain(c, sts).Ok?
    requires p !in c.audit.hashes && p != c.audit.path && p !in c.before.excluded
    requires forall i :: 0 <= i < |sts| ==> sts[i].carry.Inherit? && !InScope(sts[i], p)
    requires !IsSource(p) && p !in c.before.kept && p in sts[|sts| - 1].atAudit
    ensures var st := sts[|sts| - 1];
      RunChain(c, sts[|sts| - 1 := st.(atAudit := st.atAudit[p := x])]) == RunChain(c, sts)
  {
    hide RunStage, Linked, InScope, IsSource, Agrees;
    var n := |sts| - 1;
    var st, front := sts[n], sts[..n];
    DroppedStaysOut(c, sts, p);
    ChainLinks(c, front);
    KeptForever(c, front);
    ChainUnfolds(c, sts);
    var c' := RunChain(c, front).value;
    assert forall i :: 0 <= i < |front| ==> front[i] == sts[i];
    DroppedStaysOut(c, front, p);
    StageTakesNothingBack(c', st, p);
    UnlistedUnseen(c', st, p, x);
    assert sts[n := st.(atAudit := st.atAudit[p := x])][..n] == front;
  }

  /** A stage that takes its baseline from Git's list adopts whatever it finds there: no earlier
      hash stands against it. */
  lemma ListingAdopts(c: Chain, s: Snapshot, git: set<Path>, out: string, allowed: set<Path>, p: Path, x: Digest)
    requires Prepare(c, s, Listing(git, out), allowed).Ok?
    requires p in git - c.before.excluded && !Under(p, out)
    requires p !in c.audit.hashes && !IsSource(p) && p !in c.before.kept
    ensures Prepare(c, s[p := x], Listing(git, out), allowed).Ok?
    ensures p in Prepare(c, s[p := x], Listing(git, out), allowed).value.existingPending
    ensures Prepare(c, s[p := x], Listing(git, out), allowed).value.existingPending[p] == x
  {
    hide IsSource;
    assert SourceOf(s[p := x]) == SourceOf(s);
  }

  /** With inherited baselines, what a stage lists as added is exactly what it adds. */
  lemma AddedExactly(c: Chain, st: Stage)
    requires Linked(c) && RunStage(c, st).Ok? && st.carry.Inherit?
    ensures var f := RunStage(c, st).value.frozen;
      SetOf(f.identities) == SetOf(c.frozen.identities) + f.added && SetOf(c.frozen.identities) !! f.added
  {
    hide IsSource, Agrees;
    StageLinks(c, st);
    StageGuards(c, st);
  }

  /** A prepare confirms every hash of the audit it builds on. */
  lemma PrepareConfirms(c: Chain, s: Snapshot, carry: Carry, allowed: set<Path>, p: Path)
    requires Prepare(c, s, carry, allowed).Ok? && p in c.audit.hashes && p != c.audit.path
    ensures p in s && s[p] == c.audit.hashes[p]
  {
    hide IsSource;
    var inherited := if c.audit.path in s then c.audit.hashes[c.audit.path := s[c.audit.path]] else c.audit.hashes;
    assert p in inherited && inherited[p] == c.audit.hashes[p];
  }

  lemma NoStages(c: Chain)
    ensures RunChain(c, []) == Ok(c)
  {}

  lemma ChainExtends(c: Chain, sts: seq<Stage>, st: Stage)
    requires RunChain(c, sts).Ok?
    ensures RunChain(c, sts + [st]) == RunStage(RunChain(c, sts).value, st)
  {
    hide RunStage;
    assert (sts + [st])[..|sts|] == sts;
  }

  // ----- what the chain does not see -----

  lemma AuditUnseen(b: Baseline, f: Frozen, s: Snapshot, r: Report, p: Path, x: Digest)
    requires AuditTree(b, f, s, r).Ok? && p in s
    requires !IsSource(p) && p !in b.kept && p !in r.git && p !in b.existingPending
    ensures AuditTree(b, f, s[p := x], r) == AuditTree(b, f, s, r)
  {
    hide IsSource, Under, Distinct, SetOf;
    var s' := s[p := x];
    assert SourceOf(s') == SourceOf(s);
    assert Changed(b.existingPending, s') == Changed(b.existingPending, s);
    AgreesEdited(s, b.kept, p, x);
    ManifestsUnseen(s, r, Pending(b, r) - {r.auditPath}, p, x);
    assert AuditGuards(b, f, s', r) && (CanCreate(s', r) <==> CanCreate(s, r));
  }

  lemma ManifestsUnseen(s: Snapshot, r: Report, hashed: set<Path>, p: Path, x: Digest)
    requires p in s && (p !in hashed || p in {r.changesPath, r.pendingPath})
    requires hashed <= WithManifests(s, r).Keys
    ensures WithManifests(s[p := x], r).Keys == WithManifests(s, r).Keys
    ensures (map q | q in hashed :: WithManifests(s[p := x], r)[q]) == (map q | q in hashed :: WithManifests(s, r)[q])
  {
    var m, m' := WithManifests(s, r), WithManifests(s[p := x], r);
    assert m'.Keys == m.Keys && forall q :: q in hashed ==> m'[q] == m[q];
  }

  /** A file the stage has no hash of, does not list and does not count as source can hold
      anything at audit time: the stage's records come out the same. */
  lemma UnlistedUnseen(c: Chain, st: Stage, p: Path, x: Digest)
    requires RunStage(c, st).Ok? && p in st.atAudit
    requires !IsSource(p) && p !in c.before.kept && p !in st.report.git
    requires p !in RunStage(c, st).value.before.existingPending
    ensures RunStage(c, st.(atAudit := st.atAudit[p := x])) == RunStage(c, st)
  {
    hide IsSource, AuditTree, Freeze;
    var b := Prepare(c, st.atPrepare, st.carry, st.allowed).value;
    AuditUnseen(b, Freeze(b, st.atFreeze, st.ids).value, st.atAudit, st.report, p, x);
  }
}
