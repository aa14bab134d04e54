/** How the records of the stages go from step to step: as files of the tree, which anyone may edit
    between any two steps like all other files.  The chain of `Custody` holds for every course of
    stages whose steps read what was written; this module says which of these reads the guards
    secure, and what happens where they do not. */
module Handover {
  import opened Outcome
  import opened Text
  import opened Trees
  import opened Custody

  /** How the three record files are read; they can hold anything, also nothing readable. */
  datatype Format = Format(sha: Sha, before: string -> Option<Baseline>, frozen: string -> Option<Frozen>,
                           audit: string -> Option<Audit>)

  /** Where a stage keeps its records. */
  datatype Files = Files(before: Path, frozen: Path, audit: Path)

  /** The content of an audit file does not say where it is. */
  function ReadAudit(fmt: Format, t: Tree, fs: Files): Result<Audit> {
    var a :- Read(t, fs.audit, fmt.audit);
    Ok(a.(path := fs.audit))
  }

  /** One stage, with the tree as it happened to be at each of its three steps. */
  datatype TreeStage = TreeStage(files: Files, atPrepare: Tree, carry: Carry, allowed: set<Path>,
                                 atFreeze: Tree, ids: seq<string>, atAudit: Tree, report: Report)

  // ----- the three steps, reading their records from the tree -----

  function PrepareTree(fmt: Format, prev: Files, st: TreeStage): Result<Baseline> {
    var t := st.atPrepare;
    if st.files.before in t then Err(GuardFailed)
    else
      var b :- Read(t, prev.before, fmt.before);
      var a :- ReadAudit(fmt, t, prev);
      var f :- if st.carry.Inherit? then Read(t, prev.frozen, fmt.frozen) else Ok(Frozen(map[], [], {}));
      Prepare(Chain(b, f, a), Hashes(fmt.sha, t), st.carry, st.allowed)
  }

  function FreezeTree(fmt: Format, st: TreeStage): Result<Frozen> {
    var t := st.atFreeze;
    var b :- Read(t, st.files.before, fmt.before);
    if st.files.frozen in t then Err(GuardFailed) else Freeze(b, Hashes(fmt.sha, t), st.ids)
  }

  function ReportOf(st: TreeStage): Report {
    st.report.(auditPath := st.files.audit)
  }

  function AuditFiles(fmt: Format, st: TreeStage): Result<Audit> {
    var t := st.atAudit;
    var b :- Read(t, st.files.before, fmt.before);
    var f :- Read(t, st.files.frozen, fmt.frozen);
    AuditTree(b, f, Hashes(fmt.sha, t), ReportOf(st))
  }

  /** What the stage writes when all three steps pass. */
  function RunTreeStage(fmt: Format, prev: Files, st: TreeStage): Result<Chain> {
    var b :- PrepareTree(fmt, prev, st);
    var f :- FreezeTree(fmt, st);
    var a :- AuditFiles(fmt, st);
    Ok(Chain(b, f, a))
  }

  // ----- reading what was written -----

  predicate OldRecordsRead(fmt: Format, prev: Files, c: Chain, st: TreeStage) {
    && Read(st.atPrepare, prev.before, fmt.before) == Ok(c.before)
    && (st.carry.Inherit? ==> Read(st.atPrepare, prev.frozen, fmt.frozen) == Ok(c.frozen))
  }

  predicate OldAuditRead(fmt: Format, prev: Files, c: Chain, st: TreeStage) {
    ReadAudit(fmt, st.atPrepare, prev) == Ok(c.audit)
  }

  predicate OwnRecordsRead(fmt: Format, st: TreeStage, c: Chain) {
    && Read(st.atFreeze, st.files.before, fmt.before) == Ok(c.before)
    && Read(st.atAudit, st.files.before, fmt.before) == Ok(c.before)
    && Read(st.atAudit, st.files.frozen, fmt.frozen) == Ok(c.frozen)
  }

  /** The stage as `Custody` sees it. */
  function Seen(fmt: Format, st: TreeStage): Stage {
    Stage(Hashes(fmt.sha, st.atPrepare), st.carry, st.allowed, Hashes(fmt.sha, st.atFreeze), st.ids,
          Hashes(fmt.sha, st.atAudit), ReportOf(st))
  }

  lemma StageIsSeen(fmt: Format, prev: Files, c: Chain, st: TreeStage, c': Chain)
    requires RunTreeStage(fmt, prev, st) == Ok(c')
    requires OldRecordsRead(fmt, prev, c, st) && OldAuditRead(fmt, prev, c, st) && OwnRecordsRead(fmt, st, c')
    ensures RunStage(c, Seen(fmt, st)) == Ok(c')
  {
    hide Freeze, AuditTree, IsSource, Agrees, Read, ReadAudit;
    var s := Hashes(fmt.sha, st.atPrepare);
    assert st.carry.Listing? ==>
      Prepare(Chain(c.before, Frozen(map[], [], {}), c.audit), s, st.carry, st.allowed)
        == Prepare(c, s, st.carry, st.allowed);
  }

  /** Every record is created where there was none, so no step of a stage can be taken again on a
      tree that has its record. */
  lemma RecordsAreNew(fmt: Format, prev: Files, st: TreeStage)
    ensures st.files.before in st.atPrepare ==> PrepareTree(fmt, prev, st).Err?
    ensures st.files.frozen in st.atFreeze ==> FreezeTree(fmt, st).Err?
    ensures st.files.audit in st.atAudit ==> AuditFiles(fmt, st).Err?
  {
    hide IsSource, Prepare, Freeze, AuditGuards;
  }

  // ----- a course of stages -----

  /** What was written at the root and by each stage. */
  datatype Course = Course(root: Files, first: Chain, stages: seq<TreeStage>, written: seq<Chain>)

  function FilesBefore(h: Course, i: nat): Files
    requires i <= |h.stages|
  {
    if i == 0 then h.root else h.stages[i - 1].files
  }

  function WrittenBefore(h: Course, i: nat): Chain
    requires i <= |h.written|
  {
    if i == 0 then h.first else h.written[i - 1]
  }

  ghost predicate Passed(fmt: Format, h: Course) {
    && Linked(h.first) && |h.written| == |h.stages|
    && forall i: nat :: i < |h.stages| ==> RunTreeStage(fmt, FilesBefore(h, i), h.stages[i]) == Ok(h.written[i])
  }

  predicate FaithfulAt(fmt: Format, h: Course, i: nat)
    requires i < |h.stages| == |h.written|
  {
    && OldRecordsRead(fmt, FilesBefore(h, i), WrittenBefore(h, i), h.stages[i])
    && OldAuditRead(fmt, FilesBefore(h, i), WrittenBefore(h, i), h.stages[i])
    && OwnRecordsRead(fmt, h.stages[i], h.written[i])
  }

  /** Every step reads what was written. */
  ghost predicate Faithful(fmt: Format, h: Course) {
    |h.stages| == |h.written| && forall i: nat :: i < |h.stages| ==> FaithfulAt(fmt, h, i)
  }

  function AllSeen(fmt: Format, sts: seq<TreeStage>): seq<Stage> {
    seq(|sts|, i requires 0 <= i < |sts| => Seen(fmt, sts[i]))
  }

  /** A faithful course is a chain, at each of its stages. */
  lemma {:induction false} CourseIsChain(fmt: Format, h: Course, n: nat)
    requires Passed(fmt, h) && Faithful(fmt, h) && n <= |h.stages|
    ensures RunChain(h.first, AllSeen(fmt, h.stages[..n])) == Ok(WrittenBefore(h, n))
  {
    hide RunStage, RunTreeStage, RunChain, Linked, Seen, OldRecordsRead, OldAuditRead, OwnRecordsRead;
    if n == 0 {
      NoStages(h.first);
      assert AllSeen(fmt, h.stages[..0]) == [];
    } else {
      CourseIsChain(fmt, h, n - 1);
      assert FaithfulAt(fmt, h, n - 1);
      StageIsSeen(fmt, FilesBefore(h, n - 1), WrittenBefore(h, n - 1), h.stages[n - 1], h.written[n - 1]);
      ChainExtends(h.first, AllSeen(fmt, h.stages[..n - 1]), Seen(fmt, h.stages[n - 1]));
      assert AllSeen(fmt, h.stages[..n]) == AllSeen(fmt, h.stages[..n - 1]) + [Seen(fmt, h.stages[n - 1])];
    }
  }

  /** Protected files: at each prepare and at each audit they have their root hashes. */
  lemma ProtectedOnCourse(fmt: Format, h: Course, i: nat, p: Path)
    requires Passed(fmt, h) && Faithful(fmt, h) && i < |h.stages| && p in h.first.before.kept
    ensures p in h.stages[i].atPrepare && fmt.sha(h.stages[i].atPrepare[p]) == h.first.before.kept[p]
    ensures p in h.stages[i].atAudit && fmt.sha(h.stages[i].atAudit[p]) == h.first.before.kept[p]
  {
    hide RunChain, Linked;
    var n := |h.stages|;
    assert h.stages[..n] == h.stages;
    CourseIsChain(fmt, h, n);
    KeptForever(h.first, AllSeen(fmt, h.stages));
    assert AllSeen(fmt, h.stages)[i] == Seen(fmt, h.stages[i]);
  }

  /** Pending files: as long as the stages before list them, and no stage allows them to change,
      they have their first hash. */
  lemma PendingOnCourse(fmt: Format, h: Course, i: nat, p: Path)
    requires Passed(fmt, h) && Faithful(fmt, h) && i < |h.stages| && p in h.first.audit.hashes
    requires forall j :: 0 <= j < i ==> Carried(Seen(fmt, h.stages[j]), p)
    requires Checked(Seen(fmt, h.stages[i]), p)
    ensures p in h.stages[i].atAudit && fmt.sha(h.stages[i].atAudit[p]) == h.first.audit.hashes[p]
  {
    hide RunChain, Linked, Carried, Checked, RunTreeStage, OldRecordsRead, OldAuditRead, OwnRecordsRead, Seen, RunStage;
    CourseIsChain(fmt, h, i);
    var sts := AllSeen(fmt, h.stages[..i]);
    forall j | 0 <= j < |sts| ensures Carried(sts[j], p) { assert sts[j] == Seen(fmt, h.stages[j]); }
    PendingCustody(h.first, sts, p);
    ChainLinks(h.first, sts);
    assert FaithfulAt(fmt, h, i);
    StageIsSeen(fmt, FilesBefore(h, i), WrittenBefore(h, i), h.stages[i], h.written[i]);
    StageChecksPending(WrittenBefore(h, i), Seen(fmt, h.stages[i]), p);
    SeenAtAudit(fmt, h.stages[i]);
  }

  lemma SeenAtAudit(fmt: Format, st: TreeStage)
    ensures Seen(fmt, st).atAudit == Hashes(fmt.sha, st.atAudit)
  {}

  /** Source files that no stage allows to change, and root tests in any case, are the same. */
  lemma SourceOnCourse(fmt: Format, h: Course, i: nat, p: Path)
    requires Passed(fmt, h) && Faithful(fmt, h) && i < |h.stages| && p in h.first.audit.source
    requires Under(p, "tests/") || forall j :: 0 <= j <= i ==> p !in h.stages[j].allowed
    ensures p in h.stages[i].atAudit && fmt.sha(h.stages[i].atAudit[p]) == h.first.audit.source[p]
  {
    hide RunChain, Linked, Under, IsSource, Agrees, RunTreeStage, FaithfulAt;
    CourseIsChain(fmt, h, i + 1);
    var sts := AllSeen(fmt, h.stages[..i + 1]);
    assert forall j :: 0 <= j < |sts| ==> sts[j].allowed == h.stages[j].allowed;
    SourceCustody(h.first, sts, p);
    AuditSamples(fmt, FilesBefore(h, i), h.stages[i], h.written[i]);
  }

  lemma AuditSamples(fmt: Format, prev: Files, st: TreeStage, c: Chain)
    requires RunTreeStage(fmt, prev, st) == Ok(c)
    ensures c.audit.source == SourceOf(Hashes(fmt.sha, st.atAudit))
  {
    hide IsSource, Agrees, Freeze, Prepare;
  }

  /** Test identities: none of the root's is lost or repeated; and none that a later stage added,
      while the stages inherit. */
  lemma IdentitiesOnCourse(fmt: Format, h: Course, i: nat)
    requires Passed(fmt, h) && Faithful(fmt, h) && i < |h.stages|
    ensures SetOf(h.first.before.identities) <= SetOf(h.written[i].frozen.identities)
    ensures Distinct(h.written[i].frozen.identities)
    ensures (forall j :: 0 <= j <= i ==> h.stages[j].carry.Inherit?) ==>
      SetOf(h.first.frozen.identities) <= SetOf(h.written[i].frozen.identities)
  {
    hide RunChain, Linked, SetOf, Distinct, RunTreeStage, FaithfulAt;
    CourseIsChain(fmt, h, i + 1);
    var sts := AllSeen(fmt, h.stages[..i + 1]);
    assert forall j :: 0 <= j < |sts| ==> sts[j].carry == h.stages[j].carry;
    IdentitiesSurvive(h.first, sts);
  }

  // ----- exactly what holds a file, whatever the steps read -----

  /** The records as the audit of a passing stage reads them. */
  function BaselineAtAudit(fmt: Format, st: TreeStage): Baseline
    requires AuditFiles(fmt, st).Ok?
  {
    Read(st.atAudit, st.files.before, fmt.before).value
  }

  function FrozenAtAudit(fmt: Format, st: TreeStage): Frozen
    requires AuditFiles(fmt, st).Ok?
  {
    Read(st.atAudit, st.files.frozen, fmt.frozen).value
  }

  /** The records as a passing prepare reads them. */
  function ReadAtPrepare(fmt: Format, prev: Files, st: TreeStage): Chain
    requires PrepareTree(fmt, prev, st).Ok?
  {
    var t := st.atPrepare;
    Chain(Read(t, prev.before, fmt.before).value,
          if st.carry.Inherit? then Read(t, prev.frozen, fmt.frozen).value else Frozen(map[], [], {}),
          ReadAudit(fmt, t, prev).value)
  }

  function WithAudit(st: TreeStage, p: Path, x: string): TreeStage {
    st.(atAudit := st.atAudit[p := x])
  }

  function WithPrepare(st: TreeStage, p: Path, x: string): TreeStage {
    st.(atPrepare := st.atPrepare[p := x])
  }

  lemma OneEdited(sha: Sha, t: Tree, p: Path, x: string)
    ensures Hashes(sha, t[p := x]) == Hashes(sha, t)[p := sha(x)]
  {}

  lemma StageParts(fmt: Format, prev: Files, st: TreeStage)
    ensures RunTreeStage(fmt, prev, st).Ok? <==>
      PrepareTree(fmt, prev, st).Ok? && FreezeTree(fmt, st).Ok? && AuditFiles(fmt, st).Ok?
  {
    hide PrepareTree, FreezeTree, AuditFiles;
  }

  /** Which contents of one file the audit of a passing stage lets pass, by the records it reads. */
  lemma AuditPassesExactly(fmt: Format, prev: Files, st: TreeStage, p: Path, x: string)
    requires RunTreeStage(fmt, prev, st).Ok? && p in st.atAudit && p !in {st.files.before, st.files.frozen}
    ensures AuditFiles(fmt, st).Ok?
    ensures RunTreeStage(fmt, prev, WithAudit(st, p, x)).Ok? <==>
      AuditAllows(BaselineAtAudit(fmt, st), FrozenAtAudit(fmt, st), ReportOf(st), p, fmt.sha(x))
  {
    hide RunTreeStage, PrepareTree, FreezeTree, AuditTree, AuditAllows;
    var st' := WithAudit(st, p, x);
    StageParts(fmt, prev, st);
    StageParts(fmt, prev, st');
    PrepareSame(fmt, prev, st, st');
    FreezeSame(fmt, st, st');
    OneEdited(fmt.sha, st.atAudit, p, x);
    var b, f := BaselineAtAudit(fmt, st), FrozenAtAudit(fmt, st);
    AuditEditExactly(b, f, Hashes(fmt.sha, st.atAudit), ReportOf(st), p, fmt.sha(x));
  }

  lemma PreparePassesExactly(fmt: Format, prev: Files, st: TreeStage, p: Path, x: string)
    requires RunTreeStage(fmt, prev, st).Ok? && p in st.atPrepare
    requires p !in {prev.before, prev.frozen, prev.audit, st.files.before}
    ensures PrepareTree(fmt, prev, st).Ok?
    ensures RunTreeStage(fmt, prev, WithPrepare(st, p, x)).Ok? <==>
      PrepareAllows(ReadAtPrepare(fmt, prev, st), st.carry, p, fmt.sha(x))
  {
    hide RunTreeStage, FreezeTree, AuditFiles, Prepare, PrepareAllows;
    var st' := WithPrepare(st, p, x);
    StageParts(fmt, prev, st);
    StageParts(fmt, prev, st');
    FreezeSame(fmt, st, st');
    AuditSame(fmt, st, st');
    OneEdited(fmt.sha, st.atPrepare, p, x);
    var c, s := ReadAtPrepare(fmt, prev, st), Hashes(fmt.sha, st.atPrepare);
    PrepareEditExactly(c, s, st.carry, st.allowed, p, fmt.sha(x));
  }

  lemma AuditSame(fmt: Format, st: TreeStage, st': TreeStage)
    requires st'.atAudit == st.atAudit && st'.files == st.files && st'.report == st.report
    ensures AuditFiles(fmt, st') == AuditFiles(fmt, st)
  {}

  /** Every content of `p` with which the stage passes has the hash `d`. */
  ghost predicate HeldAtAudit(fmt: Format, prev: Files, st: TreeStage, p: Path, d: Digest) {
    forall x :: RunTreeStage(fmt, prev, WithAudit(st, p, x)).Ok? ==> fmt.sha(x) == d
  }

  ghost predicate HeldAtPrepare(fmt: Format, prev: Files, st: TreeStage, p: Path, d: Digest) {
    forall x :: RunTreeStage(fmt, prev, WithPrepare(st, p, x)).Ok? ==> fmt.sha(x) == d
  }

  predicate Says(m: Snapshot, p: Path, d: Digest) {
    p in m && m[p] == d
  }

  /** Some record that the audit reads, and whose entries bind it, has this hash for the file. */
  predicate AuditReads(b: Baseline, f: Frozen, r: Report, p: Path, d: Digest) {
    || (IsSource(p) && Says(f.source, p, d)) || Says(b.kept, p, d)
    || (p !in r.docs + b.allowed && Says(b.existingPending, p, d))
  }

  predicate PrepareReads(c: Chain, carry: Carry, p: Path, d: Digest) {
    || (IsSource(p) && Says(c.audit.source, p, d)) || Says(c.before.kept, p, d)
    || ((carry.Inherit? ==> p != c.audit.path) && Says(c.audit.hashes, p, d))
  }

  lemma OtherContent(sha: Sha, x: string)
    requires Injective(sha)
    ensures sha(x + "x") != sha(x)
  {
    assert |x + "x"| == |x| + 1;
  }

  /** An audit holds a file to a hash exactly when such a record that it reads says so: there is
      no other protection, and no edit of anything else takes it away. */
  lemma HeldAtAuditExactly(fmt: Format, prev: Files, st: TreeStage, p: Path, d: Digest)
    requires Injective(fmt.sha) && RunTreeStage(fmt, prev, st).Ok?
    requires p in st.atAudit && p !in {st.files.before, st.files.frozen}
    ensures AuditFiles(fmt, st).Ok?
    ensures HeldAtAudit(fmt, prev, st, p, d) <==>
      AuditReads(BaselineAtAudit(fmt, st), FrozenAtAudit(fmt, st), ReportOf(st), p, d)
  {
    hide RunTreeStage, IsSource, AuditFiles, Injective;
    StageParts(fmt, prev, st);
    var x := st.atAudit[p];
    forall y ensures RunTreeStage(fmt, prev, WithAudit(st, p, y)).Ok? <==>
      AuditAllows(BaselineAtAudit(fmt, st), FrozenAtAudit(fmt, st), ReportOf(st), p, fmt.sha(y))
    {
      AuditPassesExactly(fmt, prev, st, p, y);
    }
    assert st.atAudit[p := x] == st.atAudit && WithAudit(st, p, x) == st;
    OtherContent(fmt.sha, x);
    assert HeldAtAudit(fmt, prev, st, p, d) ==>
      fmt.sha(x) == d && !RunTreeStage(fmt, prev, WithAudit(st, p, x + "x")).Ok?;
  }

  lemma HeldAtPrepareExactly(fmt: Format, prev: Files, st: TreeStage, p: Path, d: Digest)
    requires Injective(fmt.sha) && RunTreeStage(fmt, prev, st).Ok?
    requires p in st.atPrepare && p !in {prev.before, prev.frozen, prev.audit, st.files.before}
    ensures PrepareTree(fmt, prev, st).Ok?
    ensures HeldAtPrepare(fmt, prev, st, p, d) <==> PrepareReads(ReadAtPrepare(fmt, prev, st), st.carry, p, d)
  {
    hide RunTreeStage, IsSource, PrepareTree, Injective;
    StageParts(fmt, prev, st);
    var x := st.atPrepare[p];
    forall y ensures RunTreeStage(fmt, prev, WithPrepare(st, p, y)).Ok? <==>
      PrepareAllows(ReadAtPrepare(fmt, prev, st), st.carry, p, fmt.sha(y))
    {
      PreparePassesExactly(fmt, prev, st, p, y);
    }
    assert st.atPrepare[p := x] == st.atPrepare && WithPrepare(st, p, x) == st;
    OtherContent(fmt.sha, x);
    assert HeldAtPrepare(fmt, prev, st, p, d) ==>
      fmt.sha(x) == d && !RunTreeStage(fmt, prev, WithPrepare(st, p, x + "x")).Ok?;
  }

  /** A file that keeps no records for the steps of stage `i`. */
  predicate NoRecord(h: Course, i: nat, p: Path)
    requires i < |h.stages|
  {
    var prev, own := FilesBefore(h, i), h.stages[i].files;
    p !in {prev.before, prev.frozen, prev.audit, own.before, own.frozen}
  }

  /** A file that is neither source nor pending for the records that stage `i` reads. */
  predicate OnlyKept(fmt: Format, h: Course, i: nat, p: Path)
    requires i < |h.stages|
  {
    && PrepareTree(fmt, FilesBefore(h, i), h.stages[i]).Ok? && AuditFiles(fmt, h.stages[i]).Ok?
    && !IsSource(p) && p !in ReadAtPrepare(fmt, FilesBefore(h, i), h.stages[i]).audit.hashes
    && p !in BaselineAtAudit(fmt, h.stages[i]).existingPending
  }

  ghost predicate HeldAt(fmt: Format, h: Course, i: nat, p: Path, d: Digest)
    requires i < |h.stages|
  {
    && HeldAtPrepare(fmt, FilesBefore(h, i), h.stages[i], p, d)
    && HeldAtAudit(fmt, FilesBefore(h, i), h.stages[i], p, d)
  }

  lemma PassedAt(fmt: Format, h: Course, i: nat)
    requires Passed(fmt, h) && i < |h.stages|
    ensures RunTreeStage(fmt, FilesBefore(h, i), h.stages[i]) == Ok(h.written[i])
    ensures PrepareTree(fmt, FilesBefore(h, i), h.stages[i]).Ok? && AuditFiles(fmt, h.stages[i]).Ok?
  {
    hide PrepareTree, FreezeTree, AuditFiles, Linked;
  }

  /** Both baselines that stage `i` reads have the entry. */
  predicate EntryRead(fmt: Format, h: Course, i: nat, p: Path, d: Digest)
    requires i < |h.stages|
  {
    && PrepareTree(fmt, FilesBefore(h, i), h.stages[i]).Ok? && AuditFiles(fmt, h.stages[i]).Ok?
    && Says(ReadAtPrepare(fmt, FilesBefore(h, i), h.stages[i]).before.kept, p, d)
    && Says(BaselineAtAudit(fmt, h.stages[i]).kept, p, d)
  }

  lemma ProtectedAtExactly(fmt: Format, h: Course, i: nat, p: Path, d: Digest)
    requires Injective(fmt.sha) && Passed(fmt, h) && i < |h.stages| && NoRecord(h, i, p)
    requires p in h.stages[i].atPrepare && p in h.stages[i].atAudit
    ensures OnlyKept(fmt, h, i, p) ==> (HeldAt(fmt, h, i, p, d) <==> EntryRead(fmt, h, i, p, d))
  {
    hide Injective, IsSource, RunTreeStage, PrepareTree, AuditFiles, HeldAtPrepare, HeldAtAudit, Linked;
    PassedAt(fmt, h, i);
    HeldAtPrepareExactly(fmt, FilesBefore(h, i), h.stages[i], p, d);
    HeldAtAuditExactly(fmt, FilesBefore(h, i), h.stages[i], p, d);
  }

  /** Over any course: each prepare and each audit holds a protected file to its root hash exactly
      when the baselines they read have the root's entry for it, whatever else is edited. */
  lemma ProtectedOnCourseExactly(fmt: Format, h: Course, p: Path, d: Digest)
    requires Injective(fmt.sha) && Passed(fmt, h)
    requires forall i: nat :: i < |h.stages| ==>
      NoRecord(h, i, p) && OnlyKept(fmt, h, i, p) && p in h.stages[i].atPrepare && p in h.stages[i].atAudit
    ensures (forall i: nat :: i < |h.stages| ==> HeldAt(fmt, h, i, p, d)) <==>
      (forall i: nat :: i < |h.stages| ==> EntryRead(fmt, h, i, p, d))
  {
    hide Injective, Passed, NoRecord, OnlyKept, HeldAt, EntryRead, PrepareTree, AuditFiles;
    forall i: nat | i < |h.stages| ensures HeldAt(fmt, h, i, p, d) <==> EntryRead(fmt, h, i, p, d) {
      ProtectedAtExactly(fmt, h, i, p, d);
    }
  }

  // ----- a pending file over a course, by its own entries alone -----

  /** What stage `i` reads about `p` is what was written about it: its entry in the old audit, and
      its entry in the stage's own baseline. */
  predicate PendingEntryRead(fmt: Format, prev: Files, w: Audit, st: TreeStage, c: Chain, p: Path)
    requires PrepareTree(fmt, prev, st).Ok? && AuditFiles(fmt, st).Ok?
  {
    && SameEntry(ReadAtPrepare(fmt, prev, st).audit.hashes, w.hashes, p)
    && SameEntry(BaselineAtAudit(fmt, st).existingPending, c.before.existingPending, p)
  }

  /** The stage does not name the file, neither in its scope nor as one that may change. */
  predicate Unnamed(fmt: Format, st: TreeStage, p: Path)
    requires AuditFiles(fmt, st).Ok?
  {
    var b, r := BaselineAtAudit(fmt, st), st.report;
    p !in r.docs + b.allowed + r.newTests + b.excluded && !Under(p, r.out)
  }

  lemma TreeStageCarries(fmt: Format, prev: Files, w: Audit, st: TreeStage, c: Chain, p: Path)
    requires RunTreeStage(fmt, prev, st) == Ok(c) && st.carry.Inherit? && p != prev.audit
    requires PrepareTree(fmt, prev, st).Ok? && AuditFiles(fmt, st).Ok?
    requires PendingEntryRead(fmt, prev, w, st, c, p) && Unnamed(fmt, st, p)
    ensures p != st.files.audit
    ensures p in c.audit.hashes <==> p in w.hashes && p in st.report.git
    ensures p in c.audit.hashes ==> c.audit.hashes[p] == w.hashes[p]
    ensures p in w.hashes ==> p in st.atAudit && fmt.sha(st.atAudit[p]) == w.hashes[p]
  {
    hide IsSource, Under, Prepare, Freeze, AuditTree, FreezeTree;
    InheritingPrepare(ReadAtPrepare(fmt, prev, st), Hashes(fmt.sha, st.atPrepare), st.allowed, p);
    AuditOutOfScope(BaselineAtAudit(fmt, st), FrozenAtAudit(fmt, st), Hashes(fmt.sha, st.atAudit), ReportOf(st), p);
  }

  ghost predicate PendingRead(fmt: Format, h: Course, i: nat, p: Path)
    requires i < |h.stages| == |h.written|
  {
    var prev, st := FilesBefore(h, i), h.stages[i];
    && st.carry.Inherit? && PrepareTree(fmt, prev, st).Ok? && AuditFiles(fmt, st).Ok?
    && PendingEntryRead(fmt, prev, WrittenBefore(h, i).audit, st, h.written[i], p) && Unnamed(fmt, st, p)
  }

  ghost predicate ListedBefore(h: Course, n: nat, p: Path)
    requires n <= |h.stages|
  {
    forall i: nat :: i < n ==> p in h.stages[i].report.git
  }

  /** Over any number of inheriting stages that do not name the file: when they read its own entries
      as written, it is on record exactly as long as every stage has listed it, and then with its
      first hash. */
  lemma {:induction false} PendingOnCourseExactly(fmt: Format, h: Course, n: nat, p: Path)
    requires Passed(fmt, h) && n <= |h.stages| && p in h.first.audit.hashes && p != h.root.audit
    requires forall i: nat :: i < n ==> PendingRead(fmt, h, i, p)
    ensures var a := WrittenBefore(h, n).audit;
      && p != FilesBefore(h, n).audit && (p in a.hashes <==> ListedBefore(h, n, p))
      && (p in a.hashes ==> a.hashes[p] == h.first.audit.hashes[p])
    decreases n
  {
    hide Passed, PendingRead, ListedBefore;
    if n == 0 {
      ListedNone(h, p);
    } else {
      PendingOnCourseExactly(fmt, h, n - 1, p);
      PendingStage(fmt, h, n - 1, p);
      ListedMore(h, n, p);
    }
  }

  lemma ListedNone(h: Course, p: Path)
    ensures ListedBefore(h, 0, p)
  {}

  lemma ListedMore(h: Course, n: nat, p: Path)
    requires 0 < n <= |h.stages|
    ensures ListedBefore(h, n, p) <==> ListedBefore(h, n - 1, p) && p in h.stages[n - 1].report.git
  {
    assert ListedBefore(h, n - 1, p) && p in h.stages[n - 1].report.git ==>
      forall i: nat :: i < n ==> p in h.stages[i].report.git;
  }

  lemma PendingStage(fmt: Format, h: Course, i: nat, p: Path)
    requires Passed(fmt, h) && i < |h.stages| && p != FilesBefore(h, i).audit && PendingRead(fmt, h, i, p)
    ensures var w, a, st := WrittenBefore(h, i).audit, h.written[i].audit, h.stages[i];
      && p != st.files.audit && (p in a.hashes <==> p in w.hashes && p in st.report.git)
      && (p in a.hashes ==> a.hashes[p] == w.hashes[p])
      && (p in w.hashes ==> p in st.atAudit && fmt.sha(st.atAudit[p]) == w.hashes[p])
  {
    hide RunTreeStage, PrepareTree, AuditFiles, PendingEntryRead, Unnamed, Linked;
    PassedAt(fmt, h, i);
    TreeStageCarries(fmt, FilesBefore(h, i), WrittenBefore(h, i).audit, h.stages[i], h.written[i], p);
  }

  /** And every audit, up to the first that does not list it, has found that hash. */
  lemma PendingFoundOnCourse(fmt: Format, h: Course, n: nat, p: Path)
    requires Passed(fmt, h) && n < |h.stages| && p in h.first.audit.hashes && p != h.root.audit
    requires (forall i: nat :: i <= n ==> PendingRead(fmt, h, i, p)) && ListedBefore(h, n, p)
    ensures p in h.stages[n].atAudit && fmt.sha(h.stages[n].atAudit[p]) == h.first.audit.hashes[p]
  {
    hide RunTreeStage, PendingRead, Linked;
    PendingOnCourseExactly(fmt, h, n, p);
    PendingStage(fmt, h, n, p);
  }

  // ----- the reads that the guards secure -----

  /** The stage's own baseline and frozen source are on its audit's list. */
  predicate RecordsListed(st: TreeStage, c: Chain) {
    {st.files.before, st.files.frozen} <= st.report.git - c.before.excluded
  }

  /** The audit hashed both, and the next prepare finds every hash of the audit it reads confirmed:
      so it reads the old baseline and the old frozen source as the audit read them. */
  lemma OldRecordsSecured(fmt: Format, pp: Files, st: TreeStage, c: Chain, st': TreeStage)
    requires Injective(fmt.sha)
    requires RunTreeStage(fmt, pp, st) == Ok(c) && OwnRecordsRead(fmt, st, c) && RecordsListed(st, c)
    requires OldAuditRead(fmt, st.files, c, st') && PrepareTree(fmt, st.files, st').Ok?
    ensures OldRecordsRead(fmt, st.files, c, st')
  {
    hide IsSource, Freeze, Prepare, ReadAudit;
    forall p | p in {st.files.before, st.files.frozen} ensures p in st'.atPrepare && st'.atPrepare[p] == st.atAudit[p] {
      AuditHashes(fmt, st, c, p);
      Confirmed(fmt, st.files, c, st', p);
    }
  }

  lemma AuditHashes(fmt: Format, st: TreeStage, c: Chain, p: Path)
    requires AuditFiles(fmt, st) == Ok(c.audit) && OwnRecordsRead(fmt, st, c)
    requires p in st.report.git - c.before.excluded && p in st.atAudit
    ensures p in c.audit.hashes && c.audit.hashes[p] == fmt.sha(st.atAudit[p])
  {
    hide IsSource, AuditGuards;
  }

  lemma Confirmed(fmt: Format, prev: Files, c: Chain, st: TreeStage, p: Path)
    requires OldAuditRead(fmt, prev, c, st) && PrepareTree(fmt, prev, st).Ok?
    requires p in c.audit.hashes && p != c.audit.path
    ensures p in st.atPrepare && fmt.sha(st.atPrepare[p]) == c.audit.hashes[p]
  {
    hide IsSource, ReadAudit, Prepare, Read;
    var s := Hashes(fmt.sha, st.atPrepare);
    var b := Read(st.atPrepare, prev.before, fmt.before).value;
    var f := if st.carry.Inherit? then Read(st.atPrepare, prev.frozen, fmt.frozen).value else Frozen(map[], [], {});
    Custody.PrepareConfirms(Chain(b, f, c.audit), s, st.carry, st.allowed, p);
  }

  /** What is left to be assumed of a course: the root's records, each stage's own records between
      its steps, and each audit file until the next prepare. */
  ghost predicate Watched(fmt: Format, h: Course) {
    && |h.stages| == |h.written|
    && (h.stages != [] ==> OldRecordsRead(fmt, h.root, h.first, h.stages[0]))
    && (forall i: nat :: i < |h.stages| ==>
          && OldAuditRead(fmt, FilesBefore(h, i), WrittenBefore(h, i), h.stages[i])
          && OwnRecordsRead(fmt, h.stages[i], h.written[i]) && RecordsListed(h.stages[i], h.written[i]))
  }

  lemma WatchedIsFaithful(fmt: Format, h: Course)
    requires Injective(fmt.sha) && Passed(fmt, h) && Watched(fmt, h)
    ensures Faithful(fmt, h)
  {
    hide OldRecordsRead, OldAuditRead, OwnRecordsRead, RecordsListed, Linked, Injective;
    forall i: nat | i < |h.stages| ensures FaithfulAt(fmt, h, i) {
      assert RunTreeStage(fmt, FilesBefore(h, i), h.stages[i]) == Ok(h.written[i]);
      if i != 0 {
        OldRecordsSecured(fmt, FilesBefore(h, i - 1), h.stages[i - 1], h.written[i - 1], h.stages[i]);
      }
    }
  }

  // ----- the reads that nothing secures -----

  /** A file that a stage checks only against its baseline's protected hashes. */
  predicate OnlyProtected(st: TreeStage, b: Baseline, p: Path) {
    && p in b.kept && !IsSource(p) && p !in b.existingPending
    && p !in {st.files.before, st.files.frozen, st.files.audit, st.report.changesPath, st.report.pendingPath}
  }

  /** The stage's own baseline is an evidence file that was new when the stage began. */
  predicate NewEvidence(st: TreeStage, b: Baseline) {
    !IsSource(st.files.before) && st.files.before !in b.kept && st.files.before !in b.existingPending
  }

  /** The stage with `p` and the stage's own baseline edited between prepare and freeze. */
  function Edited(st: TreeStage, p: Path, x: string, y: string): TreeStage {
    st.(atFreeze := st.atFreeze[p := x][st.files.before := y], atAudit := st.atAudit[p := x][st.files.before := y])
  }

  lemma SourceUnmoved(s: Snapshot, p: Path, d: Digest, q: Path, e: Digest)
    requires !IsSource(p) && !IsSource(q)
    ensures SourceOf(s[p := d][q := e]) == SourceOf(s)
  {
    hide IsSource;
  }

  lemma AuditOfEdited(b: Baseline, f: Frozen, s: Snapshot, r: Report, p: Path, d: Digest, q: Path, e: Digest)
    requires AuditTree(b, f, s, r).Ok? && p in b.kept && q !in b.kept && p != q && q in s
    requires p !in b.existingPending && q !in b.existingPending && !IsSource(p) && !IsSource(q)
    ensures AuditTree(b.(kept := b.kept[p := d]), f, s[p := d][q := e], r).Ok?
  {
    hide IsSource, Under;
    var b', s' := b.(kept := b.kept[p := d]), s[p := d][q := e];
    SourceUnmoved(s, p, d, q, e);
    assert p in s;
    assert Changed(b.existingPending, s') == Changed(b.existingPending, s);
    assert Pending(b', r) == Pending(b, r);
    assert AuditGuards(b', f, s', r);
    assert s'.Keys == s.Keys && WithManifests(s', r).Keys == WithManifests(s, r).Keys;
  }

  lemma EditedHashes(sha: Sha, t: Tree, p: Path, x: string, q: Path, y: string)
    ensures Hashes(sha, t[p := x][q := y]) == Hashes(sha, t)[p := sha(x)][q := sha(y)]
  {}

  /** The failing input for a stage's own baseline: whoever edits a protected file edits its entry
      too.  Then all steps pass, with the same baseline and the same frozen source on record,
      whatever is in the file. */
  lemma BaselineCanBeEdited(fmt: Format, prev: Files, st: TreeStage, c: Chain, p: Path, x: string, y: string)
    requires RunTreeStage(fmt, prev, st) == Ok(c) && OwnRecordsRead(fmt, st, c)
    requires OnlyProtected(st, c.before, p) && NewEvidence(st, c.before) && st.files.frozen != st.files.before
    requires fmt.before(y) == Some(c.before.(kept := c.before.kept[p := fmt.sha(x)]))
    ensures RunTreeStage(fmt, prev, Edited(st, p, x, y)).Ok?
    ensures var c' := RunTreeStage(fmt, prev, Edited(st, p, x, y)).value;
      c'.before == c.before && c'.frozen == c.frozen && Edited(st, p, x, y).atAudit[p] == x
  {
    hide PrepareTree, IsSource, Freeze, AuditTree;
    var st', q := Edited(st, p, x, y), st.files.before;
    assert PrepareTree(fmt, prev, st') == PrepareTree(fmt, prev, st) by { PrepareSame(fmt, prev, st, st'); }
    EditedHashes(fmt.sha, st.atFreeze, p, x, q, y);
    EditedHashes(fmt.sha, st.atAudit, p, x, q, y);
    SourceUnmoved(Hashes(fmt.sha, st.atFreeze), p, fmt.sha(x), q, fmt.sha(y));
    var b' := c.before.(kept := c.before.kept[p := fmt.sha(x)]);
    FreezeDepends(c.before, b', Hashes(fmt.sha, st.atFreeze), Hashes(fmt.sha, st'.atFreeze), st.ids);
    AuditOfEdited(c.before, c.frozen, Hashes(fmt.sha, st.atAudit), ReportOf(st), p, fmt.sha(x), q, fmt.sha(y));
  }

  lemma PrepareSame(fmt: Format, prev: Files, st: TreeStage, st': TreeStage)
    requires st'.atPrepare == st.atPrepare && st'.files == st.files
    requires st'.carry == st.carry && st'.allowed == st.allowed
    ensures PrepareTree(fmt, prev, st') == PrepareTree(fmt, prev, st)
  {}

  lemma FreezeDepends(b: Baseline, b': Baseline, s: Snapshot, s': Snapshot, ids: seq<string>)
    requires b' == b.(kept := b'.kept) && SourceOf(s') == SourceOf(s)
    ensures Freeze(b', s', ids) == Freeze(b, s, ids)
  {
    hide IsSource;
  }

  lemma AuditWithOther(b: Baseline, f: Frozen, f': Frozen, s: Snapshot, r: Report, q: Path, e: Digest)
    requires AuditTree(b, f, s, r).Ok? && q in s && q !in b.kept && q !in b.existingPending && !IsSource(q)
    requires f' == f.(identities := f'.identities, added := f'.added)
    requires Distinct(f'.identities) && SetOf(b.identities) <= SetOf(f'.identities)
    requires f'.added == SetOf(f'.identities) - SetOf(b.identities)
    ensures AuditTree(b, f', s[q := e], r).Ok?
  {
    hide IsSource, Under, SetOf, Distinct;
    var s' := s[q := e];
    SourceUnmoved(s, q, e, q, e);
    assert s' == s[q := e][q := e];
    assert Changed(b.existingPending, s') == Changed(b.existingPending, s);
    assert AuditGuards(b, f', s', r);
    assert s'.Keys == s.Keys && WithManifests(s', r).Keys == WithManifests(s, r).Keys;
  }

  /** The failing input for the frozen source between freeze and audit: its identities can be
      replaced by any list without repetitions that still has the baseline's. */
  lemma FrozenCanBeEdited(fmt: Format, prev: Files, st: TreeStage, c: Chain, ids: seq<string>, y: string)
    requires RunTreeStage(fmt, prev, st) == Ok(c) && OwnRecordsRead(fmt, st, c) && st.files.frozen != st.files.before
    requires !IsSource(st.files.frozen) && st.files.frozen !in c.before.kept.Keys + c.before.existingPending.Keys
    requires Distinct(ids) && SetOf(c.before.identities) <= SetOf(ids)
    requires fmt.frozen(y) == Some(c.frozen.(identities := ids, added := SetOf(ids) - SetOf(c.before.identities)))
    ensures RunTreeStage(fmt, prev, st.(atAudit := st.atAudit[st.files.frozen := y])).Ok?
  {
    hide IsSource, AuditTree, SetOf, Distinct, PrepareTree, FreezeTree;
    var q := st.files.frozen;
    var st', f' := st.(atAudit := st.atAudit[q := y]), fmt.frozen(y).value;
    PrepareSame(fmt, prev, st, st');
    FreezeSame(fmt, st, st');
    assert Hashes(fmt.sha, st'.atAudit) == Hashes(fmt.sha, st.atAudit)[q := fmt.sha(y)];
    AuditWithOther(c.before, c.frozen, f', Hashes(fmt.sha, st.atAudit), ReportOf(st), q, fmt.sha(y));
  }

  lemma FreezeSame(fmt: Format, st: TreeStage, st': TreeStage)
    requires st'.atFreeze == st.atFreeze && st'.files == st.files && st'.ids == st.ids
    ensures FreezeTree(fmt, st') == FreezeTree(fmt, st)
  {}

  /** The failing input for the audit file between two stages: whoever edits a pending file edits
      its entry in the audit too.  The next prepare passes, and has the new hash on record. */
  lemma AuditCanBeEdited(fmt: Format, prev: Files, c: Chain, st: TreeStage, p: Path, x: string, y: string)
    requires PrepareTree(fmt, prev, st).Ok? && OldRecordsRead(fmt, prev, c, st) && OldAuditRead(fmt, prev, c, st)
    requires p in c.audit.hashes && !IsSource(p) && p !in c.before.kept && p != st.files.before
    requires prev.audit !in c.audit.hashes && prev.audit !in c.before.kept && !IsSource(prev.audit)
    requires p !in {prev.before, prev.frozen, prev.audit} && prev.audit !in {prev.before, prev.frozen}
    requires st.carry.Listing? ==> p in st.carry.git - c.before.excluded && !Under(p, st.carry.out)
    requires fmt.audit(y) == Some(c.audit.(hashes := c.audit.hashes[p := fmt.sha(x)]))
    ensures var st' := st.(atPrepare := st.atPrepare[p := x][prev.audit := y]);
      && PrepareTree(fmt, prev, st').Ok? && p in PrepareTree(fmt, prev, st').value.existingPending
      && PrepareTree(fmt, prev, st').value.existingPending[p] == fmt.sha(x)
  {
    hide IsSource, Prepare;
    var st' := st.(atPrepare := st.atPrepare[p := x][prev.audit := y]);
    var a' := c.audit.(hashes := c.audit.hashes[p := fmt.sha(x)]);
    var s := Hashes(fmt.sha, st.atPrepare);
    EditedHashes(fmt.sha, st.atPrepare, p, x, prev.audit, y);
    var f := if st.carry.Inherit? then c.frozen else Frozen(map[], [], {});
    PrepareOfEdited(Chain(c.before, f, c.audit), a', s, st.carry, st.allowed, p, fmt.sha(x), fmt.sha(y));
  }

  lemma PrepareOfEdited(c: Chain, a': Audit, s: Snapshot, carry: Carry, allowed: set<Path>, p: Path, d: Digest,
                        e: Digest)
    requires Prepare(c, s, carry, allowed).Ok? && a' == c.audit.(hashes := c.audit.hashes[p := d])
    requires p in c.audit.hashes && !IsSource(p) && p !in c.before.kept && p != c.audit.path
    requires c.audit.path in s && c.audit.path !in c.audit.hashes.Keys + c.before.kept.Keys && !IsSource(c.audit.path)
    requires carry.Listing? ==> p in carry.git - c.before.excluded && !Under(p, carry.out)
    ensures var b := Prepare(c.(audit := a'), s[p := d][c.audit.path := e], carry, allowed);
      b.Ok? && p in b.value.existingPending && b.value.existingPending[p] == d
  {
    hide IsSource, Under, Agrees;
    var a, s' := c.audit, s[p := d][c.audit.path := e];
    SourceUnmoved(s, p, d, a.path, e);
    PrepareConfirms(c, s, carry, allowed, p);
    assert s'.Keys == s.Keys;
    forall q | q in a.hashes && q != p ensures q in s' && s'[q] == a.hashes[q] {
      PrepareConfirms(c, s, carry, allowed, q);
    }
    AgreesOf(s', a'.hashes);
    AgreesOf(s', a'.hashes[a.path := e]);
    AgreesTwice(s, c.before.kept, p, d, a.path, e);
  }

  lemma AgreesOf(s: Snapshot, hs: Snapshot)
    ensures (forall p :: p in hs ==> p in s && s[p] == hs[p]) ==> Agrees(s, hs)
  {}

  lemma AgreesTwice(s: Snapshot, hs: Snapshot, p: Path, d: Digest, q: Path, e: Digest)
    requires Agrees(s, hs) && p !in hs && q !in hs
    ensures Agrees(s[p := d][q := e], hs)
  {}
}
