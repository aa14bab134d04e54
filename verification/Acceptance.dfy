/** The acceptance audit (p18_acceptance_evidence/audit.py): generate mode writes the manifests
    once, and `--verify-existing` checks a tree against them.  Both read their records from files
    of the tree itself. */
module Acceptance {
  import opened Outcome
  import opened Text
  import opened Trees
  import opened Custody
  import Layers

  const OUT := "docs/project_memory/p18_acceptance_evidence/"
  const FORMAL := ".continuity-data/"

  const BEFORE := OUT + "before.json"
  const DOCUMENTS := OUT + "documentation-files.json"
  const FROZEN := "docs/project_memory/p18_exception_evidence/frozen-source.json"
  const ARCHIVE := OUT + "independent-archive.json"
  const CHANGES := OUT + "document-changes.json"
  const LISTING := OUT + "final.pending-files.md"
  const AUDIT := OUT + "final.audit.json"

  /** HEAD, the local origin, the branch, what is staged, and the hash of the index. */
  datatype GitFacts = GitFacts(head: string, origin: string, branch: string, staged: set<Path>, index: Digest)

  /** `before.json`; the fixed files are the ones that must keep one hash each: the protected
      groups, pyproject.toml and the excluded material. */
  datatype Before = Before(source: Snapshot, fixed: Snapshot, formal: Snapshot, excluded: set<Path>,
                           existingPending: Snapshot, documentsBefore: Snapshot, git: GitFacts)

  /** What `final.audit.json` says. */
  datatype Record = Record(source: Snapshot, pending: set<Path>, hashes: Snapshot)

  /** One file of `independent-archive.json`: where it came from, where its copy is, its hash. */
  datatype Row = Row(original: Path, copy: Path, hash: Digest)

  /** How the record files are read, and how generate mode writes its own. */
  datatype Format = Format(sha: Sha, before: string -> Option<Before>, documents: string -> Option<set<Path>>,
                           frozen: string -> Option<Frozen>, archive: string -> Option<set<Row>>,
                           audit: string -> Option<Record>, auditText: Record -> string)

  ghost predicate RoundTrips(fmt: Format) {
    forall rec :: fmt.audit(fmt.auditText(rec)) == Some(rec)
  }

  /** The repository, the files outside it, and what Git says. */
  datatype World = World(tree: Tree, outside: Tree, listed: set<Path>, git: GitFacts)

  // ----- what both modes read and check -----

  datatype Basis = Basis(before: Before, documents: set<Path>, frozen: Frozen, archive: set<Row>)

  function ReadBasis(fmt: Format, t: Tree): Result<Basis> {
    var b :- Read(t, BEFORE, fmt.before);
    var d :- Read(t, DOCUMENTS, fmt.documents);
    var f :- Read(t, FROZEN, fmt.frozen);
    var a :- Read(t, ARCHIVE, fmt.archive);
    Ok(Basis(b, d, f, a))
  }

  function FormalOf(s: Snapshot): Snapshot {
    map p | p in s && Under(p, FORMAL) :: s[p]
  }

  predicate RowHolds(fmt: Format, w: World, row: Row) {
    && row.original in w.outside && fmt.sha(w.outside[row.original]) == row.hash
    && row.copy in w.tree && fmt.sha(w.tree[row.copy]) == row.hash
  }

  predicate BaseGuards(fmt: Format, w: World, x: Basis) {
    var s := Hashes(fmt.sha, w.tree);
    && SourceOf(s) == x.frozen.source == x.before.source && Distinct(x.frozen.identities)
    && Agrees(s, x.before.fixed) && FormalOf(s) == x.before.formal
    && w.git == x.before.git && w.git.head == w.git.origin && w.git.branch == "main" && w.git.staged == {}
    && forall row :: row in x.archive ==> RowHolds(fmt, w, row)
  }

  // ----- verify -----

  /** The audit record stands in this world. */
  predicate Stands(fmt: Format, w: World, x: Basis, rec: Record) {
    && Agrees(Hashes(fmt.sha, w.tree), rec.hashes)
    && w.listed == rec.pending + x.before.excluded
    && rec.source == SourceOf(Hashes(fmt.sha, w.tree))
  }

  predicate Verify(fmt: Format, w: World) {
    var x, rec := ReadBasis(fmt, w.tree), Read(w.tree, AUDIT, fmt.audit);
    x.Ok? && BaseGuards(fmt, w, x.value) && rec.Ok? && Stands(fmt, w, x.value, rec.value)
  }

  // ----- generate -----

  const MANIFESTS := {CHANGES, LISTING, AUDIT}

  lemma ManifestPaths()
    ensures CHANGES != LISTING && CHANGES != AUDIT && LISTING != AUDIT
    ensures forall p :: p in MANIFESTS ==> Under(p, OUT)
  {
    assert |CHANGES| == |OUT| + 21 && |LISTING| == |OUT| + 22 && |AUDIT| == |OUT| + 16;
  }

  /** How the archiver's layers are taken off the documents again. */
  datatype Layering = Layering(separator: string, log: Path, decision: string)

  function HistoryOf(t: Tree, p: Path, l: Layering): Result<string>
    requires p in t
  {
    if p == l.log then Layers.Historical(t[p], l.separator, l.decision) else Layers.Peel(t[p], l.separator)
  }

  /** A changed document is its old self under a new layer. */
  predicate Layered(sha: Sha, t: Tree, documents: set<Path>, b: Before, l: Layering) {
    forall p :: p in documents ==>
      && p in t && p in b.documentsBefore
      && HistoryOf(t, p, l).Ok? && sha(HistoryOf(t, p, l).value) == b.documentsBefore[p]
  }

  function PendingPaths(b: Before, listed: set<Path>): set<Path> {
    listed + MANIFESTS - b.excluded
  }

  predicate GenerateGuards(fmt: Format, w: World, x: Basis, l: Layering) {
    var b := x.before;
    && BaseGuards(fmt, w, x)
    && AUDIT !in w.tree
    && b.existingPending.Keys <= w.tree.Keys
    && Changed(b.existingPending, Hashes(fmt.sha, w.tree)) == x.documents
    && Layered(fmt.sha, w.tree, x.documents, b, l)
    && (forall p :: p in PendingPaths(b, w.listed) && p !in b.existingPending ==> Under(p, OUT))
  }

  /** The world that generate mode leaves, and the record it has written into the audit file; `c`
      and `t` are the texts of its other two manifests. */
  function Generate(fmt: Format, w: World, l: Layering, c: string, t: string): Result<(World, Record)> {
    var x :- ReadBasis(fmt, w.tree);
    if !GenerateGuards(fmt, w, x, l) || CHANGES in w.tree || LISTING in w.tree then Err(GuardFailed)
    else
      var two := w.tree[CHANGES := c][LISTING := t];
      var hashed := PendingPaths(x.before, w.listed) - {AUDIT};
      if !(hashed <= two.Keys) then Err(FilesMissing(hashed - two.Keys))
      else
        var rec := Record(x.before.source, PendingPaths(x.before, w.listed), map p | p in hashed :: fmt.sha(two[p]));
        Ok((w.(tree := two[AUDIT := fmt.auditText(rec)], listed := w.listed + MANIFESTS), rec))
  }

  // ----- exactly when each mode succeeds -----

  /** What both modes ask of the repository. */
  ghost predicate Healthy(fmt: Format, w: World, x: Basis) {
    var s := Hashes(fmt.sha, w.tree);
    && Samples(x.frozen.source, s) && x.before.source == x.frozen.source
    && (forall i, j :: 0 <= i < j < |x.frozen.identities| ==> x.frozen.identities[i] != x.frozen.identities[j])
    && Holds(s, x.before.fixed)
    && (forall p :: p in x.before.formal <==> p in s && ".continuity-data/" <= p) && Holds(s, x.before.formal)
    && w.git == x.before.git && w.git.head == w.git.origin && w.git.branch == "main"
    && (forall p :: p !in w.git.staged)
    && (forall row :: row in x.archive ==>
          && row.original in w.outside && fmt.sha(w.outside[row.original]) == row.hash
          && row.copy in w.tree && fmt.sha(w.tree[row.copy]) == row.hash)
  }

  lemma FormalExactly(s: Snapshot, formal: Snapshot)
    ensures FormalOf(s) == formal <==>
      (forall p :: p in formal <==> p in s && ".continuity-data/" <= p) && Holds(s, formal)
  {
    assert forall p :: p in FormalOf(s) <==> p in s && ".continuity-data/" <= p;
  }

  lemma HealthyExactly(fmt: Format, w: World, x: Basis)
    ensures BaseGuards(fmt, w, x) <==> Healthy(fmt, w, x)
  {
    hide IsSource, SourceFile, Samples, SourceOf, FormalOf;
    SourceOfExactly(x.frozen.source, Hashes(fmt.sha, w.tree));
    FormalExactly(Hashes(fmt.sha, w.tree), x.before.formal);
    assert w.git.staged == {} <==> forall p :: p !in w.git.staged;
  }

  /** Exactly when verify accepts. */
  lemma VerifyExactly(fmt: Format, w: World)
    ensures var x, rec := ReadBasis(fmt, w.tree), Read(w.tree, AUDIT, fmt.audit);
      Verify(fmt, w) <==>
        && x.Ok? && rec.Ok? && Healthy(fmt, w, x.value)
        && Holds(Hashes(fmt.sha, w.tree), rec.value.hashes)
        && (forall p :: p in w.listed <==> p in rec.value.pending || p in x.value.before.excluded)
        && rec.value.source == x.value.frozen.source
  {
    hide IsSource, SourceOf, ReadBasis, BaseGuards, Healthy;
    var x, rec := ReadBasis(fmt, w.tree), Read(w.tree, AUDIT, fmt.audit);
    if x.Ok? {
      HealthyExactly(fmt, w, x.value);
      FrozenIsSource(fmt, w, x.value);
      if rec.Ok? {
        assert w.listed == rec.value.pending + x.value.before.excluded
          <==> forall p :: p in w.listed <==> p in rec.value.pending || p in x.value.before.excluded;
      }
    }
  }

  /** In particular every source file of an accepted world has the hash that was frozen. */
  lemma VerifyFindsSource(fmt: Format, w: World, p: Path)
    requires Verify(fmt, w) && SourceFile(p)
    ensures var f := ReadBasis(fmt, w.tree).value.frozen;
      (p in w.tree <==> p in f.source) && (p in w.tree ==> fmt.sha(w.tree[p]) == f.source[p])
  {
    hide IsSource, SourceFile, ReadBasis, Verify;
    VerifyExactly(fmt, w);
  }

  lemma FrozenIsSource(fmt: Format, w: World, x: Basis)
    ensures BaseGuards(fmt, w, x) ==> SourceOf(Hashes(fmt.sha, w.tree)) == x.frozen.source
  {}

  /** What verify reads, and from where. */
  lemma ReadBasisExactly(fmt: Format, t: Tree)
    ensures var out := "docs/project_memory/p18_acceptance_evidence/";
      var b, d, a := Read(t, out + "before.json", fmt.before), Read(t, out + "documentation-files.json", fmt.documents),
                     Read(t, out + "independent-archive.json", fmt.archive);
      var f := Read(t, "docs/project_memory/p18_exception_evidence/frozen-source.json", fmt.frozen);
      && AUDIT == out + "final.audit.json"
      && (ReadBasis(fmt, t).Ok? <==> b.Ok? && d.Ok? && f.Ok? && a.Ok?)
      && (ReadBasis(fmt, t).Ok? ==> ReadBasis(fmt, t).value == Basis(b.value, d.value, f.value, a.value))
  {}

  /** Exactly when generate succeeds: nothing that it would write is there; of the files that were
      pending before, the named documents have changed and no other, and each holds its old self
      under a layer; every file that Git lists and that is new is evidence; and all are there. */
  lemma GenerateSucceedsExactly(fmt: Format, w: World, l: Layering, c: string, t: string)
    ensures Generate(fmt, w, l, c, t).Ok? <==>
      && ReadBasis(fmt, w.tree).Ok?
      && var x := ReadBasis(fmt, w.tree).value;
         var b := x.before;
         && Healthy(fmt, w, x)
         && CHANGES !in w.tree && LISTING !in w.tree && AUDIT !in w.tree
         && (forall p :: p in b.existingPending ==> p in w.tree)
         && (forall p :: p in x.documents <==> p in b.existingPending && fmt.sha(w.tree[p]) != b.existingPending[p])
         && Layered(fmt.sha, w.tree, x.documents, b, l)
         && (forall p :: p in w.listed && p !in b.excluded && p !in b.existingPending ==>
               "docs/project_memory/p18_acceptance_evidence/" <= p)
         && (forall p :: p in w.listed && p !in b.excluded ==> p in w.tree || p in MANIFESTS)
  {
    hide IsSource, ReadBasis, BaseGuards, Healthy, Layered, Changed;
    ManifestPaths();
    if ReadBasis(fmt, w.tree).Ok? {
      var x := ReadBasis(fmt, w.tree).value;
      HealthyExactly(fmt, w, x);
      ChangedExactly(x.before.existingPending, Hashes(fmt.sha, w.tree), x.documents);
      ScopeExactly(x.before, w.listed);
      PresentExactly(x.before, w, c, t);
    }
  }

  lemma ScopeExactly(b: Before, listed: set<Path>)
    ensures (forall p :: p in PendingPaths(b, listed) && p !in b.existingPending ==> Under(p, OUT))
       <==> (forall p :: p in listed && p !in b.excluded && p !in b.existingPending ==>
               "docs/project_memory/p18_acceptance_evidence/" <= p)
  {
    ManifestPaths();
  }

  lemma PresentExactly(b: Before, w: World, c: string, t: string)
    ensures PendingPaths(b, w.listed) - {AUDIT} <= w.tree[CHANGES := c][LISTING := t].Keys
       <==> (forall p :: p in w.listed && p !in b.excluded ==> p in w.tree || p in MANIFESTS)
  {
    ManifestPaths();
    var keys := w.tree[CHANGES := c][LISTING := t].Keys;
    assert keys == w.tree.Keys + {CHANGES, LISTING};
    assert PendingPaths(b, w.listed) - {AUDIT} <= keys
      <==> forall p :: p in PendingPaths(b, w.listed) ==> p in keys || p == AUDIT;
    assert forall p :: (p in keys || p == AUDIT) <==> (p in w.tree || p in MANIFESTS);
  }

  /** So a new file that Git lists anywhere else stops it. */
  lemma ForeignFileStops(fmt: Format, w: World, l: Layering, c: string, t: string, p: Path)
    requires ReadBasis(fmt, w.tree).Ok? && p in w.listed && !("docs/project_memory/p18_acceptance_evidence/" <= p)
    requires p !in ReadBasis(fmt, w.tree).value.before.excluded
    requires p !in ReadBasis(fmt, w.tree).value.before.existingPending
    ensures Generate(fmt, w, l, c, t).Err?
  {
    hide Healthy, ReadBasis, Layered, Generate;
    GenerateSucceedsExactly(fmt, w, l, c, t);
  }

  // ----- generate, then verify -----

  /** Files below the evidence folder are neither source nor formal data. */
  lemma OutIsNeither(p: Path)
    requires Under(p, OUT)
    ensures !IsSource(p) && !Under(p, FORMAL)
  {
    assert p[0] == OUT[0] == 'd';
  }

  /** New files in the evidence folder do not disturb what both modes read and check. */
  lemma OutKeepsBasis(fmt: Format, w: World, w': World)
    requires ReadBasis(fmt, w.tree).Ok? && BaseGuards(fmt, w, ReadBasis(fmt, w.tree).value)
    requires w'.outside == w.outside && w'.git == w.git
    requires forall p :: p in w.tree ==> p in w'.tree && w'.tree[p] == w.tree[p]
    requires forall p :: p in w'.tree && p !in w.tree ==> Under(p, OUT)
    ensures ReadBasis(fmt, w'.tree) == ReadBasis(fmt, w.tree)
    ensures SourceOf(Hashes(fmt.sha, w'.tree)) == SourceOf(Hashes(fmt.sha, w.tree))
    ensures BaseGuards(fmt, w', ReadBasis(fmt, w.tree).value)
  {
    hide IsSource, Under;
    var s, s' := Hashes(fmt.sha, w.tree), Hashes(fmt.sha, w'.tree);
    forall p | p in s' && p !in s ensures !IsSource(p) && !Under(p, FORMAL) { OutIsNeither(p); }
    assert SourceOf(s') == SourceOf(s);
    assert FormalOf(s') == FormalOf(s);
  }

  lemma GenerateSays(fmt: Format, w: World, l: Layering, c: string, t: string)
    requires Generate(fmt, w, l, c, t).Ok?
    ensures ReadBasis(fmt, w.tree).Ok? && GenerateGuards(fmt, w, ReadBasis(fmt, w.tree).value, l)
    ensures MANIFESTS !! w.tree.Keys
    ensures var (w', rec), x := Generate(fmt, w, l, c, t).value, ReadBasis(fmt, w.tree).value;
      && w'.outside == w.outside && w'.git == w.git && w'.listed == w.listed + MANIFESTS
      && w'.tree == w.tree[CHANGES := c][LISTING := t][AUDIT := fmt.auditText(rec)]
      && rec.source == x.before.source && rec.pending == PendingPaths(x.before, w.listed)
      && rec.hashes.Keys == rec.pending - {AUDIT}
      && Agrees(Hashes(fmt.sha, w'.tree), rec.hashes)
  {
    hide IsSource, BaseGuards, Layered, ReadBasis;
    ManifestPaths();
  }

  /** The audit file that generate mode has written is accepted in the world it leaves exactly when
      Git, which now lists the manifests as well, still lists everything that is excluded. */
  lemma GeneratedVerifiesExactly(fmt: Format, w: World, l: Layering, c: string, t: string)
    requires RoundTrips(fmt) && Generate(fmt, w, l, c, t).Ok?
    ensures var w' := Generate(fmt, w, l, c, t).value.0;
      Verify(fmt, w') <==> ReadBasis(fmt, w.tree).value.before.excluded <= w'.listed
  {
    hide IsSource, BaseGuards, Layered, ReadBasis, Generate, RoundTrips;
    var (w', rec) := Generate(fmt, w, l, c, t).value;
    GenerateSays(fmt, w, l, c, t);
    ManifestPaths();
    OutKeepsBasis(fmt, w, w');
    RoundTripped(fmt, rec);
    BaseHasSource(fmt, w, ReadBasis(fmt, w.tree).value);
    var excluded := ReadBasis(fmt, w.tree).value.before.excluded;
    assert rec.pending + excluded == w'.listed + excluded;
  }

  lemma RoundTripped(fmt: Format, rec: Record)
    requires RoundTrips(fmt)
    ensures fmt.audit(fmt.auditText(rec)) == Some(rec)
  {}

  lemma BaseHasSource(fmt: Format, w: World, x: Basis)
    requires BaseGuards(fmt, w, x)
    ensures SourceOf(Hashes(fmt.sha, w.tree)) == x.before.source
  {}

  // ----- what verify notices -----

  /** The two worlds agree in everything that verify checks apart from the audit record. */
  ghost predicate SameBase(fmt: Format, w: World, w': World) {
    && ReadBasis(fmt, w'.tree) == ReadBasis(fmt, w.tree)
    && w'.listed == w.listed
    && (ReadBasis(fmt, w.tree).Ok? ==>
          (BaseGuards(fmt, w, ReadBasis(fmt, w.tree).value) <==> BaseGuards(fmt, w', ReadBasis(fmt, w.tree).value)))
    && SourceOf(Hashes(fmt.sha, w'.tree)) == SourceOf(Hashes(fmt.sha, w.tree))
  }

  /** Where only files outside the basis are different, the audit file among them, an accepted world
      stays accepted exactly when its audit file still can be read, names the same source and the
      same paths up to the excluded ones, and has no entry that is not true of the files. */
  lemma EditExactly(fmt: Format, w: World, w': World)
    requires Verify(fmt, w) && SameBase(fmt, w, w')
    ensures Verify(fmt, w') <==>
      var rec, rec', excluded := Read(w.tree, AUDIT, fmt.audit).value, Read(w'.tree, AUDIT, fmt.audit),
                                 ReadBasis(fmt, w.tree).value.before.excluded;
      && rec'.Ok? && rec'.value.source == rec.source
      && rec'.value.pending + excluded == rec.pending + excluded
      && Agrees(Hashes(fmt.sha, w'.tree), rec'.value.hashes)
  {
    hide IsSource, BaseGuards, ReadBasis, Agrees;
  }

  /** A file of the tree that only an entry of the audit record speaks of. */
  predicate OnlyEntry(x: Basis, p: Path) {
    && !IsSource(p) && !Under(p, FORMAL) && p !in x.before.fixed
    && p !in {BEFORE, DOCUMENTS, FROZEN, ARCHIVE} && forall row :: row in x.archive ==> row.copy != p
  }

  /** The world with the audit file and some such files edited. */
  ghost predicate EditedAside(fmt: Format, w: World, w': World) {
    && ReadBasis(fmt, w.tree).Ok? && w' == w.(tree := w'.tree)
    && forall p :: (p in w.tree) != (p in w'.tree) || (p in w.tree && p in w'.tree && w.tree[p] != w'.tree[p]) ==>
         OnlyEntry(ReadBasis(fmt, w.tree).value, p)
  }

  lemma AsideKeepsBase(fmt: Format, w: World, w': World)
    requires EditedAside(fmt, w, w')
    ensures SameBase(fmt, w, w')
  {
    hide IsSource, Under, BaseGuards, OnlyEntry;
    var x := ReadBasis(fmt, w.tree).value;
    AsideIsUnchecked(fmt, w, w', x);
    if BaseGuards(fmt, w, x) { CheckedKeeps(fmt, w, w', x); }
    if BaseGuards(fmt, w', x) { CheckedKeeps(fmt, w', w, x); }
    SourceIsChecked(x, Hashes(fmt.sha, w.tree), Hashes(fmt.sha, w'.tree));
  }

  lemma AsideIsUnchecked(fmt: Format, w: World, w': World, x: Basis)
    requires EditedAside(fmt, w, w') && x == ReadBasis(fmt, w.tree).value
    ensures ReadBasis(fmt, w'.tree) == ReadBasis(fmt, w.tree)
    ensures SameChecked(x, Hashes(fmt.sha, w.tree), Hashes(fmt.sha, w'.tree))
    ensures SameChecked(x, Hashes(fmt.sha, w'.tree), Hashes(fmt.sha, w.tree))
  {
    hide IsSource, Under;
  }

  /** So that is exactly the power of whoever edits the audit file and such files. */
  lemma AsideEditExactly(fmt: Format, w: World, w': World)
    requires Verify(fmt, w) && EditedAside(fmt, w, w')
    ensures Verify(fmt, w') <==>
      var rec, rec', excluded := Read(w.tree, AUDIT, fmt.audit).value, Read(w'.tree, AUDIT, fmt.audit),
                                 ReadBasis(fmt, w.tree).value.before.excluded;
      && rec'.Ok? && rec'.value.source == rec.source
      && rec'.value.pending + excluded == rec.pending + excluded
      && Agrees(Hashes(fmt.sha, w'.tree), rec'.value.hashes)
  {
    hide EditedAside, SameBase, Verify;
    AsideKeepsBase(fmt, w, w');
    EditExactly(fmt, w, w');
  }

  /** In particular an entry that is edited together with its file passes, and so does a file
      whose entry is taken out, whatever it then holds. */
  lemma EntryWithItsFilePasses(fmt: Format, w: World, p: Path, x: string, y: string)
    requires Verify(fmt, w) && p != AUDIT
    requires OnlyEntry(ReadBasis(fmt, w.tree).value, p) && OnlyEntry(ReadBasis(fmt, w.tree).value, AUDIT)
    requires var rec := Read(w.tree, AUDIT, fmt.audit).value;
      && AUDIT !in rec.hashes
      && (fmt.audit(y) == Some(rec.(hashes := rec.hashes[p := fmt.sha(x)]))
          || fmt.audit(y) == Some(rec.(hashes := rec.hashes - {p})))
    ensures Verify(fmt, w.(tree := w.tree[p := x][AUDIT := y]))
  {
    hide IsSource, ReadBasis, OnlyEntry, BaseGuards;
    var w' := w.(tree := w.tree[p := x][AUDIT := y]);
    AsideEditExactly(fmt, w, w');
  }

  // ----- exactly what verify notices -----

  /** The paths whose content, presence and absence count whatever the audit record says. */
  predicate Checked(x: Basis, p: Path) {
    || IsSource(p) || Under(p, FORMAL) || p in x.before.fixed
    || exists row :: row in x.archive && row.copy == p
  }

  ghost predicate SameChecked(x: Basis, s: Snapshot, s': Snapshot) {
    forall p :: (p in s || p in s') && Checked(x, p) ==> p in s && p in s' && s[p] == s'[p]
  }

  ghost predicate SameOriginals(fmt: Format, x: Basis, w: World, w': World) {
    forall row :: row in x.archive ==>
      row.original in w'.outside && row.original in w.outside
      && fmt.sha(w'.outside[row.original]) == fmt.sha(w.outside[row.original])
  }

  lemma SourceIsChecked(x: Basis, s: Snapshot, s': Snapshot)
    requires SameChecked(x, s, s')
    ensures SourceOf(s') == SourceOf(s)
  {
    hide IsSource, Under;
    assert forall p :: IsSource(p) ==> Checked(x, p);
  }

  lemma FormalIsChecked(x: Basis, s: Snapshot, s': Snapshot)
    requires SameChecked(x, s, s')
    ensures FormalOf(s') == FormalOf(s)
  {
    hide IsSource, Under;
    assert forall p :: Under(p, FORMAL) ==> Checked(x, p);
  }

  lemma FixedIsChecked(x: Basis, s: Snapshot, s': Snapshot)
    requires SameChecked(x, s, s') && Agrees(s, x.before.fixed)
    ensures Agrees(s', x.before.fixed)
  {
    hide IsSource, Under;
    forall p | p in x.before.fixed ensures p in s' && s'[p] == x.before.fixed[p] { assert Checked(x, p); }
  }

  lemma CheckedKeeps(fmt: Format, w: World, w': World, x: Basis)
    requires BaseGuards(fmt, w, x) && w'.git == w.git
    requires SameChecked(x, Hashes(fmt.sha, w.tree), Hashes(fmt.sha, w'.tree))
    requires w'.outside == w.outside || SameOriginals(fmt, x, w, w')
    ensures BaseGuards(fmt, w', x)
  {
    hide IsSource, Under, Agrees, SourceOf, FormalOf, SameChecked, Distinct;
    var s, s' := Hashes(fmt.sha, w.tree), Hashes(fmt.sha, w'.tree);
    SourceIsChecked(x, s, s');
    FormalIsChecked(x, s, s');
    FixedIsChecked(x, s, s');
    forall row | row in x.archive ensures RowHolds(fmt, w', row) { CopyIsChecked(fmt, w, w', x, row); }
  }

  lemma CopyIsChecked(fmt: Format, w: World, w': World, x: Basis, row: Row)
    requires row in x.archive && RowHolds(fmt, w, row)
    requires SameChecked(x, Hashes(fmt.sha, w.tree), Hashes(fmt.sha, w'.tree))
    requires w'.outside == w.outside || SameOriginals(fmt, x, w, w')
    ensures RowHolds(fmt, w', row)
  {
    hide IsSource, Under;
    assert Checked(x, row.copy) && row.copy in Hashes(fmt.sha, w.tree);
  }

  lemma BothChecked(fmt: Format, w: World, w': World, x: Basis)
    requires BaseGuards(fmt, w, x) && BaseGuards(fmt, w', x)
    ensures w'.git == w.git && SameOriginals(fmt, x, w, w')
    ensures SameChecked(x, Hashes(fmt.sha, w.tree), Hashes(fmt.sha, w'.tree))
  {
    hide IsSource, Under;
    var s, s' := Hashes(fmt.sha, w.tree), Hashes(fmt.sha, w'.tree);
    forall p | (p in s || p in s') && Checked(x, p) ensures p in s && p in s' && s[p] == s'[p] {
      if IsSource(p) {
        assert p in SourceOf(s) || p in SourceOf(s');
      } else if Under(p, FORMAL) {
        assert p in FormalOf(s) || p in FormalOf(s');
        assert FormalOf(s) == FormalOf(s');
      } else if p !in x.before.fixed {
        var row :| row in x.archive && row.copy == p;
        assert RowHolds(fmt, w, row) && RowHolds(fmt, w', row);
      }
    }
    forall row | row in x.archive
      ensures row.original in w.outside && row.original in w'.outside
      ensures fmt.sha(w'.outside[row.original]) == fmt.sha(w.outside[row.original])
    {
      assert RowHolds(fmt, w, row) && RowHolds(fmt, w', row);
    }
  }

  const READS := {BEFORE, DOCUMENTS, FROZEN, ARCHIVE}

  /** The two audit records have the same entries for the other files that verify reads. */
  predicate Pinned(rec: Record, rec': Record) {
    READS <= rec.hashes.Keys && forall p :: p in READS ==> p in rec'.hashes && rec'.hashes[p] == rec.hashes[p]
  }

  lemma PinnedReadsAreSame(fmt: Format, w: World, w': World, rec: Record, rec': Record)
    requires Injective(fmt.sha) && Pinned(rec, rec')
    requires Agrees(Hashes(fmt.sha, w.tree), rec.hashes) && Agrees(Hashes(fmt.sha, w'.tree), rec'.hashes)
    ensures ReadBasis(fmt, w'.tree) == ReadBasis(fmt, w.tree)
  {
    forall p | p in READS ensures p in w.tree && p in w'.tree && w.tree[p] == w'.tree[p] {
      assert fmt.sha(w.tree[p]) == rec.hashes[p] == fmt.sha(w'.tree[p]);
    }
  }

  /** An accepted world and another one are both accepted exactly when the repository is in the same
      state, no checked file was added, removed or changed, and the audit file of the other one can
      be read, names the same source and the paths that Git lists there, and has no entry that is
      untrue; provided it has the old entries for the files that verify reads, and no two contents
      share a hash. */
  lemma VerifyNoticesExactly(fmt: Format, w: World, w': World)
    requires Injective(fmt.sha) && Verify(fmt, w)
    requires var rec, rec' := Read(w.tree, AUDIT, fmt.audit).value, Read(w'.tree, AUDIT, fmt.audit);
      rec'.Ok? ==> Pinned(rec, rec'.value)
    ensures var x, rec, rec' := ReadBasis(fmt, w.tree).value, Read(w.tree, AUDIT, fmt.audit).value,
                                Read(w'.tree, AUDIT, fmt.audit);
      Verify(fmt, w') <==>
        && rec'.Ok? && rec'.value.source == rec.source && w'.listed == rec'.value.pending + x.before.excluded
        && w'.git == w.git && SameChecked(x, Hashes(fmt.sha, w.tree), Hashes(fmt.sha, w'.tree))
        && SameOriginals(fmt, x, w, w') && Agrees(Hashes(fmt.sha, w'.tree), rec'.value.hashes)
  {
    hide IsSource, ReadBasis, BaseGuards, Agrees, SameChecked, SameOriginals, Pinned, SourceOf, Injective;
    var x, rec, rec' := ReadBasis(fmt, w.tree).value, Read(w.tree, AUDIT, fmt.audit).value,
                        Read(w'.tree, AUDIT, fmt.audit);
    var s, s' := Hashes(fmt.sha, w.tree), Hashes(fmt.sha, w'.tree);
    if rec'.Ok? && Agrees(s', rec'.value.hashes) {
      PinnedReadsAreSame(fmt, w, w', rec, rec'.value);
      if BaseGuards(fmt, w', x) { BothChecked(fmt, w, w', x); }
      if SameChecked(x, s, s') {
        SourceIsChecked(x, s, s');
        if w'.git == w.git && SameOriginals(fmt, x, w, w') { CheckedKeeps(fmt, w, w', x); }
      }
    }
  }

  ghost predicate SameEntries(rec: Record, s: Snapshot, s': Snapshot) {
    forall p :: p in rec.hashes ==> p in s && p in s' && s[p] == s'[p]
  }

  /** In particular, while the audit file stays as it is: the same listing, the same repository, and
      no difference in a checked file or in one that the audit hashed. */
  lemma UnchangedAuditNotices(fmt: Format, w: World, w': World)
    requires Injective(fmt.sha) && Verify(fmt, w)
    requires AUDIT in w'.tree && w'.tree[AUDIT] == w.tree[AUDIT]
    requires READS <= Read(w.tree, AUDIT, fmt.audit).value.hashes.Keys
    ensures var x, rec := ReadBasis(fmt, w.tree).value, Read(w.tree, AUDIT, fmt.audit).value;
      Verify(fmt, w') <==>
        && w'.listed == w.listed && w'.git == w.git && SameOriginals(fmt, x, w, w')
        && SameChecked(x, Hashes(fmt.sha, w.tree), Hashes(fmt.sha, w'.tree))
        && SameEntries(rec, Hashes(fmt.sha, w.tree), Hashes(fmt.sha, w'.tree))
  {
    hide IsSource, ReadBasis, BaseGuards, SameChecked, SameOriginals, SourceOf, Injective;
    VerifyNoticesExactly(fmt, w, w');
    EntriesSame(Read(w.tree, AUDIT, fmt.audit).value, Hashes(fmt.sha, w.tree), Hashes(fmt.sha, w'.tree));
  }

  lemma EntriesSame(rec: Record, s: Snapshot, s': Snapshot)
    requires Agrees(s, rec.hashes)
    ensures SameEntries(rec, s, s') <==> Agrees(s', rec.hashes)
  {}

  // ----- what verify cannot notice -----

  lemma RecordPaths()
    ensures BEFORE != AUDIT && BEFORE !in {DOCUMENTS, FROZEN, ARCHIVE} && AUDIT !in READS
    ensures !IsSource(BEFORE) && !Under(BEFORE, FORMAL) && !IsSource(AUDIT) && !Under(AUDIT, FORMAL)
  {
    hide IsSource, Under;
    assert |OUT| == 44 && |FROZEN| == 61;
    assert BEFORE[..|OUT|] == OUT && AUDIT[..|OUT|] == OUT;
    OutIsUnder("before.json");
    OutIsUnder("final.audit.json");
    OutIsNeither(BEFORE);
    OutIsNeither(AUDIT);
  }

  lemma OutIsUnder(name: string)
    ensures Under(OUT + name, OUT)
  {}

  /** Which files a world may hold anything in, once `before.json` and the audit are edited with
      them. */
  predicate Protected(x: Basis, p: Path) {
    && p in x.before.fixed && !IsSource(p) && !Under(p, FORMAL) && p !in READS && p != AUDIT
    && BEFORE !in x.before.fixed && AUDIT !in x.before.fixed
    && forall row :: row in x.archive ==> row.copy !in {p, BEFORE, AUDIT}
  }

  /** The failing input: a protected file with any content, its entry in `before.json`, and the
      entries of both in the audit.  The edited world is accepted. */
  lemma ProtectedCanBeHidden(fmt: Format, w: World, p: Path, x: string, y: string, z: string)
    requires Verify(fmt, w) && Protected(ReadBasis(fmt, w.tree).value, p)
    requires var b := ReadBasis(fmt, w.tree).value.before;
      fmt.before(y) == Some(b.(fixed := b.fixed[p := fmt.sha(x)]))
    requires var rec := Read(w.tree, AUDIT, fmt.audit).value;
      AUDIT !in rec.hashes && fmt.audit(z) == Some(rec.(hashes := rec.hashes[BEFORE := fmt.sha(y)][p := fmt.sha(x)]))
    ensures Verify(fmt, w.(tree := w.tree[p := x][BEFORE := y][AUDIT := z]))
  {
    hide IsSource, Under, BaseGuards, SourceOf, ReadBasis, Agrees;
    RecordPaths();
    var w' := w.(tree := w.tree[p := x][BEFORE := y][AUDIT := z]);
    var b := ReadBasis(fmt, w.tree).value;
    HiddenReads(fmt, w.tree, b, p, x, y, z);
    HiddenKeepsBase(fmt, w, w', b, p, x, y, z);
    HiddenEntries(fmt.sha, w.tree, Read(w.tree, AUDIT, fmt.audit).value.hashes, p, x, y, z);
  }

  lemma OtherReadsKept(fmt: Format, t: Tree, t': Tree, b: Basis, n: Before)
    requires ReadBasis(fmt, t) == Ok(b) && BEFORE in t' && fmt.before(t'[BEFORE]) == Some(n)
    requires forall q :: q in READS - {BEFORE} && q in t ==> q in t' && t'[q] == t[q]
    ensures ReadBasis(fmt, t') == Ok(b.(before := n))
  {
    forall q | q in READS - {BEFORE} ensures q in t { }
  }

  lemma HiddenReads(fmt: Format, t: Tree, b: Basis, p: Path, x: string, y: string, z: string)
    requires ReadBasis(fmt, t) == Ok(b) && p !in READS + {AUDIT}
    requires fmt.before(y) == Some(b.before.(fixed := b.before.fixed[p := fmt.sha(x)]))
    ensures ReadBasis(fmt, t[p := x][BEFORE := y][AUDIT := z])
         == Ok(b.(before := b.before.(fixed := b.before.fixed[p := fmt.sha(x)])))
  {
    hide ReadBasis, IsSource, Under;
    RecordPaths();
    OtherReadsKept(fmt, t, t[p := x][BEFORE := y][AUDIT := z], b, b.before.(fixed := b.before.fixed[p := fmt.sha(x)]));
  }

  lemma HiddenEntries(sha: Sha, t: Tree, hashes: Snapshot, p: Path, x: string, y: string, z: string)
    requires Agrees(Hashes(sha, t), hashes) && p !in {BEFORE, AUDIT} && AUDIT !in hashes
    ensures Agrees(Hashes(sha, t[p := x][BEFORE := y][AUDIT := z]), hashes[BEFORE := sha(y)][p := sha(x)])
  {
    RecordPaths();
  }

  lemma EditedBeside(sha: Sha, t: Tree, p: Path, x: string, y: string, z: string)
    requires !IsSource(p) && !Under(p, FORMAL)
    ensures var s, s' := Hashes(sha, t), Hashes(sha, t[p := x][BEFORE := y][AUDIT := z]);
      SourceOf(s') == SourceOf(s) && FormalOf(s') == FormalOf(s)
  {
    hide IsSource, Under;
    RecordPaths();
  }

  lemma FixedEdited(sha: Sha, t: Tree, fixed: Snapshot, p: Path, x: string, y: string, z: string)
    requires Agrees(Hashes(sha, t), fixed) && p !in {BEFORE, AUDIT} && BEFORE !in fixed && AUDIT !in fixed
    ensures Agrees(Hashes(sha, t[p := x][BEFORE := y][AUDIT := z]), fixed[p := sha(x)])
  {}

  lemma HiddenKeepsBase(fmt: Format, w: World, w': World, b: Basis, p: Path, x: string, y: string, z: string)
    requires BaseGuards(fmt, w, b) && Protected(b, p) && w' == w.(tree := w.tree[p := x][BEFORE := y][AUDIT := z])
    ensures BaseGuards(fmt, w', b.(before := b.before.(fixed := b.before.fixed[p := fmt.sha(x)])))
    ensures SourceOf(Hashes(fmt.sha, w'.tree)) == SourceOf(Hashes(fmt.sha, w.tree))
  {
    hide IsSource, Under, SourceOf, FormalOf, Agrees, Distinct;
    EditedBeside(fmt.sha, w.tree, p, x, y, z);
    FixedEdited(fmt.sha, w.tree, b.before.fixed, p, x, y, z);
    forall row | row in b.archive ensures RowHolds(fmt, w', row) { assert RowHolds(fmt, w, row); }
  }

  /** After generate and a first verification: editing any single pending file but the audit file
      itself makes verify fail. */
  lemma PendingEditIsNoticed(fmt: Format, w: World, l: Layering, c: string, t: string, p: Path, x: string)
    requires Injective(fmt.sha) && RoundTrips(fmt) && Generate(fmt, w, l, c, t).Ok?
    requires Verify(fmt, Generate(fmt, w, l, c, t).value.0)
    requires p in Generate(fmt, w, l, c, t).value.1.pending && p != AUDIT
    ensures var w' := Generate(fmt, w, l, c, t).value.0;
      p in w'.tree && (Verify(fmt, w'.(tree := w'.tree[p := x])) <==> x == w'.tree[p])
  {
    hide IsSource, BaseGuards, ReadBasis, Generate, RoundTrips;
    var (w', rec) := Generate(fmt, w, l, c, t).value;
    GenerateSays(fmt, w, l, c, t);
    RoundTripped(fmt, rec);
    assert p in rec.hashes && rec.hashes[p] == fmt.sha(w'.tree[p]);
    if x == w'.tree[p] { assert w'.tree[p := x] == w'.tree; }
  }

  // ----- documents -----

  /** The archiver's side of the document guard: old documents under separable layers pass it,
      the log also when a decision is appended that the old log did not announce. */
  lemma LayeredDocumentsPass(sha: Sha, t: Tree, old0: Tree, docs: set<Path>, b: Before, l: Layering, blocks: Tree,
                             entry: string)
    requires docs <= t.Keys && docs <= old0.Keys && docs <= blocks.Keys && docs <= b.documentsBefore.Keys
    requires forall p :: p in docs ==> b.documentsBefore[p] == sha(old0[p]) && Layers.Separable(blocks[p], l.separator)
    requires forall p :: p in docs && p != l.log ==> t[p] == Layers.AddLayer(old0[p], blocks[p], l.separator)
    requires l.log in docs ==>
      && t[l.log] == Layers.AddLayer(old0[l.log] + l.decision + entry, blocks[l.log], l.separator)
      && Layers.Separable(old0[l.log], l.decision)
    ensures Layered(sha, t, docs, b, l)
  {
    hide Layers.Separable, Layers.AddLayer, Layers.Peel, Layers.Historical;
    forall p | p in docs
      ensures HistoryOf(t, p, l).Ok? && sha(HistoryOf(t, p, l).value) == b.documentsBefore[p]
    {
      if p == l.log {
        Layers.DecisionLogExactly(old0[p], blocks[p], l.separator, l.decision, entry);
      } else {
        Layers.PeelExactly(old0[p], blocks[p], l.separator);
      }
    }
  }

  /** After a successful generate, every file that was pending before has its earlier hash, or is
      one of the named documents, has changed, and holds its earlier self below the new layer. */
  lemma PendingAccountedFor(fmt: Format, w: World, l: Layering, c: string, t: string, p: Path)
    requires Generate(fmt, w, l, c, t).Ok? && p in ReadBasis(fmt, w.tree).value.before.existingPending
    ensures var x, t' := ReadBasis(fmt, w.tree).value, Generate(fmt, w, l, c, t).value.0.tree;
      && p in t'
      && (p !in x.documents <==> fmt.sha(t'[p]) == x.before.existingPending[p])
      && (p in x.documents ==>
            && p in x.before.documentsBefore && HistoryOf(t', p, l).Ok?
            && fmt.sha(HistoryOf(t', p, l).value) == x.before.documentsBefore[p])
  {
    hide IsSource, BaseGuards, ReadBasis, Generate;
    GenerateSays(fmt, w, l, c, t);
    var x, t' := ReadBasis(fmt, w.tree).value, Generate(fmt, w, l, c, t).value.0.tree;
    var s := Hashes(fmt.sha, w.tree);
    assert p in w.tree && t'[p] == w.tree[p] && s[p] == fmt.sha(w.tree[p]);
    assert p in Changed(x.before.existingPending, s) <==> s[p] != x.before.existingPending[p];
  }
}
