/** The document tree and the scripts that loop over it.  A script stops at its first exception
    and leaves the files it has already written as they are. */
module Workspace {
  import opened Outcome
  import opened Text
  import opened Markers
  import opened Ledger
  import opened Renaming
  import opened Runs
  import opened Edits
  import opened Rows
  import opened Sections
  import Purge
  import Layers

  type Files = map<string, string>

  datatype Job = Job(name: string, block: string)

  function RunJobs(files: Files, k: Kind, r: Rename, jobs: seq<Job>): (Files, Result<()>)
    decreases |jobs|
  {
    if jobs == [] then (files, Ok(()))
    else
      var j := jobs[0];
      if j.name !in files then (files, Err(FileMissing(j.name)))
      else
        match Revise(k, r, files[j.name], j.block)
        case Err(e) => (files, Err(e))
        case Ok(t) => RunJobs(files[j.name := t], k, r, jobs[1..])
  }

  /** Where an archive loop puts its block: in front of everything, or behind the first line. */
  datatype Front = AtStart | BehindFirstLine

  function Placed(f: Front, t: string, b: string): Result<string> {
    match f
    case AtStart => Ok(b + t)
    case BehindFirstLine => InsertAt(AfterFirstLine, t, b)
  }

  /** A block for each document, none of which may have the marker yet. */
  function RunArchive(files: Files, f: Front, marker: string, jobs: seq<Job>): (Files, Result<()>)
    decreases |jobs|
  {
    if jobs == [] then (files, Ok(()))
    else
      var j := jobs[0];
      if j.name !in files then (files, Err(FileMissing(j.name)))
      else if Occurs(files[j.name], marker) then (files, Err(GuardFailed))
      else
        match Placed(f, files[j.name], j.block)
        case Err(e) => (files, Err(e))
        case Ok(t) => RunArchive(files[j.name := t], f, marker, jobs[1..])
  }

  /** The loop that deletes all blocks of a kind and prepends the new one. */
  function RunRenewals(files: Files, k: Kind, jobs: seq<Job>): (Files, Result<()>)
    requires k.start != ""
    decreases |jobs|
  {
    if jobs == [] then (files, Ok(()))
    else
      var j := jobs[0];
      if j.name !in files then (files, Err(FileMissing(j.name)))
      else RunRenewals(files[j.name := Purge.Renew(files[j.name], k, j.block)], k, jobs[1..])
  }

  class Tree {
    var files: Files

    constructor (files: Files)
      ensures this.files == files
    {
      this.files := files;
    }

    /** The update loop over the documents, one kind of block at a time. */
    method SyncAll(k: Kind, r: Rename, jobs: seq<Job>) returns (end: Result<()>)
      modifies this
      ensures (files, end) == RunJobs(old(files), k, r, jobs)
    {
      hide Find, Revise;
      var i := 0;
      while i < |jobs|
        invariant 0 <= i <= |jobs|
        invariant RunJobs(old(files), k, r, jobs) == RunJobs(files, k, r, jobs[i..])
      {
        var j := jobs[i];
        assert jobs[i..][1..] == jobs[i + 1..];
        if j.name !in files {
          return Err(FileMissing(j.name));
        }
        var revised := Revise(k, r, files[j.name], j.block);
        if revised.Err? {
          return Err(revised.error);
        }
        files := files[j.name := revised.value];
        i := i + 1;
      }
      end := Ok(());
    }

    /** The guarded archive loop. */
    method ArchiveAll(f: Front, marker: string, jobs: seq<Job>) returns (end: Result<()>)
      modifies this
      ensures (files, end) == RunArchive(old(files), f, marker, jobs)
    {
      hide Find, Occurs, Placed;
      var i := 0;
      while i < |jobs|
        invariant 0 <= i <= |jobs|
        invariant RunArchive(old(files), f, marker, jobs) == RunArchive(files, f, marker, jobs[i..])
      {
        var j := jobs[i];
        assert jobs[i..][1..] == jobs[i + 1..];
        if j.name !in files {
          return Err(FileMissing(j.name));
        }
        if Occurs(files[j.name], marker) {
          return Err(GuardFailed);
        }
        var placed := Placed(f, files[j.name], j.block);
        if placed.Err? {
          return Err(placed.error);
        }
        files := files[j.name := placed.value];
        i := i + 1;
      }
      end := Ok(());
    }

    /** The delete-and-prepend loop. */
    method RenewAll(k: Kind, jobs: seq<Job>) returns (end: Result<()>)
      requires k.start != ""
      modifies this
      ensures (files, end) == RunRenewals(old(files), k, jobs)
    {
      hide Find, Purge.Renew;
      var i := 0;
      while i < |jobs|
        invariant 0 <= i <= |jobs|
        invariant RunRenewals(old(files), k, jobs) == RunRenewals(files, k, jobs[i..])
      {
        var j := jobs[i];
        assert jobs[i..][1..] == jobs[i + 1..];
        if j.name !in files {
          return Err(FileMissing(j.name));
        }
        files := files[j.name := Purge.Renew(files[j.name], k, j.block)];
        i := i + 1;
      }
      end := Ok(());
    }

    /** One note for one section of the decision log. */
    method AddNote(path: string, heading: string, note: string) returns (end: Result<()>)
      modifies this
      ensures path !in old(files) ==> end == Err(FileMissing(path)) && files == old(files)
      ensures path in old(files) ==>
        match InsertNote(old(files)[path], heading, note)
        case Ok(t) => end == Ok(()) && files == old(files)[path := t]
        case Err(e) => end == Err(e) && files == old(files)
    {
      hide Find;
      if path !in files {
        return Err(FileMissing(path));
      }
      var s := files[path];
      var start := Find(s, heading, 0);
      if start == -1 {
        return Err(SubstringNotFound);
      }
      var end0 := Find(s, NEXT_HEADING, start + 1);
      if end0 < 0 {
        end0 := |s|;
      }
      files := files[path := s[..end0] + note + s[end0..]];
      end := Ok(());
    }

    /** The counted edits of one file: written only when every guard has passed. */
    method EditFile(path: string, changes: seq<Change>) returns (end: Result<()>)
      modifies this
      ensures path !in old(files) ==> end == Err(FileMissing(path)) && files == old(files)
      ensures path in old(files) ==>
        match Edit(old(files)[path], changes)
        case Ok(t) => end == Ok(()) && files == old(files)[path := t]
        case Err(e) => end == Err(e) && files == old(files)
    {
      hide Find, Count, Replace;
      if path !in files {
        return Err(FileMissing(path));
      }
      var t := files[path];
      var i := 0;
      while i < |changes|
        invariant 0 <= i <= |changes| && files == old(files)
        invariant Edit(old(files)[path], changes) == Edit(t, changes[i..])
      {
        assert changes[i..][1..] == changes[i + 1..];
        if Count(t, changes[i].before) != changes[i].count {
          return Err(GuardFailed);
        }
        t := Replace(t, changes[i].before, changes[i].after);
        i := i + 1;
      }
      files := files[path := t];
      end := Ok(());
    }

    /** The status column of one matrix file: written only when the row count is the expected one. */
    method ArchiveRows(path: string, expected: nat) returns (end: Result<()>)
      modifies this
      ensures path !in old(files) ==> end == Err(FileMissing(path)) && files == old(files)
      ensures path in old(files) ==>
        match ArchiveMatrix(old(files)[path], expected)
        case Ok(t) => end == Ok(()) && files == old(files)[path := t]
        case Err(e) => end == Err(e) && files == old(files)
    {
      hide Matching, Accepted, SplitLines;
      if path !in files {
        return Err(FileMissing(path));
      }
      var split := SplitLines(files[path]);
      var lines := new string[|split|](i requires 0 <= i < |split| => split[i]);
      assert lines[..] == split;
      var changed := RewriteRows(lines);
      if changed != expected {
        return Err(GuardFailed);
      }
      files := files[path := Rejoin(lines[..])];
      end := Ok(());
    }
  }

  // ----- where the loops stop -----

  /** One document: it is read, updated and written, or the loop stops there with nothing written. */
  lemma OneJob(fs: Files, k: Kind, r: Rename, f: Front, marker: string, j: Job)
    requires k.start != ""
    ensures j.name !in fs ==>
      && RunJobs(fs, k, r, [j]) == (fs, Err(FileMissing(j.name)))
      && RunArchive(fs, f, marker, [j]) == (fs, Err(FileMissing(j.name)))
      && RunRenewals(fs, k, [j]) == (fs, Err(FileMissing(j.name)))
    ensures j.name in fs ==>
      var t, u, p := fs[j.name], Revise(k, r, fs[j.name], j.block), Placed(f, fs[j.name], j.block);
      && RunJobs(fs, k, r, [j]) == (if u.Ok? then (fs[j.name := u.value], Ok(())) else (fs, Err(u.error)))
      && RunArchive(fs, f, marker, [j]) ==
           (if Occurs(t, marker) then (fs, Err(GuardFailed))
            else if p.Ok? then (fs[j.name := p.value], Ok(())) else (fs, Err(p.error)))
      && RunRenewals(fs, k, [j]) == (fs[j.name := Purge.Renew(t, k, j.block)], Ok(()))
  {
    hide Revise, Placed, Purge.Renew, Occurs;
    assert [j][1..] == [];
  }

  /** And documents one after the other: what follows the first stop is not touched. */
  lemma {:induction false} RunJobsConcat(fs: Files, k: Kind, r: Rename, a: seq<Job>, b: seq<Job>)
    ensures var (fs', end) := RunJobs(fs, k, r, a);
      RunJobs(fs, k, r, a + b) == if end.Err? then (fs', end) else RunJobs(fs', k, r, b)
    decreases |a|
  {
    hide Revise;
    if a == [] {
      assert a + b == b;
    } else {
      assert (a + b)[0] == a[0] && (a + b)[1..] == a[1..] + b;
      if a[0].name in fs && Revise(k, r, fs[a[0].name], a[0].block).Ok? {
        RunJobsConcat(fs[a[0].name := Revise(k, r, fs[a[0].name], a[0].block).value], k, r, a[1..], b);
      }
    }
  }

  lemma {:induction false} RunArchiveConcat(fs: Files, f: Front, marker: string, a: seq<Job>, b: seq<Job>)
    ensures var (fs', end) := RunArchive(fs, f, marker, a);
      RunArchive(fs, f, marker, a + b) == if end.Err? then (fs', end) else RunArchive(fs', f, marker, b)
    decreases |a|
  {
    hide Placed, Occurs;
    if a == [] {
      assert a + b == b;
    } else {
      assert (a + b)[0] == a[0] && (a + b)[1..] == a[1..] + b;
      if a[0].name in fs && !Occurs(fs[a[0].name], marker) && Placed(f, fs[a[0].name], a[0].block).Ok? {
        RunArchiveConcat(fs[a[0].name := Placed(f, fs[a[0].name], a[0].block).value], f, marker, a[1..], b);
      }
    }
  }

  lemma {:induction false} RunRenewalsConcat(fs: Files, k: Kind, a: seq<Job>, b: seq<Job>)
    requires k.start != ""
    ensures var (fs', end) := RunRenewals(fs, k, a);
      RunRenewals(fs, k, a + b) == if end.Err? then (fs', end) else RunRenewals(fs', k, b)
    decreases |a|
  {
    hide Purge.Renew;
    if a == [] {
      assert a + b == b;
    } else {
      assert (a + b)[0] == a[0] && (a + b)[1..] == a[1..] + b;
      if a[0].name in fs {
        RunRenewalsConcat(fs[a[0].name := Purge.Renew(fs[a[0].name], k, a[0].block)], k, a[1..], b);
      }
    }
  }

  // ----- interrupted runs -----

  ghost predicate AlikeFiles(k: Kind, r: Rename, fs: Files, fs0: Files) {
    fs.Keys == fs0.Keys && forall p :: p in fs ==> Alike(k, r, fs[p], fs0[p])
  }

  function Names(jobs: seq<Job>): set<string> {
    set i | 0 <= i < |jobs| :: jobs[i].name
  }

  /** Well-formed blocks, and no document in which a pass leaves the phrase it renames outside its
      block. */
  ghost predicate GoodJobs(k: Kind, r: Rename, fs: Files, jobs: seq<Job>) {
    && (forall i :: 0 <= i < |jobs| ==> WellFormed(k, jobs[i].block))
    && (forall i :: 0 <= i < |jobs| && jobs[i].name in fs ==> Spent(k, r, fs[jobs[i].name], jobs[i].block))
  }

  lemma UpdateKeepsAlike(k: Kind, r: Rename, t: string, t0: string, b: string)
    requires ValidKind(k) && WellFormed(k, b) && Spent(k, r, t0, b)
    requires Alike(k, r, t, t0) && Revise(k, r, t, b).Ok?
    ensures Alike(k, r, Revise(k, r, t, b).value, t0)
  {
    hide Revise, WellFormed, Spent;
    assert Revise(k, r, t, b) == Revise(k, r, t0, b);
    SpentIsUnseen(k, r, t0, b);
  }

  /** Whatever a run has got through, by itself or before a crash, later updates cannot see it. */
  lemma {:induction false} PartialRunUnseen(fs: Files, fs0: Files, k: Kind, r: Rename, jobs: seq<Job>)
    requires ValidKind(k) && GoodJobs(k, r, fs0, jobs) && AlikeFiles(k, r, fs, fs0)
    ensures AlikeFiles(k, r, RunJobs(fs, k, r, jobs).0, fs0)
    decreases |jobs|
  {
    hide Revise, WellFormed, Alike, Spent;
    if jobs != [] && jobs[0].name in fs && Revise(k, r, fs[jobs[0].name], jobs[0].block).Ok? {
      var j := jobs[0];
      var fs' := fs[j.name := Revise(k, r, fs[j.name], j.block).value];
      UpdateKeepsAlike(k, r, fs[j.name], fs0[j.name], j.block);
      PartialRunUnseen(fs', fs0, k, r, jobs[1..]);
    }
  }

  lemma {:induction false} OthersUntouched(fs: Files, k: Kind, r: Rename, jobs: seq<Job>)
    ensures RunJobs(fs, k, r, jobs).0.Keys == fs.Keys
    ensures forall p :: p in fs && p !in Names(jobs) ==> RunJobs(fs, k, r, jobs).0[p] == fs[p]
    decreases |jobs|
  {
    hide Revise;
    if jobs != [] && jobs[0].name in fs && Revise(k, r, fs[jobs[0].name], jobs[0].block).Ok? {
      OthersUntouched(fs[jobs[0].name := Revise(k, r, fs[jobs[0].name], jobs[0].block).value], k, r, jobs[1..]);
      NamesOf(jobs);
    }
  }

  lemma NamesOf(jobs: seq<Job>)
    requires jobs != []
    ensures Names(jobs) == {jobs[0].name} + Names(jobs[1..])
  {
    forall n | n in Names(jobs) ensures n in {jobs[0].name} + Names(jobs[1..]) {
      var i :| 0 <= i < |jobs| && jobs[i].name == n;
      if i > 0 { assert jobs[1..][i - 1].name == n; }
    }
    assert jobs[0].name in Names(jobs);
    forall n | n in Names(jobs[1..]) ensures n in Names(jobs) {
      var i :| 0 <= i < |jobs[1..]| && jobs[1..][i].name == n;
      assert jobs[i + 1].name == n;
    }
  }

  lemma AlikeUpdates(k: Kind, r: Rename, t: string, t0: string, b: string)
    requires Alike(k, r, t, t0)
    ensures Revise(k, r, t, b) == Revise(k, r, t0, b)
  {}

  lemma AlikeSelf(k: Kind, r: Rename, fs: Files)
    ensures AlikeFiles(k, r, fs, fs)
  {}

  lemma TextAlikeSelf(k: Kind, r: Rename, t: string)
    ensures Alike(k, r, t, t)
  {}

  /** Two runs from trees that look alike end alike, with the same text in every file they wrote. */
  lemma {:induction false} RunsAgree(fs: Files, fs0: Files, k: Kind, r: Rename, jobs: seq<Job>, done: set<string>)
    requires AlikeFiles(k, r, fs, fs0)
    requires forall p :: p in done && p in fs ==> fs[p] == fs0[p]
    ensures RunJobs(fs, k, r, jobs).1 == RunJobs(fs0, k, r, jobs).1
    ensures RunJobs(fs, k, r, jobs).0.Keys == RunJobs(fs0, k, r, jobs).0.Keys == fs.Keys
    ensures RunJobs(fs, k, r, jobs).1.Ok? ==>
      forall p :: p in fs && p in done + Names(jobs) ==> RunJobs(fs, k, r, jobs).0[p] == RunJobs(fs0, k, r, jobs).0[p]
    decreases |jobs|
  {
    hide Revise, Alike;
    if jobs != [] && jobs[0].name in fs {
      var j := jobs[0];
      AlikeUpdates(k, r, fs[j.name], fs0[j.name], j.block);
      NamesOf(jobs);
      if Revise(k, r, fs[j.name], j.block).Ok? {
        var t := Revise(k, r, fs[j.name], j.block).value;
        TextAlikeSelf(k, r, t);
        RunsAgree(fs[j.name := t], fs0[j.name := t], k, r, jobs[1..], done + {j.name});
      }
    }
  }

  lemma CutIsGood(k: Kind, r: Rename, fs: Files, jobs: seq<Job>, cut: nat)
    requires GoodJobs(k, r, fs, jobs) && cut <= |jobs|
    ensures GoodJobs(k, r, fs, jobs[..cut]) && Names(jobs[..cut]) <= Names(jobs)
  {
    hide Spent, WellFormed;
    var part := jobs[..cut];
    assert forall i :: 0 <= i < |part| ==> part[i] == jobs[i];
    forall n | n in Names(part) ensures n in Names(jobs) {
      var i :| 0 <= i < |part| && part[i].name == n;
      assert jobs[i].name in Names(jobs);
    }
  }

  /** Crash recovery: a run that was cut off after any number of documents, followed by any full
      run over them, ends exactly like the full run alone. */
  lemma InterruptedRunIsForgotten(fs: Files, k: Kind, r: Rename, older: seq<Job>, cut: nat, newer: seq<Job>)
    requires ValidKind(k) && GoodJobs(k, r, fs, older) && cut <= |older| && Names(older) <= Names(newer)
    ensures RunJobs(RunJobs(fs, k, r, older[..cut]).0, k, r, newer).1 == RunJobs(fs, k, r, newer).1
    ensures RunJobs(fs, k, r, newer).1.Ok? ==>
      RunJobs(RunJobs(fs, k, r, older[..cut]).0, k, r, newer) == RunJobs(fs, k, r, newer)
  {
    hide Alike, RunJobs, GoodJobs;
    var part := older[..cut];
    CutIsGood(k, r, fs, older, cut);
    AlikeSelf(k, r, fs);
    PartialRunUnseen(fs, fs, k, r, part);
    var fs' := RunJobs(fs, k, r, part).0;
    RunsAgree(fs', fs, k, r, newer, {});
    OthersUntouched(fs, k, r, part);
    OthersUntouched(fs', k, r, newer);
    OthersUntouched(fs, k, r, newer);
    if RunJobs(fs, k, r, newer).1.Ok? {
      var a, b := RunJobs(fs', k, r, newer).0, RunJobs(fs, k, r, newer).0;
      assert forall p :: p in fs ==> a[p] == b[p];
      assert a == b;
    }
  }

  // ----- updated documents -----

  /** The blocks of one kind, as updates. */
  function Updates(k: Kind, bs: seq<string>): seq<Block> {
    seq(|bs|, i requires 0 <= i < |bs| => Block(k, bs[i]))
  }

  lemma {:induction false} RunTextFirst(t: string, u: Block, us: seq<Block>)
    ensures RunText(t, [u] + us) ==
      if Sync(u.kind, t, u.text).Err? then Sync(u.kind, t, u.text) else RunText(Sync(u.kind, t, u.text).value, us)
    decreases |us|
  {
    hide Sync;
    if us == [] {
      assert [u] + us == [u] && [u][..0] == [];
    } else {
      var n := |us| - 1;
      assert ([u] + us)[..n + 1] == [u] + us[..n];
      RunTextFirst(t, u, us[..n]);
    }
  }

  /** A finished run without a rename leaves in each document what the updates named for it make of
      it, one after the other; so what is proved of runs over one text holds of the tree. */
  lemma {:induction false} UpdatesAreLocal(fs: Files, k: Kind, jobs: seq<Job>, p: string)
    requires p in fs && RunJobs(fs, k, Keep, jobs).1.Ok?
    ensures p in RunJobs(fs, k, Keep, jobs).0 && RunText(fs[p], Updates(k, BlocksFor(jobs, p))).Ok?
    ensures RunText(fs[p], Updates(k, BlocksFor(jobs, p))).value == RunJobs(fs, k, Keep, jobs).0[p]
    decreases |jobs|
  {
    hide Sync, RunText;
    if jobs == [] {
      NoUpdates(fs[p], k);
    } else {
      var j, rest := jobs[0], BlocksFor(jobs[1..], p);
      UpdatesAreLocal(fs[j.name := Revise(k, Keep, fs[j.name], j.block).value], k, jobs[1..], p);
      if j.name == p {
        assert Updates(k, [j.block] + rest) == [Block(k, j.block)] + Updates(k, rest);
        RunTextFirst(fs[p], Block(k, j.block), Updates(k, rest));
      } else {
        assert [] + rest == rest;
      }
    }
  }

  lemma NoUpdates(t: string, k: Kind)
    ensures RunText(t, Updates(k, [])) == Ok(t)
  {}

  /** In particular a document that such a run names, and that has its other blocks in place, has
      exactly one block of the kind afterwards, the last one that was named for it. */
  lemma OneBlockInTree(fs: Files, k: Kind, jobs: seq<Job>, p: string, d: Doc, kinds: set<Kind>)
    requires p in fs && RunJobs(fs, k, Keep, jobs).1.Ok? && p in Names(jobs)
    requires Admissible(d, kinds) && fs[p] == Render(d) && k in kinds
    requires AllClean(Updates(k, BlocksFor(jobs, p)), kinds)
    ensures var bs := BlocksFor(jobs, p);
      bs != [] && p in RunJobs(fs, k, Keep, jobs).0
      && OnlyBlock(RunJobs(fs, k, Keep, jobs).0[p], Block(k, bs[|bs| - 1]))
  {
    hide RunJobs, RunText, Admissible, AllClean, Render, OnlyBlock, Reads, Made;
    var bs := BlocksFor(jobs, p);
    var us := Updates(k, bs);
    UpdatesAreLocal(fs, k, jobs, p);
    OneBlockPerKind(d, us, k, kinds);
    NamedHasBlocks(jobs, p);
    var all := Made(d) + us;
    assert all[|all| - 1] == us[|us| - 1] == Block(k, bs[|bs| - 1]);
    assert Uses(all, k) && Latest(all, k) == bs[|bs| - 1];
  }

  lemma {:induction false} NamedHasBlocks(jobs: seq<Job>, p: string)
    requires p in Names(jobs)
    ensures BlocksFor(jobs, p) != []
    decreases |jobs|
  {
    NamesOf(jobs);
    if jobs[0].name != p { NamedHasBlocks(jobs[1..], p); }
  }

  // ----- guarded archives -----

  lemma PlacedHas(f: Front, t: string, b: string, m: string)
    requires Placed(f, t, b).Ok? && Occurs(b, m)
    ensures Occurs(Placed(f, t, b).value, m)
  {
    hide Find;
    match f
    case AtStart => InfixHas("", b, t, m); assert "" + b + t == b + t;
    case BehindFirstLine =>
      InsertSplits(AfterFirstLine, t, b);
      InfixHas(Before(AfterFirstLine, t), b, After(AfterFirstLine, t), m);
  }

  /** A finished or interrupted archive run cannot be entered again: the guard stops it at the
      first document, before anything is written. */
  lemma {:induction false} ArchiveOnce(fs: Files, f: Front, marker: string, jobs: seq<Job>, cut: nat)
    requires 0 < cut <= |jobs| && RunArchive(fs, f, marker, jobs[..cut]).1.Ok?
    requires forall i :: 0 <= i < |jobs| ==> Occurs(jobs[i].block, marker)
    ensures RunArchive(RunArchive(fs, f, marker, jobs[..cut]).0, f, marker, jobs)
         == (RunArchive(fs, f, marker, jobs[..cut]).0, Err(GuardFailed))
  {
    hide Find, Occurs, Placed;
    var j, rest := jobs[0], jobs[..cut][1..];
    PlacedHas(f, fs[j.name], j.block, marker);
    MarkedStays(fs[j.name := Placed(f, fs[j.name], j.block).value], f, marker, rest, j.name);
  }

  lemma {:induction false} MarkedStays(fs: Files, f: Front, marker: string, jobs: seq<Job>, name: string)
    requires name in fs && Occurs(fs[name], marker)
    ensures name in RunArchive(fs, f, marker, jobs).0
    ensures RunArchive(fs, f, marker, jobs).0[name] == fs[name]
    decreases |jobs|
  {
    hide Find, Occurs, Placed;
    if jobs != [] && jobs[0].name in fs && !Occurs(fs[jobs[0].name], marker) {
      var j := jobs[0];
      var placed := Placed(f, fs[j.name], j.block);
      if placed.Ok? { MarkedStays(fs[j.name := placed.value], f, marker, jobs[1..], name); }
    }
  }

  /** Each document of a finished run has got its own block, placed in what it was before, and no
      other file is different; in particular no document was named twice. */
  lemma {:induction false} EachArchivedOnce(fs: Files, f: Front, marker: string, jobs: seq<Job>)
    requires RunArchive(fs, f, marker, jobs).1.Ok?
    requires forall i :: 0 <= i < |jobs| ==> Occurs(jobs[i].block, marker)
    ensures RunArchive(fs, f, marker, jobs).0.Keys == fs.Keys
    ensures forall i, j :: 0 <= i < j < |jobs| ==> jobs[i].name != jobs[j].name
    ensures forall i :: 0 <= i < |jobs| ==> jobs[i].name in fs && !Occurs(fs[jobs[i].name], marker)
    ensures forall i :: 0 <= i < |jobs| ==>
      Placed(f, fs[jobs[i].name], jobs[i].block) == Ok(RunArchive(fs, f, marker, jobs).0[jobs[i].name])
    ensures forall p :: p in fs && p !in Names(jobs) ==> RunArchive(fs, f, marker, jobs).0[p] == fs[p]
    decreases |jobs|
  {
    hide Find, Occurs, Placed;
    if jobs != [] {
      var j, rest := jobs[0], jobs[1..];
      var fs' := fs[j.name := Placed(f, fs[j.name], j.block).value];
      PlacedHas(f, fs[j.name], j.block, marker);
      EachArchivedOnce(fs', f, marker, rest);
      NamesOf(jobs);
      assert forall i :: 1 <= i < |jobs| ==> rest[i - 1] == jobs[i];
      assert forall i :: 1 <= i < |jobs| ==> jobs[i].name != j.name;
      assert j.name !in Names(rest);
    }
  }

  /** Where the block stands in an archived document. */
  lemma PlacedExactly(f: Front, t: string, b: string)
    ensures f == AtStart ==> Placed(f, t, b).Ok? && Placed(f, t, b).value == b + t
    ensures f == BehindFirstLine ==> (Placed(f, t, b).Ok? <==> Occurs(t, "\n"))
    ensures f == BehindFirstLine && Occurs(t, "\n") ==>
      Placed(f, t, b).value == FirstLine(t) + "\n" + ("\n" + b + "\n") + Rest(t)
  {
    hide Find;
    if f == BehindFirstLine && Occurs(t, "\n") {
      SplitFirstLine(t);
      var n := Find(t, "\n", 0);
      assert t[..n + 1] == FirstLine(t) + "\n";
      assert t[..n + 1] + "\n" + b + "\n" + t[n + 1..] == FirstLine(t) + "\n" + ("\n" + b + "\n") + Rest(t);
    }
  }

  /** The content of every document after a finished archive run. */
  lemma ArchivedContents(fs: Files, f: Front, marker: string, jobs: seq<Job>, i: nat)
    requires RunArchive(fs, f, marker, jobs).1.Ok? && i < |jobs|
    requires forall n :: 0 <= n < |jobs| ==> Occurs(jobs[n].block, marker)
    ensures jobs[i].name in fs && jobs[i].name in RunArchive(fs, f, marker, jobs).0
    ensures var t, b, t' := fs[jobs[i].name], jobs[i].block, RunArchive(fs, f, marker, jobs).0[jobs[i].name];
      match f
      case AtStart => t' == b + t
      case BehindFirstLine =>
        Occurs(t, "\n") && t' == FirstLine(t) + "\n" + ("\n" + b + "\n") + Rest(t)
  {
    hide Find, Occurs, Placed, RunArchive;
    EachArchivedOnce(fs, f, marker, jobs);
    PlacedExactly(f, fs[jobs[i].name], jobs[i].block);
  }

  /** Writer and reader over the tree: after a finished run the auditor reads from each document the
      body that was archived in it, exactly when the first END behind that body closes it. */
  lemma ArchivedIsRead(fs: Files, k: Kind, jobs: seq<Job>, i: nat, body: string)
    requires ValidKind(k) && RunArchive(fs, AtStart, k.start, jobs).1.Ok? && i < |jobs|
    requires forall n :: 0 <= n < |jobs| ==> Occurs(jobs[n].block, k.start)
    requires jobs[i].block == k.start + body + k.end + "\n\n"
    ensures jobs[i].name in RunArchive(fs, AtStart, k.start, jobs).0
    ensures Extract(RunArchive(fs, AtStart, k.start, jobs).0[jobs[i].name], k).Ok?
    ensures Extract(RunArchive(fs, AtStart, k.start, jobs).0[jobs[i].name], k).value == body
       <==> Layers.Separable(body, k.end)
  {
    hide Find, Occurs, RunArchive, Layers.Separable;
    ArchivedContents(fs, AtStart, k.start, jobs, i);
    Layers.ReaderAgreesExactly(k, body, fs[jobs[i].name]);
  }

  // ----- renewed documents -----

  /** A document that was renewed has the latest block named for it in front of what the earlier
      runs over it left; the others are as they were. */
  lemma {:induction false} RenewalsAreLocal(fs: Files, k: Kind, jobs: seq<Job>, p: string)
    requires k.start != "" && p in fs
    ensures p in RunRenewals(fs, k, jobs).0
    ensures RunRenewals(fs, k, jobs).1.Ok? ==>
      RunRenewals(fs, k, jobs).0[p] == Purge.RenewAll(fs[p], k, BlocksFor(jobs, p))
    decreases |jobs|
  {
    hide Find, Purge.Renew;
    if jobs != [] && jobs[0].name in fs {
      var j := jobs[0];
      RenewalsAreLocal(fs[j.name := Purge.Renew(fs[j.name], k, j.block)], k, jobs[1..], p);
      if j.name == p {
        RenewFirst(fs[p], k, j.block, BlocksFor(jobs[1..], p));
      } else {
        assert [] + BlocksFor(jobs[1..], p) == BlocksFor(jobs[1..], p);
      }
    }
  }

  function BlocksFor(jobs: seq<Job>, p: string): seq<string> {
    if jobs == [] then []
    else (if jobs[0].name == p then [jobs[0].block] else []) + BlocksFor(jobs[1..], p)
  }

  lemma {:induction false} RenewFirst(t: string, k: Kind, b: string, bs: seq<string>)
    requires k.start != ""
    ensures Purge.RenewAll(t, k, [b] + bs) == Purge.RenewAll(Purge.Renew(t, k, b), k, bs)
    decreases |bs|
  {
    hide Purge.Renew;
    if bs == [] {
      assert [b] + bs == [b] && [b][..0] == [];
    } else {
      var n := |bs| - 1;
      assert ([b] + bs)[..n + 1] == [b] + bs[..n];
      RenewFirst(t, k, b, bs[..n]);
    }
  }
}
