/** Test runs and their evidence records (p18_exception_evidence/run.py): any number of processes,
    started at any time, interrupted or killed at any point. */
module RunRecords {
  import opened Outcome

  type Label = string
  type Pid = nat

  /** The hashes of all source files, sampled at one moment. */
  type Source = map<string, string>

  datatype Status = STARTED | FINISHED | INTERRUPTED | ERROR

  /** What the test runner reported. */
  datatype Tally = Tally(failures: nat, errors: nat, successful: bool)

  /** The JSON file.  `exitCode`, `after` and `tally` are missing until the process closes it;
      the tally stays missing when the tests never got to an end. */
  datatype Record = Record(owner: Pid, status: Status, before: Source, tally: Option<Tally>,
                           exitCode: Option<int>, after: Option<Source>)

  /** How far a process has got. */
  datatype Point =
    | Created                                              // record file written as STARTED
    | Logging                                              // stdout log open
    | Testing                                              // both logs open, inside the try
    | Tallied(tally: Tally)                                // results recorded, exit code still 1
    | Judged(tally: Tally)                                 // exit code chosen
    | Marked(tally: Tally)                                 // status set, still inside the try
    | Closing(status: Status, code: int, seen: Option<Tally>)  // in the finally block

  datatype Process = Process(name: Label, before: Source, point: Point)

  datatype State = State(records: map<Label, Record>, stdouts: set<Label>, stderrs: set<Label>,
                         procs: map<Pid, Process>, used: set<Pid>)

  datatype Event =
    | Begin(pid: Pid, name: Label, source: Source)
    | OpenStdout(pid: Pid)
    | OpenStderr(pid: Pid)
    | Report(pid: Pid, tally: Tally)
    | Judge(pid: Pid)
    | Mark(pid: Pid)
    | Leave(pid: Pid)
    | Raise(pid: Pid, keyboard: bool)
    | Close(pid: Pid, source: Source)
    | Kill(pid: Pid)

  const EMPTY := State(map[], {}, {}, map[], {})

  predicate ValidLabel(l: Label) {
    l != "" && forall i :: 0 <= i < |l| ==> 'a' <= l[i] <= 'z' || '0' <= l[i] <= '9' || l[i] == '-' || l[i] == '_'
  }

  /** A runner that counts a failure or an error does not call itself successful. */
  predicate Honest(t: Tally) {
    t.successful ==> t.failures == 0 && t.errors == 0
  }

  function CodeOf(t: Tally): int {
    if t.successful then 0 else 1
  }

  function At(s: State, pid: Pid, p: Point): State
    requires pid in s.procs
  {
    s.(procs := s.procs[pid := s.procs[pid].(point := p)])
  }

  function Gone(s: State, pid: Pid): State {
    s.(procs := s.procs - {pid})
  }

  /** One step; an event that does not apply changes nothing. */
  function Step(s: State, e: Event): State {
    match e
    case Begin(pid, l, source) =>
      if pid in s.used then s
      else if !ValidLabel(l) || l in s.records then s.(used := s.used + {pid})
      else s.(used := s.used + {pid},
              records := s.records[l := Record(pid, STARTED, source, None, None, None)],
              procs := s.procs[pid := Process(l, source, Created)])
    case OpenStdout(pid) =>
      if pid !in s.procs || !s.procs[pid].point.Created? then s
      else
        var l := s.procs[pid].name;
        if l in s.stdouts then Gone(s, pid) else At(s.(stdouts := s.stdouts + {l}), pid, Logging)
    case OpenStderr(pid) =>
      if pid !in s.procs || !s.procs[pid].point.Logging? then s
      else
        var l := s.procs[pid].name;
        if l in s.stderrs then Gone(s, pid) else At(s.(stderrs := s.stderrs + {l}), pid, Testing)
    case Report(pid, tally) =>
      if pid !in s.procs || !s.procs[pid].point.Testing? || !Honest(tally) then s
      else At(s, pid, Tallied(tally))
    case Judge(pid) =>
      if pid !in s.procs || !s.procs[pid].point.Tallied? then s
      else At(s, pid, Judged(s.procs[pid].point.tally))
    case Mark(pid) =>
      if pid !in s.procs || !s.procs[pid].point.Judged? then s
      else At(s, pid, Marked(s.procs[pid].point.tally))
    case Leave(pid) =>
      if pid !in s.procs || !s.procs[pid].point.Marked? then s
      else At(s, pid, Closing(FINISHED, CodeOf(s.procs[pid].point.tally), Some(s.procs[pid].point.tally)))
    case Raise(pid, keyboard) =>
      if pid !in s.procs then s
      else
        var status := if keyboard then INTERRUPTED else ERROR;
        (match s.procs[pid].point
         case Testing => At(s, pid, Closing(status, 1, None))
         case Tallied(t) => At(s, pid, Closing(status, 1, Some(t)))
         case Judged(t) => At(s, pid, Closing(status, CodeOf(t), Some(t)))
         case Marked(t) => At(s, pid, Closing(status, CodeOf(t), Some(t)))
         case _ => s)
    case Close(pid, source) =>
      if pid !in s.procs || !s.procs[pid].point.Closing? then s
      else
        var p := s.procs[pid];
        var final := Record(pid, p.point.status, p.before, p.point.seen, Some(p.point.code), Some(source));
        Gone(s.(records := s.records[p.name := final]), pid)
    case Kill(pid) => Gone(s, pid)
  }

  function Run(s: State, es: seq<Event>): State {
    if es == [] then s else Step(Run(s, es[..|es| - 1]), es[|es| - 1])
  }

  /** The condition under which `finalize.py` takes a run as evidence. */
  predicate Accepted(r: Record, frozen: Source) {
    && r.status == FINISHED && r.exitCode == Some(0)
    && r.tally.Some? && r.tally.value.failures == 0 && r.tally.value.errors == 0
    && r.before == frozen && r.after == Some(frozen)
  }

  // ----- the invariant -----

  /** A process owns the open record of its label, and no other process has that label. */
  ghost predicate Owns(s: State, pid: Pid) {
    && pid in s.procs && pid in s.used && s.procs[pid].name in s.records
    && s.records[s.procs[pid].name] == Record(pid, STARTED, s.procs[pid].before, None, None, None)
  }

  ghost predicate GoodRecord(s: State, l: Label) {
    && l in s.records && ValidLabel(l) && s.records[l].owner in s.used
    && var r := s.records[l];
       if r.status == STARTED then r.tally == None && r.exitCode == None && r.after == None
       else r.exitCode.Some? && r.after.Some?
            && GoodClosing(r.status, r.exitCode.value, r.tally)
  }

  /** Without results the code is 1; a finished run has the code of its results; an interrupted
      one has that code or still 1. */
  ghost predicate GoodClosing(status: Status, code: int, seen: Option<Tally>) {
    && status != STARTED && (status == FINISHED ==> seen.Some? && code == CodeOf(seen.value))
    && (if seen.Some? then Honest(seen.value) && (code == CodeOf(seen.value) || code == 1) else code == 1)
  }

  ghost predicate GoodPoint(p: Point) {
    match p
    case Created => true
    case Logging => true
    case Testing => true
    case Tallied(t) => Honest(t)
    case Judged(t) => Honest(t)
    case Marked(t) => Honest(t)
    case Closing(status, code, seen) => GoodClosing(status, code, seen)
  }

  ghost predicate Inv(s: State) {
    && (forall pid :: pid in s.procs ==> Owns(s, pid) && GoodPoint(s.procs[pid].point))
    && (forall l :: l in s.records ==> GoodRecord(s, l))
  }

  /** A step concerns one process; the others stay as they are. */
  lemma OthersStay(s: State, e: Event, pid: Pid)
    requires pid != e.pid
    ensures pid in Step(s, e).procs <==> pid in s.procs
    ensures pid in s.procs ==> Step(s, e).procs[pid] == s.procs[pid]
  {
    hide ValidLabel, Honest, CodeOf;
  }

  lemma OwnProcessOpens(s: State, e: Event)
    requires Inv(s) && e.pid in Step(s, e).procs && (e.Begin? || e.OpenStdout? || e.OpenStderr?)
    ensures Owns(Step(s, e), e.pid) && GoodPoint(Step(s, e).procs[e.pid].point)
  {
    hide ValidLabel, Honest, CodeOf, GoodRecord;
    if e.pid in s.procs { assert Owns(s, e.pid) && GoodPoint(s.procs[e.pid].point); }
  }

  lemma OwnProcessTests(s: State, e: Event)
    requires Inv(s) && e.pid in Step(s, e).procs && (e.Report? || e.Judge? || e.Mark?)
    ensures Owns(Step(s, e), e.pid) && GoodPoint(Step(s, e).procs[e.pid].point)
  {
    hide ValidLabel, Honest, CodeOf, GoodRecord;
    if e.pid in s.procs { assert Owns(s, e.pid) && GoodPoint(s.procs[e.pid].point); }
  }

  lemma OwnProcessEnds(s: State, e: Event)
    requires Inv(s) && e.pid in Step(s, e).procs && (e.Leave? || e.Raise? || e.Close? || e.Kill?)
    ensures Owns(Step(s, e), e.pid) && GoodPoint(Step(s, e).procs[e.pid].point)
  {
    hide ValidLabel, Honest, CodeOf, GoodRecord;
    if e.pid in s.procs { assert Owns(s, e.pid) && GoodPoint(s.procs[e.pid].point); }
  }

  lemma OwnProcessAfter(s: State, e: Event)
    requires Inv(s) && e.pid in Step(s, e).procs
    ensures Owns(Step(s, e), e.pid) && GoodPoint(Step(s, e).procs[e.pid].point)
  {
    hide Step, Inv, Owns, GoodPoint;
    if e.Begin? || e.OpenStdout? || e.OpenStderr? { OwnProcessOpens(s, e); }
    else if e.Report? || e.Judge? || e.Mark? { OwnProcessTests(s, e); }
    else { OwnProcessEnds(s, e); }
  }

  lemma OtherStillOwns(s: State, e: Event, pid: Pid)
    requires Inv(s) && pid in s.procs && pid != e.pid
    ensures Owns(Step(s, e), pid)
  {
    hide ValidLabel, Honest, CodeOf, GoodRecord, GoodPoint;
    OthersStay(s, e, pid);
    assert Owns(s, pid);
    if e.pid in s.procs { assert Owns(s, e.pid); }
  }

  lemma ProcessAfter(s: State, e: Event, pid: Pid)
    requires Inv(s) && pid in Step(s, e).procs
    ensures Owns(Step(s, e), pid) && GoodPoint(Step(s, e).procs[pid].point)
  {
    hide Step, Owns, GoodPoint;
    if pid == e.pid {
      OwnProcessAfter(s, e);
    } else {
      OthersStay(s, e, pid);
      OtherStillOwns(s, e, pid);
    }
  }

  lemma RecordBegun(s: State, e: Event, l: Label)
    requires Inv(s) && e.Begin? && l in Step(s, e).records
    ensures GoodRecord(Step(s, e), l)
  {
    hide Honest, CodeOf, Owns, GoodPoint, GoodClosing;
    if l in s.records { assert GoodRecord(s, l); }
  }

  lemma RecordClosed(s: State, e: Event, l: Label)
    requires Inv(s) && e.Close? && l in Step(s, e).records
    ensures GoodRecord(Step(s, e), l)
  {
    hide ValidLabel, Honest, CodeOf;
    if l in s.records { assert GoodRecord(s, l); }
    if e.pid in s.procs { assert Owns(s, e.pid) && GoodPoint(s.procs[e.pid].point); }
  }

  lemma RecordUntouched(s: State, e: Event)
    requires !e.Begin? && !e.Close?
    ensures Step(s, e).records == s.records && Step(s, e).used == s.used
  {
    hide ValidLabel, Honest, CodeOf;
  }

  lemma RecordAfter(s: State, e: Event, l: Label)
    requires Inv(s) && l in Step(s, e).records
    ensures GoodRecord(Step(s, e), l)
  {
    hide Step, Owns, GoodPoint;
    if e.Begin? {
      RecordBegun(s, e, l);
    } else if e.Close? {
      RecordClosed(s, e, l);
    } else {
      RecordUntouched(s, e);
      assert GoodRecord(s, l);
    }
  }

  lemma StepKeepsInv(s: State, e: Event)
    requires Inv(s)
    ensures Inv(Step(s, e))
  {
    hide Step, Owns, GoodRecord, GoodPoint;
    forall pid | pid in Step(s, e).procs ensures Owns(Step(s, e), pid) && GoodPoint(Step(s, e).procs[pid].point) {
      ProcessAfter(s, e, pid);
    }
    forall l | l in Step(s, e).records ensures GoodRecord(Step(s, e), l) { RecordAfter(s, e, l); }
  }

  lemma {:induction false} RunKeepsInv(es: seq<Event>)
    ensures Inv(Run(EMPTY, es))
  {
    if es != [] {
      RunKeepsInv(es[..|es| - 1]);
      StepKeepsInv(Run(EMPTY, es[..|es| - 1]), es[|es| - 1]);
    }
  }

  // ----- safety of every run -----

  /** What one step may do to the record of a label: nothing, or close it once. */
  ghost predicate Follows(r: Record, r': Record) {
    r' == r || (r.status == STARTED && r'.status != STARTED && r'.owner == r.owner && r'.before == r.before)
  }

  lemma StepFollows(s: State, e: Event, l: Label)
    requires Inv(s) && l in s.records
    ensures l in Step(s, e).records && Follows(s.records[l], Step(s, e).records[l])
    ensures s.records[l].owner !in s.procs ==> Step(s, e).records[l] == s.records[l]
    ensures s.records[l].owner !in s.procs ==> s.records[l].owner !in Step(s, e).procs
  {
    hide ValidLabel, Honest, CodeOf;
    assert GoodRecord(s, l);
  }

  /** One owner, one start sample, at most one closing: whatever happens later, a label's record
      is the same or has been closed by its owner, and a closed one never changes again. */
  lemma {:induction false} RecordsOnlyClose(es: seq<Event>, fs: seq<Event>, l: Label)
    requires l in Run(EMPTY, es).records
    ensures l in Run(EMPTY, es + fs).records
    ensures Follows(Run(EMPTY, es).records[l], Run(EMPTY, es + fs).records[l])
    ensures Run(EMPTY, es).records[l].status != STARTED ==> Run(EMPTY, es + fs).records[l] == Run(EMPTY, es).records[l]
  {
    hide Step, ValidLabel;
    if fs == [] {
      assert es + fs == es;
    } else {
      var front := fs[..|fs| - 1];
      assert (es + fs)[..|es + fs| - 1] == es + front;
      RecordsOnlyClose(es, front, l);
      RunKeepsInv(es + front);
      StepFollows(Run(EMPTY, es + front), fs[|fs| - 1], l);
    }
  }

  /** A killed run stays STARTED for ever, so it can never be accepted. */
  lemma {:induction false} KilledStaysStarted(es: seq<Event>, fs: seq<Event>, l: Label)
    requires l in Run(EMPTY, es).records && Run(EMPTY, es).records[l].status == STARTED
    requires Run(EMPTY, es).records[l].owner !in Run(EMPTY, es).procs
    ensures l in Run(EMPTY, es + fs).records && Run(EMPTY, es + fs).records[l] == Run(EMPTY, es).records[l]
    ensures Run(EMPTY, es).records[l].owner !in Run(EMPTY, es + fs).procs
    ensures forall frozen :: !Accepted(Run(EMPTY, es + fs).records[l], frozen)
  {
    hide Step, ValidLabel;
    if fs == [] {
      assert es + fs == es;
    } else {
      var front := fs[..|fs| - 1];
      assert (es + fs)[..|es + fs| - 1] == es + front;
      KilledStaysStarted(es, front, l);
      RunKeepsInv(es + front);
      StepFollows(Run(EMPTY, es + front), fs[|fs| - 1], l);
    }
  }

  /** Two live processes never work under one label. */
  lemma LabelsAreExclusive(es: seq<Event>, p: Pid, q: Pid)
    requires p in Run(EMPTY, es).procs && q in Run(EMPTY, es).procs
    requires Run(EMPTY, es).procs[p].name == Run(EMPTY, es).procs[q].name
    ensures p == q
  {
    RunKeepsInv(es);
    assert Owns(Run(EMPTY, es), p) && Owns(Run(EMPTY, es), q);
  }

  // ----- what a record is evidence of -----

  /** What a process really did: its events, without those that found it in no state to do them. */
  function History(es: seq<Event>, pid: Pid): seq<Event> {
    if es == [] then []
    else
      var front, e := es[..|es| - 1], es[|es| - 1];
      var s := Run(EMPTY, front);
      History(front, pid) + if e.pid == pid && Step(s, e) != s then [e] else []
  }

  function Opened(pid: Pid, l: Label, before: Source): seq<Event> {
    [Begin(pid, l, before), OpenStdout(pid), OpenStderr(pid)]
  }

  /** The ways from the beginning of the tests into the finally block. */
  predicate Finishes(h: seq<Event>, pid: Pid, status: Status, code: int, seen: Option<Tally>) {
    var out := Raise(pid, status == INTERRUPTED);
    if seen.None? then
      status in {INTERRUPTED, ERROR} && code == 1 && h == [out]
    else if status == FINISHED then
      code == CodeOf(seen.value) && h == [Report(pid, seen.value), Judge(pid), Mark(pid), Leave(pid)]
    else
      status in {INTERRUPTED, ERROR}
      && if h == [Report(pid, seen.value), out] then code == 1
         else
           code == CodeOf(seen.value)
           && (h == [Report(pid, seen.value), Judge(pid), out]
               || h == [Report(pid, seen.value), Judge(pid), Mark(pid), out])
  }

  /** The history of a live process, from the point it has reached. */
  predicate Lived(h: seq<Event>, pid: Pid, p: Process) {
    var b := Opened(pid, p.name, p.before);
    match p.point
    case Created => h == b[..1]
    case Logging => h == b[..2]
    case Testing => h == b
    case Tallied(t) => h == b + [Report(pid, t)]
    case Judged(t) => h == b + [Report(pid, t), Judge(pid)]
    case Marked(t) => h == b + [Report(pid, t), Judge(pid), Mark(pid)]
    case Closing(status, code, seen) => |h| >= 3 && h == b + h[3..] && Finishes(h[3..], pid, status, code, seen)
  }

  /** The history that a closed record tells. */
  predicate Ended(h: seq<Event>, l: Label, r: Record) {
    && r.exitCode.Some? && r.after.Some? && |h| >= 4
    && h == Opened(r.owner, l, r.before) + h[3..|h| - 1] + [Close(r.owner, r.after.value)]
    && Finishes(h[3..|h| - 1], r.owner, r.status, r.exitCode.value, r.tally)
  }

  ghost predicate Unclosed(h: seq<Event>) {
    forall e :: e in h ==> !e.Close?
  }

  ghost predicate Told(es: seq<Event>, s: State) {
    && (forall pid :: pid !in s.used ==> History(es, pid) == [])
    && (forall pid :: pid in s.procs ==> Lived(History(es, pid), pid, s.procs[pid]))
    && (forall l :: l in s.records ==> ToldBy(es, s, l))
  }

  ghost predicate ToldBy(es: seq<Event>, s: State, l: Label)
    requires l in s.records
  {
    var r := s.records[l];
    && (r.owner in s.procs ==> s.procs[r.owner].name == l)
    && if r.status == STARTED then Unclosed(History(es, r.owner))
       else r.owner !in s.procs && Ended(History(es, r.owner), l, r)
  }

  lemma HistoryGrows(es: seq<Event>, e: Event, pid: Pid)
    ensures History(es + [e], pid) ==
      if e.pid == pid && Step(Run(EMPTY, es), e) != Run(EMPTY, es) then History(es, pid) + [e] else History(es, pid)
  {
    assert (es + [e])[..|es|] == es;
  }

  lemma LivedUnclosed(h: seq<Event>, pid: Pid, p: Process)
    requires Lived(h, pid, p)
    ensures Unclosed(h)
  {}

  lemma ProcessOpens(s: State, e: Event, h: seq<Event>)
    requires Inv(s) && e.pid in Step(s, e).procs && (e.Begin? || e.OpenStdout? || e.OpenStderr?)
    requires if e.pid in s.procs then Lived(h, e.pid, s.procs[e.pid]) else e.pid !in s.used ==> h == []
    ensures Step(s, e) != s ==> Lived(h + [e], e.pid, Step(s, e).procs[e.pid])
    ensures Step(s, e) == s ==> Lived(h, e.pid, s.procs[e.pid])
  {
    hide ValidLabel, Honest, CodeOf, GoodRecord, GoodPoint;
    if e.pid in s.procs { assert Owns(s, e.pid); }
  }

  lemma ProcessTests(s: State, e: Event, h: seq<Event>)
    requires Inv(s) && e.pid in Step(s, e).procs && (e.Report? || e.Judge? || e.Mark?)
    requires if e.pid in s.procs then Lived(h, e.pid, s.procs[e.pid]) else e.pid !in s.used ==> h == []
    ensures Step(s, e) != s ==> Lived(h + [e], e.pid, Step(s, e).procs[e.pid])
    ensures Step(s, e) == s ==> Lived(h, e.pid, s.procs[e.pid])
  {
    hide ValidLabel, Honest, CodeOf, GoodRecord, GoodPoint;
    if e.pid in s.procs { assert Owns(s, e.pid); }
  }

  lemma ProcessRaises(s: State, e: Event, h: seq<Event>)
    requires Inv(s) && e.pid in Step(s, e).procs && e.Raise?
    requires if e.pid in s.procs then Lived(h, e.pid, s.procs[e.pid]) else e.pid !in s.used ==> h == []
    ensures Step(s, e) != s ==> Lived(h + [e], e.pid, Step(s, e).procs[e.pid])
    ensures Step(s, e) == s ==> Lived(h, e.pid, s.procs[e.pid])
  {
    hide ValidLabel, Honest, CodeOf, GoodRecord, GoodPoint;
    if e.pid in s.procs { assert Owns(s, e.pid); }
  }

  lemma ProcessEnds(s: State, e: Event, h: seq<Event>)
    requires Inv(s) && e.pid in Step(s, e).procs && (e.Leave? || e.Close? || e.Kill?)
    requires if e.pid in s.procs then Lived(h, e.pid, s.procs[e.pid]) else e.pid !in s.used ==> h == []
    ensures Step(s, e) != s ==> Lived(h + [e], e.pid, Step(s, e).procs[e.pid])
    ensures Step(s, e) == s ==> Lived(h, e.pid, s.procs[e.pid])
  {
    hide ValidLabel, Honest, CodeOf, GoodRecord, GoodPoint;
    if e.pid in s.procs { assert Owns(s, e.pid); }
  }

  lemma ProcessLives(s: State, e: Event, h: seq<Event>)
    requires Inv(s) && e.pid in Step(s, e).procs
    requires if e.pid in s.procs then Lived(h, e.pid, s.procs[e.pid]) else e.pid !in s.used ==> h == []
    ensures Step(s, e) != s ==> Lived(h + [e], e.pid, Step(s, e).procs[e.pid])
    ensures Step(s, e) == s ==> Lived(h, e.pid, s.procs[e.pid])
  {
    hide Step, Inv, Lived;
    if e.Begin? || e.OpenStdout? || e.OpenStderr? { ProcessOpens(s, e, h); }
    else if e.Report? || e.Judge? || e.Mark? { ProcessTests(s, e, h); }
    else if e.Raise? { ProcessRaises(s, e, h); }
    else { ProcessEnds(s, e, h); }
  }

  lemma RecordEnds(s: State, e: Event, h: seq<Event>)
    requires Inv(s) && e.Close? && e.pid in s.procs && s.procs[e.pid].point.Closing?
    requires Lived(h, e.pid, s.procs[e.pid])
    ensures var l := s.procs[e.pid].name;
      l in Step(s, e).records && Step(s, e).records[l].status != STARTED && Step(s, e).records[l].owner == e.pid
      && Ended(h + [e], l, Step(s, e).records[l])
  {
    hide ValidLabel, Honest, CodeOf, GoodRecord, Finishes;
    assert Owns(s, e.pid) && GoodPoint(s.procs[e.pid].point);
    assert (h + [e])[3..|h|] == h[3..];
  }

  lemma IdleOutside(s: State, e: Event)
    requires e.pid in s.used && e.pid !in s.procs
    ensures Step(s, e) == s
  {
    assert s.procs - {e.pid} == s.procs;
  }

  /** The history that an untouched record is told by, after one more event. */
  lemma SameRecordTold(es: seq<Event>, s: State, e: Event, l: Label)
    requires s == Run(EMPTY, es) && Told(es, s) && Inv(s)
    requires l in s.records && l in Step(s, e).records && Step(s, e).records[l] == s.records[l]
    ensures ToldBy(es + [e], Step(s, e), l)
  {
    hide ValidLabel, Honest, CodeOf, GoodPoint, Lived, Ended, History, Run;
    var r := s.records[l];
    HistoryGrows(es, e, r.owner);
    assert ToldBy(es, s, l) && GoodRecord(s, l);
    if r.owner != e.pid {
      OthersStay(s, e, r.owner);
    } else if r.owner !in s.procs {
      IdleOutside(s, e);
    } else {
      CloseCloses(s, e);
    }
  }

  lemma CloseCloses(s: State, e: Event)
    requires Inv(s) && e.pid in s.procs
    ensures var l := s.procs[e.pid].name;
      e.Close? && Step(s, e) != s ==>
        l in s.records && l in Step(s, e).records && Step(s, e).records[l] != s.records[l]
  {
    hide ValidLabel, Honest, CodeOf, GoodRecord;
    assert Owns(s, e.pid) && GoodPoint(s.procs[e.pid].point);
  }

  lemma RecordTold(es: seq<Event>, s: State, e: Event, l: Label)
    requires s == Run(EMPTY, es) && Told(es, s) && Inv(s) && l in Step(s, e).records
    ensures ToldBy(es + [e], Step(s, e), l)
  {
    hide ValidLabel, Honest, CodeOf, GoodPoint, Lived, Ended, History, Run;
    if l in s.records && Step(s, e).records[l] == s.records[l] {
      SameRecordTold(es, s, e, l);
    } else {
      HistoryGrows(es, e, e.pid);
      if e.Close? {
        assert Owns(s, e.pid);
        LivedUnclosed(History(es, e.pid), e.pid, s.procs[e.pid]);
        RecordEnds(s, e, History(es, e.pid));
      }
    }
  }

  lemma StepIsTold(es: seq<Event>, s: State, e: Event)
    requires s == Run(EMPTY, es) && Told(es, s) && Inv(s)
    ensures Told(es + [e], Step(s, e))
  {
    hide Step, History, Lived, ToldBy, Inv, Run;
    var es', s' := es + [e], Step(s, e);
    UsedGrows(s, e);
    forall pid ensures pid !in s'.used ==> History(es', pid) == [] { HistoryGrows(es, e, pid); }
    forall pid | pid in s'.procs ensures Lived(History(es', pid), pid, s'.procs[pid]) {
      HistoryGrows(es, e, pid);
      if pid == e.pid { ProcessLives(s, e, History(es, pid)); } else { OthersStay(s, e, pid); }
    }
    forall l | l in s'.records ensures ToldBy(es', s', l) { RecordTold(es, s, e, l); }
  }

  lemma UsedGrows(s: State, e: Event)
    requires Inv(s)
    ensures s.used <= Step(s, e).used && (e.pid in Step(s, e).used || Step(s, e) == s)
  {
    hide ValidLabel, Honest, CodeOf, GoodPoint, GoodRecord;
    if e.pid in s.procs { assert Owns(s, e.pid); }
    assert s.procs - {e.pid} == s.procs || e.pid in s.procs;
  }

  /** Every record tells what its owner did. */
  lemma {:induction false} RunIsTold(es: seq<Event>)
    ensures Told(es, Run(EMPTY, es))
  {
    hide Step, Lived, Ended, Inv;
    if es != [] {
      var front := es[..|es| - 1];
      RunIsTold(front);
      RunKeepsInv(front);
      StepIsTold(front, Run(EMPTY, front), es[|es| - 1]);
      assert front + [es[|es| - 1]] == es;
    }
  }

  function Whole(pid: Pid, l: Label, before: Source, middle: seq<Event>, after: Source): seq<Event> {
    Opened(pid, l, before) + middle + [Close(pid, after)]
  }

  lemma ClosedIsWhole(es: seq<Event>, l: Label) returns (middle: seq<Event>)
    requires l in Run(EMPTY, es).records && Run(EMPTY, es).records[l].status != STARTED
    ensures var r := Run(EMPTY, es).records[l];
      && r.exitCode.Some? && r.after.Some? && Finishes(middle, r.owner, r.status, r.exitCode.value, r.tally)
      && History(es, r.owner) == Whole(r.owner, l, r.before, middle, r.after.value)
      && (r.tally.Some? ==> Honest(r.tally.value))
  {
    hide Step, Finishes, Run, History;
    RunIsTold(es);
    RunKeepsInv(es);
    assert ToldBy(es, Run(EMPTY, es), l) && GoodRecord(Run(EMPTY, es), l);
    var h := History(es, Run(EMPTY, es).records[l].owner);
    middle := h[3..|h| - 1];
  }

  /** A history with a Close has closed its record. */
  lemma WholeIsClosed(es: seq<Event>, l: Label, before: Source, middle: seq<Event>, after: Source)
    requires l in Run(EMPTY, es).records
    requires var pid := Run(EMPTY, es).records[l].owner; History(es, pid) == Whole(pid, l, before, middle, after)
    ensures var r := Run(EMPTY, es).records[l];
      && r.status != STARTED && r.before == before && r.after == Some(after) && r.exitCode.Some?
      && Finishes(middle, r.owner, r.status, r.exitCode.value, r.tally)
  {
    hide Step, Finishes, Run, History;
    RunIsTold(es);
    assert ToldBy(es, Run(EMPTY, es), l);
    var r := Run(EMPTY, es).records[l];
    var h := History(es, r.owner);
    assert h[|h| - 1] == Close(r.owner, after);
    var m := ClosedIsWhole(es, l);
    assert h[3..|h| - 1] == m == middle;
    assert h[0] == Begin(r.owner, l, r.before);
  }

  const CLEAN := Tally(0, 0, true)

  function Succeeds(pid: Pid): seq<Event> {
    [Report(pid, CLEAN), Judge(pid), Mark(pid), Leave(pid)]
  }

  /** What an accepted record is evidence of, and the only thing that is: its owner began on the
      frozen source, opened its logs, reported success with no failure and no error, went through
      to the end of the try, found the frozen source again, and closed the record. */
  lemma AcceptedIsEvidence(es: seq<Event>, l: Label, frozen: Source)
    requires l in Run(EMPTY, es).records
    ensures var r := Run(EMPTY, es).records[l];
      Accepted(r, frozen) <==> History(es, r.owner) == Whole(r.owner, l, frozen, Succeeds(r.owner), frozen)
  {
    hide Run, History, Whole;
    var r := Run(EMPTY, es).records[l];
    if Accepted(r, frozen) {
      var m := ClosedIsWhole(es, l);
      assert r.tally.value == CLEAN;
    }
    if History(es, r.owner) == Whole(r.owner, l, frozen, Succeeds(r.owner), frozen) {
      WholeIsClosed(es, l, frozen, Succeeds(r.owner), frozen);
      FinishesIsClean(r.owner, r.status, r.exitCode.value, r.tally);
    }
  }

  lemma FinishesIsClean(pid: Pid, status: Status, code: int, seen: Option<Tally>)
    requires Finishes(Succeeds(pid), pid, status, code, seen)
    ensures status == FINISHED && code == 0 && seen == Some(CLEAN)
  {
    assert Succeeds(pid)[3] == Leave(pid) && Succeeds(pid)[0] == Report(pid, CLEAN);
  }

  /** The owner had reported success, was judged, and then raised before it left the try. */
  predicate RaisedWhenJudged(m: seq<Event>, pid: Pid) {
    exists keyboard ::
      || m == [Report(pid, CLEAN), Judge(pid), Raise(pid, keyboard)]
      || m == [Report(pid, CLEAN), Judge(pid), Mark(pid), Raise(pid, keyboard)]
  }

  lemma FinishesAtZero(m: seq<Event>, pid: Pid, status: Status, code: int, seen: Option<Tally>)
    requires Finishes(m, pid, status, code, seen) && (seen.Some? ==> Honest(seen.value))
    ensures code == 0 && status != FINISHED <==> RaisedWhenJudged(m, pid)
    ensures code == 0 ==> (status == FINISHED <==> Leave(pid) in m)
  {
    if code == 0 && status != FINISHED {
      assert seen.value == CLEAN;
    }
  }

  /** Exit code 0 without FINISHED, exactly. */
  lemma ZeroUnfinishedExactly(es: seq<Event>, l: Label)
    requires l in Run(EMPTY, es).records
    ensures var r := Run(EMPTY, es).records[l];
      r.exitCode == Some(0) && r.status != FINISHED <==>
        exists m, after :: RaisedWhenJudged(m, r.owner) && History(es, r.owner) == Whole(r.owner, l, r.before, m, after)
  {
    hide Run, History, Whole, RaisedWhenJudged, Finishes;
    var r := Run(EMPTY, es).records[l];
    if r.status != STARTED {
      var m := ClosedIsWhole(es, l);
      FinishesAtZero(m, r.owner, r.status, r.exitCode.value, r.tally);
    }
    RunKeepsInv(es);
    assert GoodRecord(Run(EMPTY, es), l);
    forall m, after | RaisedWhenJudged(m, r.owner) && History(es, r.owner) == Whole(r.owner, l, r.before, m, after)
      ensures r.exitCode == Some(0) && r.status != FINISHED
    {
      WholeIsClosed(es, l, r.before, m, after);
      FinishesAtZero(m, r.owner, r.status, r.exitCode.value, r.tally);
    }
  }

  /** So a caller that looks only at the exit code, on an unchanged source, agrees with the
      acceptance condition exactly about the runs that left the try in the normal way. */
  lemma ZeroIsAcceptedExactly(es: seq<Event>, l: Label, frozen: Source)
    requires l in Run(EMPTY, es).records && Run(EMPTY, es).records[l].exitCode == Some(0)
    requires Run(EMPTY, es).records[l].before == frozen && Run(EMPTY, es).records[l].after == Some(frozen)
    ensures var r := Run(EMPTY, es).records[l]; Accepted(r, frozen) <==> Leave(r.owner) in History(es, r.owner)
  {
    hide Run, History, Finishes;
    RunKeepsInv(es);
    assert GoodRecord(Run(EMPTY, es), l);
    var r := Run(EMPTY, es).records[l];
    var m := ClosedIsWhole(es, l);
    FinishesAtZero(m, r.owner, r.status, r.exitCode.value, r.tally);
    assert Leave(r.owner) in History(es, r.owner) <==> Leave(r.owner) in m;
  }

  /** Accepted once, accepted for ever. */
  lemma AcceptanceIsStable(es: seq<Event>, fs: seq<Event>, l: Label, frozen: Source)
    requires l in Run(EMPTY, es).records && Accepted(Run(EMPTY, es).records[l], frozen)
    ensures l in Run(EMPTY, es + fs).records && Accepted(Run(EMPTY, es + fs).records[l], frozen)
  {
    RecordsOnlyClose(es, fs, l);
  }

  /** The exit code alone says less.  For a finished run it is 0 exactly when the tests were
      successful; a run that was interrupted afterwards can have either code. */
  lemma ExitCodeMeans(es: seq<Event>, l: Label)
    requires l in Run(EMPTY, es).records && Run(EMPTY, es).records[l].exitCode == Some(0)
    ensures Run(EMPTY, es).records[l].tally.Some? && Run(EMPTY, es).records[l].tally.value.successful
  {
    RunKeepsInv(es);
    assert GoodRecord(Run(EMPTY, es), l);
  }

  lemma FinishedCodeExactly(es: seq<Event>, l: Label)
    requires l in Run(EMPTY, es).records && Run(EMPTY, es).records[l].status == FINISHED
    ensures Run(EMPTY, es).records[l].tally.Some?
    ensures Run(EMPTY, es).records[l].exitCode == Some(0) <==> Run(EMPTY, es).records[l].tally.value.successful
  {
    RunKeepsInv(es);
    assert GoodRecord(Run(EMPTY, es), l);
  }

  // ----- what is sure to be recorded -----

  /** Every record has a label of these characters. */
  lemma RecordsHaveLabels(es: seq<Event>, l: Label)
    requires l in Run(EMPTY, es).records
    ensures PlainLabel(l)
  {
    hide Run;
    RunKeepsInv(es);
    assert GoodRecord(Run(EMPTY, es), l);
    PlainIsValid(l);
  }

  ghost predicate LogsRecorded(s: State) {
    forall l :: l in s.stdouts + s.stderrs ==> l in s.records
  }

  lemma StepKeepsLogs(s: State, e: Event)
    requires Inv(s) && LogsRecorded(s)
    ensures LogsRecorded(Step(s, e)) && s.records.Keys <= Step(s, e).records.Keys
  {
    hide ValidLabel, Honest, CodeOf, GoodRecord, GoodPoint;
    if e.pid in s.procs { assert Owns(s, e.pid); }
  }

  lemma {:induction false} RunKeepsLogs(es: seq<Event>)
    ensures LogsRecorded(Run(EMPTY, es))
  {
    hide Step, Inv;
    if es != [] {
      RunKeepsLogs(es[..|es| - 1]);
      RunKeepsInv(es[..|es| - 1]);
      StepKeepsLogs(Run(EMPTY, es[..|es| - 1]), es[|es| - 1]);
    }
  }

  lemma {:induction false} RunConcat(s: State, es: seq<Event>, fs: seq<Event>)
    ensures Run(s, es + fs) == Run(Run(s, es), fs)
    decreases |fs|
  {
    hide Step;
    if fs == [] {
      assert es + fs == es;
    } else {
      assert (es + fs)[..|es + fs| - 1] == es + fs[..|fs| - 1];
      RunConcat(s, es, fs[..|fs| - 1]);
    }
  }

  lemma RunOne(s: State, e: Event)
    ensures Run(s, [e]) == Step(s, e)
  {
    assert [e][..0] == [];
  }

  lemma RunMore(s: State, e: Event, es: seq<Event>)
    ensures Run(s, [e] + es) == Run(Step(s, e), es)
  {
    RunConcat(s, [e], es);
    RunOne(s, e);
  }

  function Open(pid: Pid, before: Source): Record {
    Record(pid, STARTED, before, None, None, None)
  }

  lemma OpensUp(s: State, pid: Pid, l: Label, before: Source)
    requires pid !in s.used && ValidLabel(l) && l !in s.records && LogsRecorded(s)
    ensures var s' := Run(s, Opened(pid, l, before));
      && pid in s'.procs && s'.procs[pid] == Process(l, before, Testing)
      && s'.records == s.records[l := Open(pid, before)]
  {
    hide ValidLabel, Honest, CodeOf, Run;
    var s1 := Step(s, Begin(pid, l, before));
    var s2 := Step(s1, OpenStdout(pid));
    assert s1.procs[pid] == Process(l, before, Created) && s1.stdouts == s.stdouts;
    assert s2.procs[pid] == Process(l, before, Logging) && s2.stderrs == s.stderrs;
    RunMore(s, Begin(pid, l, before), [OpenStdout(pid), OpenStderr(pid)]);
    RunMore(s1, OpenStdout(pid), [OpenStderr(pid)]);
    RunOne(s2, OpenStderr(pid));
    assert Opened(pid, l, before) == [Begin(pid, l, before)] + [OpenStdout(pid), OpenStderr(pid)];
    assert [OpenStdout(pid), OpenStderr(pid)] == [OpenStdout(pid)] + [OpenStderr(pid)];
  }

  /** The state with the process of `pid` at another point. */
  predicate Reaches(s: State, s': State, pid: Pid, p: Point) {
    pid in s.procs && pid in s'.procs && s'.procs[pid] == s.procs[pid].(point := p) && s'.records == s.records
  }

  lemma Reports(s: State, pid: Pid, t: Tally)
    requires pid in s.procs && s.procs[pid].point.Testing? && Honest(t)
    ensures Reaches(s, Step(s, Report(pid, t)), pid, Tallied(t))
    ensures Reaches(s, Step(Step(s, Report(pid, t)), Judge(pid)), pid, Judged(t))
    ensures Reaches(s, Step(Step(Step(s, Report(pid, t)), Judge(pid)), Mark(pid)), pid, Marked(t))
  {
    hide CodeOf, Honest;
  }

  lemma Leaves(s: State, pid: Pid, t: Tally)
    requires pid in s.procs && s.procs[pid].point == Marked(t)
    ensures Reaches(s, Step(s, Leave(pid)), pid, Closing(FINISHED, if t.successful then 0 else 1, Some(t)))
  {}

  lemma Raises(s: State, pid: Pid, keyboard: bool)
    requires pid in s.procs
    ensures var status, p := if keyboard then INTERRUPTED else ERROR, s.procs[pid].point;
      && (p.Testing? ==> Reaches(s, Step(s, Raise(pid, keyboard)), pid, Closing(status, 1, None)))
      && (p.Tallied? ==> Reaches(s, Step(s, Raise(pid, keyboard)), pid, Closing(status, 1, Some(p.tally))))
      && (p.Judged? || p.Marked? ==>
            Reaches(s, Step(s, Raise(pid, keyboard)), pid,
                    Closing(status, if p.tally.successful then 0 else 1, Some(p.tally))))
  {}

  lemma Closes(s: State, pid: Pid, after: Source)
    requires pid in s.procs && s.procs[pid].point.Closing?
    ensures var p, s' := s.procs[pid], Step(s, Close(pid, after));
      && pid !in s'.procs
      && s'.records == s.records[p.name :=
           Record(pid, p.point.status, p.before, p.point.seen, Some(p.point.code), Some(after))]
  {}

  /** What a process can do between its start and the finally block. */
  datatype Course =
    | Breaks(keyboard: bool)                                // an exception before the tests came to an end
    | BreaksTallied(tally: Tally, keyboard: bool)           // one before the exit code was chosen
    | BreaksJudged(tally: Tally, marked: bool, keyboard: bool)  // one afterwards
    | Completes(tally: Tally)

  function EventsOf(pid: Pid, c: Course): seq<Event> {
    match c
    case Breaks(keyboard) => [Raise(pid, keyboard)]
    case BreaksTallied(t, keyboard) => [Report(pid, t), Raise(pid, keyboard)]
    case BreaksJudged(t, marked, keyboard) =>
      [Report(pid, t), Judge(pid)] + (if marked then [Mark(pid)] else []) + [Raise(pid, keyboard)]
    case Completes(t) => [Report(pid, t), Judge(pid), Mark(pid), Leave(pid)]
  }

  predicate HonestCourse(c: Course) {
    c.Breaks? || Honest(c.tally)
  }

  /** What is then on record. */
  function RecordOf(pid: Pid, c: Course, before: Source, after: Source): Record {
    match c
    case Breaks(keyboard) =>
      Record(pid, if keyboard then INTERRUPTED else ERROR, before, None, Some(1), Some(after))
    case BreaksTallied(t, keyboard) =>
      Record(pid, if keyboard then INTERRUPTED else ERROR, before, Some(t), Some(1), Some(after))
    case BreaksJudged(t, _, keyboard) =>
      Record(pid, if keyboard then INTERRUPTED else ERROR, before, Some(t), Some(if t.successful then 0 else 1),
             Some(after))
    case Completes(t) =>
      Record(pid, FINISHED, before, Some(t), Some(if t.successful then 0 else 1), Some(after))
  }

  lemma CourseCloses(s: State, pid: Pid, c: Course, after: Source)
    requires pid in s.procs && s.procs[pid].point.Testing? && HonestCourse(c)
    ensures var p := s.procs[pid];
      Run(s, EventsOf(pid, c) + [Close(pid, after)]).records == s.records[p.name := RecordOf(pid, c, p.before, after)]
  {
    hide Step, Run, Honest;
    var end := Close(pid, after);
    match c
    case Breaks(keyboard) =>
      Raises(s, pid, keyboard);
      TwoSteps(s, Raise(pid, keyboard), end);
      assert EventsOf(pid, c) + [end] == [Raise(pid, keyboard), end];
      Closes(Step(s, Raise(pid, keyboard)), pid, after);
    case BreaksTallied(t, keyboard) =>
      Reports(s, pid, t);
      var s1 := Step(s, Report(pid, t));
      Raises(s1, pid, keyboard);
      RunMore(s, Report(pid, t), [Raise(pid, keyboard), end]);
      TwoSteps(s1, Raise(pid, keyboard), end);
      assert EventsOf(pid, c) + [end] == [Report(pid, t)] + [Raise(pid, keyboard), end];
      Closes(Step(s1, Raise(pid, keyboard)), pid, after);
    case BreaksJudged(t, marked, keyboard) =>
      JudgedCloses(s, pid, t, marked, Raise(pid, keyboard), after);
    case Completes(t) =>
      JudgedCloses(s, pid, t, true, Leave(pid), after);
  }

  lemma TwoSteps(s: State, e: Event, f: Event)
    ensures Run(s, [e, f]) == Step(Step(s, e), f)
  {
    hide Step;
    RunMore(s, e, [f]);
    RunOne(Step(s, e), f);
    assert [e, f] == [e] + [f];
  }

  lemma JudgedCloses(s: State, pid: Pid, t: Tally, marked: bool, out: Event, after: Source)
    requires pid in s.procs && s.procs[pid].point.Testing? && Honest(t)
    requires (out == Leave(pid) && marked) || (out.Raise? && out.pid == pid)
    ensures var p, es := s.procs[pid], [Report(pid, t), Judge(pid)] + (if marked then [Mark(pid)] else []);
      var c := if out.Raise? then BreaksJudged(t, marked, out.keyboard) else Completes(t);
      && EventsOf(pid, c) == es + [out]
      && Run(s, es + [out] + [Close(pid, after)]).records == s.records[p.name := RecordOf(pid, c, p.before, after)]
  {
    hide Step, Run, Honest;
    var head := [Report(pid, t), Judge(pid)];
    var es := head + (if marked then [Mark(pid)] else []);
    Reports(s, pid, t);
    TwoSteps(s, Report(pid, t), Judge(pid));
    RunConcat(s, head, [Mark(pid)]);
    RunOne(Run(s, head), Mark(pid));
    assert head + [] == head;
    var s' := Run(s, es);
    assert Reaches(s, s', pid, if marked then Marked(t) else Judged(t));
    RunConcat(s, es, [out, Close(pid, after)]);
    assert es + [out] + [Close(pid, after)] == es + [out, Close(pid, after)];
    TwoSteps(s', out, Close(pid, after));
    if out.Raise? { Raises(s', pid, out.keyboard); } else { Leaves(s', pid, t); }
    Closes(Step(s', out), pid, after);
  }

  predicate PlainLabel(l: Label) {
    l != "" && forall c :: c in l ==> 'a' <= c <= 'z' || '0' <= c <= '9' || c == '-' || c == '_'
  }

  lemma PlainIsValid(l: Label)
    ensures ValidLabel(l) <==> PlainLabel(l)
  {
    if PlainLabel(l) { assert forall i :: 0 <= i < |l| ==> l[i] in l; }
  }

  /** Whatever has happened before, a new process under a free valid label gets its record, and what
      it does is what the record says at the end; no other record is touched. */
  lemma EveryCourseIsRecorded(es: seq<Event>, pid: Pid, l: Label, before: Source, c: Course, after: Source)
    requires pid !in Run(EMPTY, es).used && PlainLabel(l) && l !in Run(EMPTY, es).records && HonestCourse(c)
    ensures Run(EMPTY, es + Whole(pid, l, before, EventsOf(pid, c), after)).records
         == Run(EMPTY, es).records[l := RecordOf(pid, c, before, after)]
  {
    hide Step, Run, HonestCourse, EventsOf, RecordOf, ValidLabel, PlainLabel;
    PlainIsValid(l);
    var s, mid := Run(EMPTY, es), EventsOf(pid, c) + [Close(pid, after)];
    RunKeepsLogs(es);
    OpensUp(s, pid, l, before);
    RunConcat(EMPTY, es, Opened(pid, l, before) + mid);
    RunConcat(s, Opened(pid, l, before), mid);
    assert Whole(pid, l, before, EventsOf(pid, c), after) == Opened(pid, l, before) + mid;
    CourseCloses(Run(s, Opened(pid, l, before)), pid, c, after);
  }

  /** In particular a run that starts and ends on the frozen source and whose tests all pass is
      accepted. */
  lemma SuccessIsAccepted(es: seq<Event>, pid: Pid, l: Label, frozen: Source)
    requires pid !in Run(EMPTY, es).used && PlainLabel(l) && l !in Run(EMPTY, es).records
    ensures var rs := Run(EMPTY, es + Whole(pid, l, frozen, Succeeds(pid), frozen)).records;
      l in rs && Accepted(rs[l], frozen)
  {
    hide Run;
    EveryCourseIsRecorded(es, pid, l, frozen, Completes(CLEAN), frozen);
    assert EventsOf(pid, Completes(CLEAN)) == Succeeds(pid);
  }

  /** A process that is killed, at whatever point, leaves its record STARTED for ever. */
  lemma KillLeavesStarted(es: seq<Event>, pid: Pid, fs: seq<Event>)
    requires pid in Run(EMPTY, es).procs
    ensures var l, rs := Run(EMPTY, es).procs[pid].name, Run(EMPTY, es + [Kill(pid)] + fs).records;
      l in rs && rs[l] == Open(pid, Run(EMPTY, es).procs[pid].before)
  {
    hide Run;
    RunKeepsInv(es);
    var s := Run(EMPTY, es);
    assert Owns(s, pid);
    RunConcat(EMPTY, es, [Kill(pid)]);
    RunOne(s, Kill(pid));
    KilledStaysStarted(es + [Kill(pid)], fs, s.procs[pid].name);
  }

  /** Such a run, for every source: an interrupt after the judgement. */
  lemma InterruptedCanExitZero(source: Source)
    ensures var rs := Run(EMPTY, Whole(0, "a", source, EventsOf(0, BreaksJudged(CLEAN, false, true)), source)).records;
      "a" in rs && rs["a"] == Record(0, INTERRUPTED, source, Some(CLEAN), Some(0), Some(source))
  {
    hide Step;
    assert PlainLabel("a");
    var es := Whole(0, "a", source, EventsOf(0, BreaksJudged(CLEAN, false, true)), source);
    assert [] + es == es;
    EveryCourseIsRecorded([], 0, "a", source, BreaksJudged(CLEAN, false, true), source);
  }
}
