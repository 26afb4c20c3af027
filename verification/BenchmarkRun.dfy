/** The benchmark runner on one provider: every case goes through its phases, every call may fail, a run may resume from
    a checkpoint, and a case may reuse what the provider has ingested for the case before it. */
module BenchmarkRun {
  import opened Common

  datatype Corpus = Corpus(dataset: string, id: string)

  datatype Case = Case(id: string, corpus: Corpus)

  datatype Status = Pending | Running | Completed | Failed

  /** A case of the checkpoint: the state of its six phases. */
  datatype Record = Record(caseId: string, corpus: Corpus, reused: bool, phases: seq<Status>)

  const INGEST := 0
  const INDEXING := 1
  const SEARCH := 2
  const EVALUATE := 3
  const ANSWER := 4
  const JUDGE := 5
  const PHASES := 6

  /** The calls of a phase that may fail: the reset before an ingest, saving the checkpoint, and the phase's
      own work. */
  datatype Call = Reset | Save | Work

  /** What becomes of every call, by the index of the case. */
  datatype Oracle = Oracle(initialize: bool, health: bool, progress: nat -> bool, call: (nat, nat, Call) -> bool,
                           save: nat -> bool)

  type Records = map<string, Record>

  /** How many phases a case goes through: answering and judging only with language models. */
  function PhaseCount(ai: bool): nat { if ai then 6 else 4 }

  function Terminal(ai: bool): nat { PhaseCount(ai) - 1 }

  predicate TerminallyCompleted(records: Records, id: string, ai: bool) {
    id in records && |records[id].phases| == PHASES && records[id].phases[Terminal(ai)] == Completed
  }

  // ---------------------------------------------------------------- what one case does

  predicate PhaseFails(o: Oracle, i: nat, reuse: bool, phase: nat) {
    if phase == INGEST then !reuse && !(o.call(i, phase, Reset) && o.call(i, phase, Save) && o.call(i, phase, Work))
    else !(phase == INDEXING && reuse) && !(o.call(i, phase, Save) && o.call(i, phase, Work))
  }

  /** The first phase from `phase` on that fails, `count` if none does. */
  function FirstFailing(o: Oracle, i: nat, reuse: bool, count: nat, phase: nat): (f: nat)
    requires phase <= count
    ensures phase <= f <= count
    decreases count - phase
  {
    if phase == count || PhaseFails(o, i, reuse, phase) then phase else FirstFailing(o, i, reuse, count, phase + 1)
  }

  /** The first `n` phases completed, none of the others started. */
  function Done(n: nat): (phases: seq<Status>)
    ensures |phases| == PHASES
    ensures forall k :: 0 <= k < PHASES ==> phases[k] == if k < n then Completed else Pending
  {
    seq(PHASES, k => if k < n then Completed else Pending)
  }

  /** The phases of a case whose first failing phase of `count` is `f`. */
  function PhasesAfter(f: nat, count: nat): seq<Status>
    requires f <= count <= PHASES
  {
    if f < count then Done(f)[f := Failed] else Done(f)
  }

  /** The state of a run between two cases. `held` is the corpus that the provider has ingested and indexed since its
      last reset, `safe` that every reuse so far was of that corpus. */
  datatype State = State(active: Option<string>, held: Option<Corpus>, records: Records, safe: bool, aborted: bool)

  datatype Run = Run(cases: seq<Case>, ai: bool, resume: bool, oracle: Oracle)

  predicate Reuses(c: Case, s: State) { s.active == Some(c.corpus.id) }

  function FailureOf(r: Run, i: nat, reuse: bool): (f: nat)
    ensures f <= PhaseCount(r.ai)
  {
    FirstFailing(r.oracle, i, reuse, PhaseCount(r.ai), INGEST)
  }

  function RecordOf(r: Run, c: Case, i: nat, reuse: bool): Record {
    Record(c.id, c.corpus, reuse, PhasesAfter(FailureOf(r, i, reuse), PhaseCount(r.ai)))
  }

  /** The state after a case that is not skipped, but for the save that ends it. */
  function Executed(r: Run, i: nat, s: State): State
    requires i < |r.cases|
  {
    var c, reuse := r.cases[i], Reuses(r.cases[i], s);
    var indexed := FailureOf(r, i, reuse) > INDEXING;
    State(if indexed then Some(c.corpus.id) else s.active,
          if reuse then s.held else if indexed then Some(c.corpus) else None,
          s.records[c.id := RecordOf(r, c, i, reuse)],
          s.safe && (reuse ==> s.held == Some(c.corpus)),
          s.aborted)
  }

  predicate Skips(r: Run, i: nat, s: State)
    requires i < |r.cases|
  {
    r.resume && TerminallyCompleted(s.records, r.cases[i].id, r.ai)
  }

  function CaseStep(r: Run, i: nat, s: State): State
    requires i < |r.cases|
  {
    if s.aborted || Skips(r, i, s) then s
    else if !r.oracle.progress(i) then s.(aborted := true)
    else
      var s' := Executed(r, i, s);
      if r.oracle.save(i) then s' else s'.(aborted := true)
  }

  function Start(records: Records): State { State(None, None, records, true, false) }

  /** The state of a run from a checkpoint after its first `n` cases. */
  function After(r: Run, records: Records, n: nat): State
    requires n <= |r.cases|
  {
    if n == 0 then Start(records) else CaseStep(r, n - 1, After(r, records, n - 1))
  }

  // ---------------------------------------------------------------- the runner

  datatype Outcome = CompletedRun | PartialRun | FailedRun | Unavailable

  predicate AllCompleted(r: Run, records: Records) {
    forall i :: 0 <= i < |r.cases| ==> TerminallyCompleted(records, r.cases[i].id, r.ai)
  }

  function CompletedIds(records: Records, ai: bool): set<string> {
    set id | id in records && TerminallyCompleted(records, id, ai)
  }

  function OutcomeOf(records: Records, ai: bool): Outcome {
    var completed := |CompletedIds(records, ai)|;
    if |records| - completed == 0 then CompletedRun else if completed > 0 then PartialRun else FailedRun
  }

  /** What a provider is reported as. */
  function Reported(r: Run, records: Records): Outcome {
    if r.resume && AllCompleted(r, records) then CompletedRun
    else if !r.oracle.initialize then FailedRun
    else if !r.oracle.health then Unavailable
    else
      var s := After(r, records, |r.cases|);
      if s.aborted then FailedRun else OutcomeOf(s.records, r.ai)
  }

  /** Whether the loop over the cases is entered at all. */
  predicate Enters(r: Run, records: Records) {
    !(r.resume && AllCompleted(r, records)) && r.oracle.initialize && r.oracle.health
  }

  lemma AfterNext(r: Run, records: Records, n: nat)
    requires n < |r.cases|
    ensures After(r, records, n + 1) == CaseStep(r, n, After(r, records, n))
  {
  }

  lemma {:induction false} AbortedStays(r: Run, records: Records, n: nat, m: nat)
    requires n <= m <= |r.cases| && After(r, records, n).aborted
    ensures After(r, records, m) == After(r, records, n)
  {
    if n < m {
      AbortedStays(r, records, n, m - 1);
      AfterNext(r, records, m - 1);
    }
  }

  /** How the loop goes on from a state that is not left yet, and where it ends. */
  lemma LoopGoesOn(r: Run, records: Records, i: nat, s: State)
    requires i < |r.cases| && s == After(r, records, i) && !s.aborted
    ensures Skips(r, i, s) ==> After(r, records, i + 1) == s
    ensures !Skips(r, i, s) && !r.oracle.progress(i) ==> After(r, records, |r.cases|) == s.(aborted := true)
    ensures !Skips(r, i, s) && r.oracle.progress(i) && !r.oracle.save(i) ==>
              After(r, records, |r.cases|) == Executed(r, i, s).(aborted := true)
    ensures !Skips(r, i, s) && r.oracle.progress(i) && r.oracle.save(i) ==>
              After(r, records, i + 1) == Executed(r, i, s)
  {
    AfterNext(r, records, i);
    if CaseStep(r, i, s).aborted {
      AbortedStays(r, records, i + 1, |r.cases|);
    }
  }

  lemma PreparingFails(r: Run, i: nat, reuse: bool)
    ensures FailureOf(r, i, reuse)
         == if PhaseFails(r.oracle, i, reuse, INGEST) then INGEST
            else if PhaseFails(r.oracle, i, reuse, INDEXING) then INDEXING
            else FirstFailing(r.oracle, i, reuse, PhaseCount(r.ai), SEARCH)
  {
    assert FirstFailing(r.oracle, i, reuse, PhaseCount(r.ai), INDEXING)
        == if PhaseFails(r.oracle, i, reuse, INDEXING) then INDEXING
           else FirstFailing(r.oracle, i, reuse, PhaseCount(r.ai), SEARCH);
  }

  class ProviderRun {
    const run: Run
    var records: Records
    var active: Option<string>
    var item: Record
    var activePhase: nat
    ghost var held: Option<Corpus>
    ghost var safe: bool

    constructor (run: Run, records: Records)
      ensures this.run == run && this.records == records && Now() == Start(records)
    {
      this.run, this.records, active, held, safe := run, records, None, None, true;
      item, activePhase := Record("", Corpus("", ""), false, Done(0)), INGEST;
    }

    ghost function Now(): State
      reads this
    {
      State(active, held, records, safe, false)
    }

    method StartPhase(phase: nat)
      requires phase < |item.phases|
      modifies this`item
      ensures item == old(item).(phases := old(item).phases[phase := Running])
    {
      item := item.(phases := item.phases[phase := Running]);
    }

    method CompletePhase(phase: nat)
      requires phase < |item.phases|
      modifies this`item
      ensures item == old(item).(phases := old(item).phases[phase := Completed])
    {
      item := item.(phases := item.phases[phase := Completed]);
    }

    method FailPhase(phase: nat)
      requires phase < |item.phases|
      modifies this`item
      ensures item == old(item).(phases := old(item).phases[phase := Failed])
    {
      item := item.(phases := item.phases[phase := Failed]);
    }

    /** A phase behind the ingest: it is started, saved, worked on and completed, unless a call throws. */
    method Attempt(i: nat, phase: nat) returns (ok: bool)
      requires 0 < phase < PHASES && item.phases == Done(phase)
      modifies this`item, this`activePhase
      ensures activePhase == phase
      ensures ok == !PhaseFails(run.oracle, i, false, phase)
      ensures ok <==> run.oracle.call(i, phase, Save) && run.oracle.call(i, phase, Work)
      ensures ok ==> item == old(item).(phases := Done(phase + 1))
      ensures !ok ==> item == old(item).(phases := Done(phase)[phase := Running])
    {
      activePhase := phase;
      StartPhase(phase);
      ok := run.oracle.call(i, phase, Save);
      if ok {
        ok := run.oracle.call(i, phase, Work);
      }
      if ok {
        CompletePhase(phase);
        assert item.phases == Done(phase + 1);
      }
    }

    /** The phases up to the index: skipped when the active corpus is the one of the case. */
    method Prepare(i: nat) returns (ok: bool)
      requires i < |run.cases| && item.phases == Done(0)
      modifies this`item, this`activePhase, this`active, this`held, this`safe
      ensures var c, reuse := run.cases[i], old(active) == Some(run.cases[i].corpus.id);
              && (ok <==> !PhaseFails(run.oracle, i, reuse, INGEST) && !PhaseFails(run.oracle, i, reuse, INDEXING))
              && (ok ==> item == old(item).(reused := reuse, phases := Done(SEARCH)))
              && active == (if ok then Some(c.corpus.id) else old(active))
              && held == (if reuse then old(held) else if ok then Some(c.corpus) else None)
              && safe == (old(safe) && (reuse ==> old(held) == Some(c.corpus)))
              && (!ok ==> activePhase == if PhaseFails(run.oracle, i, reuse, INGEST) then INGEST else INDEXING)
              && (!ok ==> |item.phases| == PHASES && item == old(item).(reused := reuse, phases := item.phases))
              && (!ok ==> item.phases[activePhase := Failed] == Done(activePhase)[activePhase := Failed])
    {
      var c := run.cases[i];
      activePhase := INGEST;
      if active == Some(c.corpus.id) {
        item := item.(reused := true);
        StartPhase(INGEST);
        CompletePhase(INGEST);
        StartPhase(INDEXING);
        CompletePhase(INDEXING);
        safe := safe && held == Some(c.corpus);
        assert item.phases == Done(SEARCH);
        return true;
      }
      item := item.(reused := false);
      held := None;
      ok := run.oracle.call(i, INGEST, Reset);
      if ok {
        StartPhase(INGEST);
        ok := run.oracle.call(i, INGEST, Save);
      }
      if ok {
        ok := run.oracle.call(i, INGEST, Work);
      }
      if ok {
        CompletePhase(INGEST);
        assert item.phases == Done(INDEXING);
        ok := Attempt(i, INDEXING);
      }
      if ok {
        active, held := Some(c.corpus.id), Some(c.corpus);
      }
    }

    /** The phases from the search on; answering and judging only with language models. */
    method Measure(i: nat, ghost reuse: bool) returns (ok: bool)
      requires i < |run.cases| && item.phases == Done(SEARCH)
      modifies this`item, this`activePhase
      ensures var f, count := FirstFailing(run.oracle, i, reuse, PhaseCount(run.ai), SEARCH), PhaseCount(run.ai);
              && ok == (f == count)
              && (ok ==> item == old(item).(phases := Done(count)))
              && (!ok ==> activePhase == f && |item.phases| == PHASES && item == old(item).(phases := item.phases))
              && (!ok ==> item.phases[f := Failed] == Done(f)[f := Failed])
    {
      ok := Attempt(i, SEARCH);
      if ok {
        ok := Attempt(i, EVALUATE);
      }
      if ok && run.ai {
        ok := Attempt(i, ANSWER);
        if ok {
          ok := Attempt(i, JUDGE);
        }
      }
    }

    /** One case, but for the save that ends it. */
    method RunCase(i: nat)
      requires i < |run.cases|
      modifies this
      ensures Now() == Executed(run, i, old(Now()))
    {
      var c := run.cases[i];
      ghost var reuse := active == Some(c.corpus.id);
      PreparingFails(run, i, reuse);
      item := Record(c.id, c.corpus, false, Done(0));
      var ok := Prepare(i);
      if ok {
        ok := Measure(i, reuse);
      }
      if !ok {
        FailPhase(activePhase);
      }
      assert item == RecordOf(run, c, i, reuse);
      records := records[c.id := item];
    }

    /** The loop over the cases; `aborted` is whether it was left by an exception. */
    method RunCases() returns (aborted: bool)
      requires Now() == Start(records)
      modifies this
      ensures Now().(aborted := aborted) == After(run, old(records), |run.cases|)
    {
      ghost var start := records;
      for i := 0 to |run.cases|
        invariant Now() == After(run, start, i)
      {
        LoopGoesOn(run, start, i, Now());
        if run.resume && TerminallyCompleted(records, run.cases[i].id, run.ai) {
          continue;
        }
        if !run.oracle.progress(i) {
          return true;
        }
        RunCase(i);
        if !run.oracle.save(i) {
          return true;
        }
      }
      return false;
    }

    /** The whole run on the provider. */
    method RunProvider() returns (outcome: Outcome)
      requires Now() == Start(records)
      modifies this
      ensures outcome == Reported(run, old(records))
      ensures records == (if Enters(run, old(records)) then After(run, old(records), |run.cases|).records
                          else old(records))
    {
      if run.resume && AllCompleted(run, records) {
        return CompletedRun;
      }
      if !run.oracle.initialize {
        return FailedRun;
      }
      if !run.oracle.health {
        return Unavailable;
      }
      var aborted := RunCases();
      outcome := if aborted then FailedRun else OutcomeOf(records, run.ai);
    }
  }

  // ---------------------------------------------------------------- the records

  /** Completed phases, then at most one failed one, then phases that never started. */
  ghost predicate Shaped(record: Record, ai: bool) {
    && |record.phases| == PHASES
    && exists n: nat, f :: n <= PhaseCount(ai) && record.phases == PhasesWith(n, f)
                        && (f ==> n < PhaseCount(ai)) && (!f ==> n == PhaseCount(ai))
  }

  function PhasesWith(n: nat, failed: bool): seq<Status> {
    if failed && n < PHASES then Done(n)[n := Failed] else Done(n)
  }

  lemma RecordIsShaped(r: Run, c: Case, i: nat, reuse: bool)
    ensures Shaped(RecordOf(r, c, i, reuse), r.ai)
  {
    var f := FailureOf(r, i, reuse);
    assert RecordOf(r, c, i, reuse).phases == PhasesWith(f, f < PhaseCount(r.ai));
  }

  /** The terminal phase is completed exactly when all phases of the case are. */
  lemma TerminalIsLast(record: Record, ai: bool)
    requires Shaped(record, ai)
    ensures record.phases[Terminal(ai)] == Completed
       <==> forall k :: 0 <= k < PhaseCount(ai) ==> record.phases[k] == Completed
    ensures forall j, k :: 0 <= j < k < PHASES && record.phases[k] != Pending ==> record.phases[j] == Completed
  {
  }

  ghost predicate DistinctCaseIds(cases: seq<Case>) {
    forall i, j :: 0 <= i < j < |cases| ==> cases[i].id != cases[j].id
  }

  lemma StepUntouched(r: Run, k: nat, s: State, id: string)
    requires k < |r.cases| && r.cases[k].id != id
    ensures Lookup(CaseStep(r, k, s).records, id) == Lookup(s.records, id)
  {
  }

  lemma StepKeepsCompleted(r: Run, k: nat, s: State, id: string)
    requires k < |r.cases| && r.resume && TerminallyCompleted(s.records, id, r.ai)
    ensures Lookup(CaseStep(r, k, s).records, id) == Lookup(s.records, id)
  {
  }

  /** What the run holds under the id after its first `n` cases. */
  ghost function HeldRecord(r: Run, records: Records, n: nat, id: string): Option<Record>
    requires n <= |r.cases|
  {
    Lookup(After(r, records, n).records, id)
  }

  lemma UntouchedNext(r: Run, records: Records, n: nat, id: string)
    requires n < |r.cases| && r.cases[n].id != id
    ensures HeldRecord(r, records, n + 1, id) == HeldRecord(r, records, n, id)
  {
    AfterNext(r, records, n);
    StepUntouched(r, n, After(r, records, n), id);
  }

  lemma {:induction false} RecordUntouched(r: Run, records: Records, n: nat, m: nat, id: string)
    requires n <= m <= |r.cases| && forall k :: n <= k < m ==> r.cases[k].id != id
    ensures HeldRecord(r, records, m, id) == HeldRecord(r, records, n, id)
    decreases m - n
  {
    if n < m {
      UntouchedNext(r, records, n, id);
      RecordUntouched(r, records, n + 1, m, id);
    }
  }

  lemma KeptNext(r: Run, records: Records, n: nat, id: string, record: Record)
    requires n < |r.cases| && r.resume && HeldRecord(r, records, n, id) == Some(record)
    requires |record.phases| == PHASES && record.phases[Terminal(r.ai)] == Completed
    ensures HeldRecord(r, records, n + 1, id) == Some(record)
  {
    AfterNext(r, records, n);
    StepKeepsCompleted(r, n, After(r, records, n), id);
  }

  /** A resumed run leaves every case that was completed as it is. */
  lemma {:induction false} ResumeKeepsCompleted(r: Run, records: Records, n: nat, id: string)
    requires n <= |r.cases| && r.resume && TerminallyCompleted(records, id, r.ai)
    ensures HeldRecord(r, records, n, id) == Some(records[id])
  {
    if n > 0 {
      ResumeKeepsCompleted(r, records, n - 1, id);
      KeptNext(r, records, n - 1, id, records[id]);
    }
  }

  /** The step of a case whose id the run has not come across yet. */
  lemma StepRecords(r: Run, records: Records, s: State, k: nat)
    requires k < |r.cases| && !s.aborted && !CaseStep(r, k, s).aborted
    requires Lookup(s.records, r.cases[k].id) == Lookup(records, r.cases[k].id)
    requires !(r.resume && TerminallyCompleted(records, r.cases[k].id, r.ai))
    ensures Lookup(CaseStep(r, k, s).records, r.cases[k].id) == Some(RecordOf(r, r.cases[k], k, Reuses(r.cases[k], s)))
  {
  }

  /** What a run that gets through its cases leaves for case `k`: the record it was resumed with if that was completed,
      otherwise the record of running the case. */
  ghost function RecordLeft(r: Run, records: Records, k: nat): Record
    requires k < |r.cases|
  {
    if r.resume && TerminallyCompleted(records, r.cases[k].id, r.ai) then records[r.cases[k].id]
    else RecordOf(r, r.cases[k], k, Reuses(r.cases[k], After(r, records, k)))
  }

  lemma RecordOfCase(r: Run, records: Records, k: nat)
    requires DistinctCaseIds(r.cases) && k < |r.cases| && !After(r, records, k + 1).aborted
    ensures HeldRecord(r, records, k + 1, r.cases[k].id) == Some(RecordLeft(r, records, k))
  {
    if r.resume && TerminallyCompleted(records, r.cases[k].id, r.ai) {
      ResumeKeepsCompleted(r, records, k + 1, r.cases[k].id);
    } else {
      RecordUntouched(r, records, 0, k, r.cases[k].id);
      AfterNext(r, records, k);
      StepRecords(r, records, After(r, records, k), k);
    }
  }

  lemma NotAbortedEarlier(r: Run, records: Records, n: nat, m: nat)
    requires n <= m <= |r.cases| && !After(r, records, m).aborted
    ensures !After(r, records, n).aborted
  {
    if After(r, records, n).aborted {
      AbortedStays(r, records, n, m);
    }
  }

  lemma EveryCaseIsRecorded(r: Run, records: Records, n: nat, k: nat)
    requires DistinctCaseIds(r.cases) && k < n <= |r.cases| && !After(r, records, n).aborted
    ensures HeldRecord(r, records, n, r.cases[k].id) == Some(RecordLeft(r, records, k))
  {
    NotAbortedEarlier(r, records, k + 1, n);
    RecordOfCase(r, records, k);
    RecordUntouched(r, records, k + 1, n, r.cases[k].id);
  }

  // ---------------------------------------------------------------- what is reported

  /** The checkpoint is one of these cases: the manifest it is checked against names them. */
  ghost predicate OfCases(r: Run, records: Records) {
    forall id :: id in records ==> exists k :: 0 <= k < |r.cases| && r.cases[k].id == id
  }

  lemma {:induction false} RecordsAreOfCases(r: Run, records: Records, n: nat)
    requires OfCases(r, records) && n <= |r.cases|
    ensures OfCases(r, After(r, records, n).records)
  {
    if n > 0 {
      RecordsAreOfCases(r, records, n - 1);
    }
  }

  ghost predicate RecordsEveryCase(r: Run, records: Records) {
    OfCases(r, records) && r.cases != [] && forall k :: 0 <= k < |r.cases| ==> r.cases[k].id in records
  }

  lemma AllAreCompleted(r: Run, records: Records)
    requires RecordsEveryCase(r, records)
    ensures CompletedIds(records, r.ai) == records.Keys <==> AllCompleted(r, records)
  {
    var completed := CompletedIds(records, r.ai);
    if !AllCompleted(r, records) {
      var k :| 0 <= k < |r.cases| && !TerminallyCompleted(records, r.cases[k].id, r.ai);
      assert r.cases[k].id in records.Keys && r.cases[k].id !in completed;
    }
  }

  lemma NoneIsCompleted(r: Run, records: Records)
    requires RecordsEveryCase(r, records)
    ensures CompletedIds(records, r.ai) == {}
       <==> forall k :: 0 <= k < |r.cases| ==> !TerminallyCompleted(records, r.cases[k].id, r.ai)
  {
    var completed := CompletedIds(records, r.ai);
    if completed != {} {
      var id :| id in completed;
      var k :| 0 <= k < |r.cases| && r.cases[k].id == id;
    } else {
      forall k | 0 <= k < |r.cases|
        ensures !TerminallyCompleted(records, r.cases[k].id, r.ai)
      {
        assert r.cases[k].id !in completed;
      }
    }
  }

  lemma OutcomeByCounts(records: Records, ai: bool)
    requires records.Keys != {}
    ensures OutcomeOf(records, ai) == CompletedRun <==> CompletedIds(records, ai) == records.Keys
    ensures OutcomeOf(records, ai) == FailedRun <==> CompletedIds(records, ai) == {}
  {
    var completed := CompletedIds(records, ai);
    assert completed <= records.Keys && |records.Keys| == |records|;
    if |completed| == |records| {
      SubsetOfSameSize(completed, records.Keys);
    }
  }

  lemma OutcomeCounts(r: Run, records: Records)
    requires RecordsEveryCase(r, records)
    ensures OutcomeOf(records, r.ai) == CompletedRun <==> AllCompleted(r, records)
    ensures OutcomeOf(records, r.ai) == FailedRun
       <==> forall k :: 0 <= k < |r.cases| ==> !TerminallyCompleted(records, r.cases[k].id, r.ai)
  {
    assert r.cases[0].id in records.Keys;
    OutcomeByCounts(records, r.ai);
    AllAreCompleted(r, records);
    NoneIsCompleted(r, records);
  }

  lemma {:induction false} SubsetOfSameSize(a: set<string>, b: set<string>)
    requires a <= b && |a| == |b|
    ensures a == b
  {
    if a != b {
      var x :| x in b && x !in a;
      assert a <= b - {x};
      SubsetSize(a, b - {x});
    }
  }

  /** A provider that runs through the loop is reported completed exactly when the terminal phase of every case is, and
      failed exactly when that of none is. */
  lemma ReportedExactlyWhen(r: Run, records: Records)
    requires DistinctCaseIds(r.cases) && r.cases != [] && OfCases(r, records)
    requires Enters(r, records) && !After(r, records, |r.cases|).aborted
    ensures var final := After(r, records, |r.cases|).records;
            && (Reported(r, records) == CompletedRun <==> AllCompleted(r, final))
            && (Reported(r, records) == FailedRun
                <==> forall k :: 0 <= k < |r.cases| ==> !TerminallyCompleted(final, r.cases[k].id, r.ai))
  {
    RecordsAreOfCases(r, records, |r.cases|);
    forall k | 0 <= k < |r.cases|
      ensures r.cases[k].id in After(r, records, |r.cases|).records
    {
      EveryCaseIsRecorded(r, records, |r.cases|, k);
    }
    OutcomeCounts(r, After(r, records, |r.cases|).records);
  }

  // ---------------------------------------------------------------- what the calls decide

  /** The calls of a phase: an ingest resets first, and a corpus that is reused takes none up to its index. */
  ghost function CallsOf(phase: nat, reuse: bool): set<Call> {
    if reuse && (phase == INGEST || phase == INDEXING) then {}
    else if phase == INGEST then {Reset, Save, Work}
    else {Save, Work}
  }

  /** None of the calls of the phase throws. */
  ghost predicate Succeeds(o: Oracle, i: nat, reuse: bool, phase: nat) {
    forall call :: call in CallsOf(phase, reuse) ==> o.call(i, phase, call)
  }

  ghost predicate SucceedsUpTo(o: Oracle, i: nat, reuse: bool, n: nat) {
    forall phase: nat :: phase < n ==> Succeeds(o, i, reuse, phase)
  }

  lemma SucceedsExactlyWhen(o: Oracle, i: nat, reuse: bool, phase: nat)
    ensures Succeeds(o, i, reuse, phase) <==> !PhaseFails(o, i, reuse, phase)
  {
    assert Reset in CallsOf(phase, reuse) ==> phase == INGEST && !reuse;
  }

  lemma {:induction false} FirstFailingIs(o: Oracle, i: nat, reuse: bool, count: nat, phase: nat)
    requires phase <= count && SucceedsUpTo(o, i, reuse, phase)
    ensures var f := FirstFailing(o, i, reuse, count, phase);
            SucceedsUpTo(o, i, reuse, f) && (f < count ==> !Succeeds(o, i, reuse, f))
    decreases count - phase
  {
    if phase < count {
      SucceedsExactlyWhen(o, i, reuse, phase);
      if !PhaseFails(o, i, reuse, phase) {
        FirstFailingIs(o, i, reuse, count, phase + 1);
      }
    }
  }

  /** A phase is completed exactly when no call up to its end throws, and failed exactly when one of its own is the
      first to. Without language models nothing is answered or judged. */
  lemma CallsDecide(r: Run, c: Case, i: nat, reuse: bool, k: nat)
    requires k < PHASES
    ensures RecordOf(r, c, i, reuse).reused == reuse
    ensures var phases, goes := RecordOf(r, c, i, reuse).phases, r.ai || k <= EVALUATE;
            && (phases[k] == Completed <==> goes && SucceedsUpTo(r.oracle, i, reuse, k + 1))
            && (phases[k] == Failed <==>
                goes && SucceedsUpTo(r.oracle, i, reuse, k) && !Succeeds(r.oracle, i, reuse, k))
  {
    FirstFailingIs(r.oracle, i, reuse, PhaseCount(r.ai), INGEST);
  }

  /** A case that does not find its corpus active makes it so, and the provider hold it, exactly when no call of its
      ingest and indexing throws; otherwise the provider holds nothing, and what was active stays active. */
  lemma CallsDecideCorpus(r: Run, i: nat, s: State)
    requires i < |r.cases| && s.active != Some(r.cases[i].corpus.id)
    ensures var s', c, indexed := Executed(r, i, s), r.cases[i], SucceedsUpTo(r.oracle, i, false, SEARCH);
            && (s'.active == Some(c.corpus.id) <==> indexed) && (!indexed ==> s'.active == s.active)
            && (s'.held == Some(c.corpus) <==> indexed) && (!indexed ==> s'.held == None)
  {
    FirstFailingIs(r.oracle, i, false, PhaseCount(r.ai), INGEST);
  }

  /** A case that finds its corpus active leaves what is active and what the provider holds, and counts as safe exactly
      if the two agree. */
  lemma ReuseTrusts(r: Run, i: nat, s: State)
    requires i < |r.cases| && s.active == Some(r.cases[i].corpus.id)
    ensures var s' := Executed(r, i, s);
            s'.active == s.active && s'.held == s.held
            && (s'.safe <==> s.safe && s.held == Some(r.cases[i].corpus))
  {
    FirstFailingIs(r.oracle, i, true, PhaseCount(r.ai), INGEST);
  }

  /** The case was completed in the checkpoint that the run resumes from. */
  ghost predicate WasCompleted(r: Run, records: Records, k: nat)
    requires k < |r.cases|
  {
    && r.resume && r.cases[k].id in records && |records[r.cases[k].id].phases| == PHASES
    && records[r.cases[k].id].phases[if r.ai then JUDGE else EVALUATE] == Completed
  }

  /** No call of the case throws, given whether it finds its corpus active. */
  ghost predicate Works(r: Run, records: Records, k: nat)
    requires k < |r.cases|
  {
    SucceedsUpTo(r.oracle, k, Reuses(r.cases[k], After(r, records, k)), if r.ai then PHASES else ANSWER)
  }

  /** The progress of the case is shown and its end saved: neither exception is caught in the loop. */
  ghost predicate Passes(r: Run, k: nat) { r.oracle.progress(k) && r.oracle.save(k) }

  lemma CaseCompletes(r: Run, records: Records, k: nat)
    requires DistinctCaseIds(r.cases) && k < |r.cases| && !After(r, records, |r.cases|).aborted
    ensures TerminallyCompleted(After(r, records, |r.cases|).records, r.cases[k].id, r.ai)
       <==> WasCompleted(r, records, k) || Works(r, records, k)
  {
    EveryCaseIsRecorded(r, records, |r.cases|, k);
    if !WasCompleted(r, records, k) {
      CallsDecide(r, r.cases[k], k, Reuses(r.cases[k], After(r, records, k)), Terminal(r.ai));
    }
  }

  lemma SkipsExactlyWhen(r: Run, records: Records, k: nat)
    requires DistinctCaseIds(r.cases) && k < |r.cases|
    ensures Skips(r, k, After(r, records, k)) <==> WasCompleted(r, records, k)
  {
    RecordUntouched(r, records, 0, k, r.cases[k].id);
  }

  /** The loop is left by an exception exactly when a case that is not skipped has one. */
  lemma {:induction false} AbortsExactlyWhen(r: Run, records: Records, n: nat)
    requires DistinctCaseIds(r.cases) && n <= |r.cases|
    ensures After(r, records, n).aborted
       <==> exists k :: 0 <= k < n && !WasCompleted(r, records, k) && !Passes(r, k)
  {
    if n > 0 {
      AbortsExactlyWhen(r, records, n - 1);
      SkipsExactlyWhen(r, records, n - 1);
      AfterNext(r, records, n - 1);
    }
  }

  ghost predicate SomeLeft(r: Run, records: Records) {
    exists k :: 0 <= k < |r.cases| && !WasCompleted(r, records, k)
  }

  ghost predicate SomeBreaks(r: Run, records: Records) {
    exists k :: 0 <= k < |r.cases| && !WasCompleted(r, records, k) && !Passes(r, k)
  }

  /** The case was completed before, or is now. */
  ghost predicate Ends(r: Run, records: Records, k: int) {
    0 <= k < |r.cases| && (WasCompleted(r, records, k) || Works(r, records, k))
  }

  ghost predicate AllEnd(r: Run, records: Records) { forall k :: 0 <= k < |r.cases| ==> Ends(r, records, k) }

  ghost predicate NoneEnds(r: Run, records: Records) { forall k :: 0 <= k < |r.cases| ==> !Ends(r, records, k) }

  lemma LeftExactlyWhen(r: Run, records: Records)
    requires r.cases != []
    ensures r.resume && AllCompleted(r, records) <==> !SomeLeft(r, records)
  {
    if !SomeLeft(r, records) {
      assert WasCompleted(r, records, 0);
      forall k | 0 <= k < |r.cases|
        ensures TerminallyCompleted(records, r.cases[k].id, r.ai)
      {
        assert WasCompleted(r, records, k);
      }
    }
  }

  lemma LoopReports(r: Run, records: Records)
    requires DistinctCaseIds(r.cases) && r.cases != [] && OfCases(r, records)
    requires Enters(r, records) && !After(r, records, |r.cases|).aborted
    ensures Reported(r, records) == CompletedRun <==> AllEnd(r, records)
    ensures Reported(r, records) == FailedRun <==> NoneEnds(r, records)
    ensures Reported(r, records) != Unavailable
  {
    ReportedExactlyWhen(r, records);
    forall k: nat | k < |r.cases|
      ensures TerminallyCompleted(After(r, records, |r.cases|).records, r.cases[k].id, r.ai) <==> Ends(r, records, k)
    {
      CaseCompletes(r, records, k);
    }
  }

  /** What a provider is reported as, by what its calls do: completed if nothing is left or all goes through,
      unavailable for its health alone, failed if it does not start, breaks off or completes no case, and partial
      otherwise. */
  lemma CallsDecideReport(r: Run, records: Records)
    requires DistinctCaseIds(r.cases) && r.cases != [] && OfCases(r, records)
    ensures !SomeLeft(r, records) ==> Reported(r, records) == CompletedRun
    ensures SomeLeft(r, records) && !r.oracle.initialize ==> Reported(r, records) == FailedRun
    ensures SomeLeft(r, records) && r.oracle.initialize && !r.oracle.health ==> Reported(r, records) == Unavailable
    ensures SomeLeft(r, records) && r.oracle.initialize && r.oracle.health ==>
              Reported(r, records) == if SomeBreaks(r, records) || NoneEnds(r, records) then FailedRun
                                      else if AllEnd(r, records) then CompletedRun else PartialRun
  {
    LeftExactlyWhen(r, records);
    AbortsExactlyWhen(r, records, |r.cases|);
    if Enters(r, records) && !After(r, records, |r.cases|).aborted {
      LoopReports(r, records);
    }
  }

  ghost predicate AllGoesWell(o: Oracle) {
    && o.initialize && o.health && (forall i :: o.progress(i)) && (forall i :: o.save(i))
    && forall i, phase, call :: o.call(i, phase, call)
  }

  lemma {:induction false} NothingFails(r: Run, i: nat, reuse: bool, phase: nat)
    requires AllGoesWell(r.oracle) && phase <= PhaseCount(r.ai)
    ensures FirstFailing(r.oracle, i, reuse, PhaseCount(r.ai), phase) == PhaseCount(r.ai)
    decreases PhaseCount(r.ai) - phase
  {
    if phase < PhaseCount(r.ai) {
      NothingFails(r, i, reuse, phase + 1);
    }
  }

  lemma {:induction false} NeverAborted(r: Run, records: Records, n: nat)
    requires AllGoesWell(r.oracle) && n <= |r.cases|
    ensures !After(r, records, n).aborted
  {
    if n > 0 {
      NeverAborted(r, records, n - 1);
    }
  }

  /** From any checkpoint, a run in which no call fails is reported completed. */
  lemma ResumeFinishes(r: Run, records: Records)
    requires DistinctCaseIds(r.cases) && r.cases != [] && OfCases(r, records) && AllGoesWell(r.oracle)
    ensures Reported(r, records) == CompletedRun
    ensures Enters(r, records) ==> AllCompleted(r, After(r, records, |r.cases|).records)
  {
    if Enters(r, records) {
      NeverAborted(r, records, |r.cases|);
      forall k | 0 <= k < |r.cases|
        ensures TerminallyCompleted(After(r, records, |r.cases|).records, r.cases[k].id, r.ai)
      {
        EveryCaseIsRecorded(r, records, |r.cases|, k);
        NothingFails(r, k, Reuses(r.cases[k], After(r, records, k)), INGEST);
      }
      ReportedExactlyWhen(r, records);
    }
  }

  // ---------------------------------------------------------------- corpus reuse

  /** The cases of a corpus id stand together and are all of one corpus. */
  ghost predicate Contiguous(cases: seq<Case>) {
    forall i, k :: 0 <= i < k < |cases| && cases[i].corpus.id == cases[k].corpus.id ==> Together(cases, i, k)
  }

  ghost predicate Together(cases: seq<Case>, i: nat, k: nat)
    requires i < k < |cases|
  {
    && cases[i].corpus == cases[k].corpus
    && forall j :: i < j < k ==> cases[j].corpus.id == cases[k].corpus.id
  }

  /** The active corpus is the one of case `k`, and the provider still holds it unless another corpus came since. */
  ghost predicate HeldSince(cases: seq<Case>, n: nat, s: State, k: nat)
    requires n <= |cases|
  {
    && k < n && s.active == Some(cases[k].corpus.id)
    && (s.held == Some(cases[k].corpus) || exists j :: k < j < n && cases[j].corpus.id != cases[k].corpus.id)
  }

  ghost predicate ReuseInvariant(cases: seq<Case>, n: nat, s: State)
    requires n <= |cases|
  {
    s.safe && (s.active.Some? ==> exists k :: HeldSince(cases, n, s, k))
  }

  lemma ReuseStep(r: Run, n: nat, s: State)
    requires Contiguous(r.cases) && n < |r.cases| && ReuseInvariant(r.cases, n, s)
    ensures ReuseInvariant(r.cases, n + 1, CaseStep(r, n, s))
  {
    var c, s' := r.cases[n], CaseStep(r, n, s);
    if s.active.Some? {
      var k :| HeldSince(r.cases, n, s, k);
      if Reuses(c, s) {
        assert Together(r.cases, k, n);
      }
      if s'.active == s.active {
        assert HeldSince(r.cases, n + 1, s', k);
      }
    }
    if s'.active != s.active {
      assert HeldSince(r.cases, n + 1, s', n);
    }
  }

  lemma {:induction false} ContiguousReuseIsSafe(r: Run, records: Records, n: nat)
    requires Contiguous(r.cases) && n <= |r.cases|
    ensures ReuseInvariant(r.cases, n, After(r, records, n))
  {
    if n > 0 {
      ContiguousReuseIsSafe(r, records, n - 1);
      ReuseStep(r, n - 1, After(r, records, n - 1));
    }
  }

  /** Everything goes well but for the ingest of the cases between `i` and `k` that are of another corpus id. */
  function FailingBetween(cases: seq<Case>, i: nat, k: nat): Oracle
    requires i < k < |cases|
  {
    Oracle(true, true, n => true,
           (n: nat, phase: nat, call: Call) =>
               !(phase == INGEST && i < n < k && cases[n].corpus.id != cases[k].corpus.id),
           n => true)
  }

  function FailingRun(cases: seq<Case>, i: nat, k: nat): Run
    requires i < k < |cases|
  {
    Run(cases, false, false, FailingBetween(cases, i, k))
  }

  lemma {:induction false} FailureWhenBetween(cases: seq<Case>, i: nat, k: nat, n: nat, reuse: bool)
    requires i < k < |cases| && n < |cases|
    ensures i < n < k && cases[n].corpus.id != cases[k].corpus.id && !reuse ==>
              FailureOf(FailingRun(cases, i, k), n, reuse) == INGEST
    ensures !(i < n < k && cases[n].corpus.id != cases[k].corpus.id) ==>
              FailureOf(FailingRun(cases, i, k), n, reuse) > INDEXING
  {
    PreparingFails(FailingRun(cases, i, k), n, reuse);
  }

  ghost predicate Stale(cases: seq<Case>, i: nat, k: nat, n: nat, s: State)
    requires i < n <= k < |cases|
  {
    && s.active == Some(cases[k].corpus.id) && !s.aborted
    && (s.safe ==>
          && ((exists j :: i < j < n && cases[j].corpus.id != cases[k].corpus.id) ==> s.held == None)
          && (s.held == None || s.held == Some(cases[i].corpus)))
  }

  lemma StaleBegins(cases: seq<Case>, i: nat, k: nat, s: State)
    requires i < k < |cases| && cases[i].corpus.id == cases[k].corpus.id && !s.aborted
    ensures Stale(cases, i, k, i + 1, CaseStep(FailingRun(cases, i, k), i, s))
  {
    FailureWhenBetween(cases, i, k, i, Reuses(cases[i], s));
  }

  lemma StaleStep(cases: seq<Case>, i: nat, k: nat, n: nat, s: State)
    requires i < n < k < |cases| && cases[i].corpus.id == cases[k].corpus.id && Stale(cases, i, k, n, s)
    ensures Stale(cases, i, k, n + 1, CaseStep(FailingRun(cases, i, k), n, s))
  {
    FailureWhenBetween(cases, i, k, n, Reuses(cases[n], s));
  }

  lemma {:induction false} StaleUpTo(cases: seq<Case>, i: nat, k: nat, n: nat)
    requires i < n <= k < |cases| && cases[i].corpus.id == cases[k].corpus.id
    ensures Stale(cases, i, k, n, After(FailingRun(cases, i, k), map[], n))
  {
    var r := FailingRun(cases, i, k);
    AfterNext(r, map[], n - 1);
    if n == i + 1 {
      NotAbortedBefore(cases, i, k, i);
      StaleBegins(cases, i, k, After(r, map[], i));
    } else {
      StaleUpTo(cases, i, k, n - 1);
      StaleStep(cases, i, k, n - 1, After(r, map[], n - 1));
    }
  }

  lemma {:induction false} NotAbortedBefore(cases: seq<Case>, i: nat, k: nat, n: nat)
    requires i < k < |cases| && n <= |cases|
    ensures !After(FailingRun(cases, i, k), map[], n).aborted
  {
    if n > 0 {
      NotAbortedBefore(cases, i, k, n - 1);
      AfterNext(FailingRun(cases, i, k), map[], n - 1);
    }
  }

  lemma UnsafeNext(r: Run, records: Records, n: nat)
    requires n < |r.cases| && !After(r, records, n).safe
    ensures !After(r, records, n + 1).safe
  {
    AfterNext(r, records, n);
  }

  lemma {:induction false} UnsafeStays(r: Run, records: Records, n: nat, m: nat)
    requires n <= m <= |r.cases| && !After(r, records, n).safe
    ensures !After(r, records, m).safe
    decreases m - n
  {
    if n < m {
      UnsafeNext(r, records, n);
      UnsafeStays(r, records, n + 1, m);
    }
  }

  lemma StaleReuse(cases: seq<Case>, i: nat, k: nat, s: State)
    requires i < k < |cases| && cases[i].corpus.id == cases[k].corpus.id && !Together(cases, i, k)
          && Stale(cases, i, k, k, s)
    ensures !CaseStep(FailingRun(cases, i, k), k, s).safe
  {
    assert Reuses(cases[k], s);
    assert s.safe ==> s.held != Some(cases[k].corpus);
  }

  lemma UnsafeStepSpoils(r: Run, records: Records, k: nat, s: State)
    requires k < |r.cases| && s == After(r, records, k) && !CaseStep(r, k, s).safe
    ensures !After(r, records, |r.cases|).safe
  {
    AfterNext(r, records, k);
    UnsafeStays(r, records, k + 1, |r.cases|);
  }

  /** Where the cases of a corpus id do not stand together, some run reuses a corpus the provider no longer holds. */
  lemma BrokenReuse(cases: seq<Case>, i: nat, k: nat)
    requires i < k < |cases| && cases[i].corpus.id == cases[k].corpus.id && !Together(cases, i, k)
    ensures !After(FailingRun(cases, i, k), map[], |cases|).safe
  {
    var s := After(FailingRun(cases, i, k), map[], k);
    StaleUpTo(cases, i, k, k);
    StaleReuse(cases, i, k, s);
    UnsafeStepSpoils(FailingRun(cases, i, k), map[], k, s);
  }

  /** Reuse is safe in every run, whatever fails and whatever checkpoint it resumes from, exactly when the cases of each
      corpus id stand together and are of one corpus. */
  lemma ReuseIsSafeExactlyWhen(cases: seq<Case>)
    ensures (forall r: Run, records :: r.cases == cases ==> After(r, records, |cases|).safe) <==> Contiguous(cases)
  {
    if Contiguous(cases) {
      forall r: Run, records | r.cases == cases
        ensures After(r, records, |cases|).safe
      {
        ContiguousReuseIsSafe(r, records, |cases|);
      }
    } else {
      var i, k :| 0 <= i < k < |cases| && cases[i].corpus.id == cases[k].corpus.id && !Together(cases, i, k);
      BrokenReuse(cases, i, k);
      assert FailingRun(cases, i, k).cases == cases;
    }
  }

  // ---------------------------------------------------------------- the order of the cases

  /** The order of the cases: by the rank of the dataset, then by corpus id. */
  predicate Precedes(rank: string -> nat, before: (string, string) -> bool, a: Case, b: Case) {
    rank(a.corpus.dataset) < rank(b.corpus.dataset)
    || (rank(a.corpus.dataset) == rank(b.corpus.dataset) && before(a.corpus.id, b.corpus.id))
  }

  function Insert(rank: string -> nat, before: (string, string) -> bool, sorted: seq<Case>, c: Case): seq<Case> {
    if sorted == [] || !Precedes(rank, before, c, sorted[|sorted| - 1]) then sorted + [c]
    else Insert(rank, before, sorted[..|sorted| - 1], c) + [sorted[|sorted| - 1]]
  }

  /** A stable sort. */
  function Sorted(rank: string -> nat, before: (string, string) -> bool, cases: seq<Case>): seq<Case> {
    if cases == [] then [] else Insert(rank, before, Sorted(rank, before, cases[..|cases| - 1]), cases[|cases| - 1])
  }

  ghost predicate Ordered(rank: string -> nat, before: (string, string) -> bool, cases: seq<Case>) {
    forall i, j :: 0 <= i < j < |cases| ==> !Precedes(rank, before, cases[j], cases[i])
  }

  lemma {:induction false} InsertKeeps(rank: string -> nat, before: (string, string) -> bool, sorted: seq<Case>,
                                       c: Case)
    ensures multiset(Insert(rank, before, sorted, c)) == multiset(sorted) + multiset{c}
    decreases |sorted|
  {
    if sorted != [] && Precedes(rank, before, c, sorted[|sorted| - 1]) {
      InsertKeeps(rank, before, sorted[..|sorted| - 1], c);
      assert sorted == sorted[..|sorted| - 1] + [sorted[|sorted| - 1]];
    }
  }

  lemma AppendOrders(rank: string -> nat, before: (string, string) -> bool, sorted: seq<Case>, c: Case)
    requires TotalOrder(before) && Ordered(rank, before, sorted)
    requires sorted != [] ==> !Precedes(rank, before, c, sorted[|sorted| - 1])
    ensures Ordered(rank, before, sorted + [c])
  {
    forall i | 0 <= i < |sorted|
      ensures !Precedes(rank, before, c, sorted[i])
    {
      assert i == |sorted| - 1 || !Precedes(rank, before, sorted[|sorted| - 1], sorted[i]);
    }
  }

  lemma LastStaysLast(rank: string -> nat, before: (string, string) -> bool, sorted: seq<Case>, c: Case,
                      front: seq<Case>)
    requires TotalOrder(before) && Ordered(rank, before, sorted) && sorted != []
    requires Precedes(rank, before, c, sorted[|sorted| - 1])
    requires multiset(front) == multiset(sorted[..|sorted| - 1]) + multiset{c}
    ensures forall i :: 0 <= i < |front| ==> !Precedes(rank, before, sorted[|sorted| - 1], front[i])
  {
    forall i | 0 <= i < |front|
      ensures !Precedes(rank, before, sorted[|sorted| - 1], front[i])
    {
      assert front[i] in multiset(front);
      if front[i] != c {
        var k :| 0 <= k < |sorted| - 1 && sorted[k] == front[i];
      }
    }
  }

  lemma {:induction false} InsertOrders(rank: string -> nat, before: (string, string) -> bool, sorted: seq<Case>,
                                        c: Case)
    requires TotalOrder(before) && Ordered(rank, before, sorted)
    ensures Ordered(rank, before, Insert(rank, before, sorted, c))
    decreases |sorted|
  {
    if sorted == [] || !Precedes(rank, before, c, sorted[|sorted| - 1]) {
      AppendOrders(rank, before, sorted, c);
    } else {
      InsertOrders(rank, before, sorted[..|sorted| - 1], c);
      InsertKeeps(rank, before, sorted[..|sorted| - 1], c);
      LastStaysLast(rank, before, sorted, c, Insert(rank, before, sorted[..|sorted| - 1], c));
    }
  }

  lemma {:induction false} SortedIsOrdered(rank: string -> nat, before: (string, string) -> bool, cases: seq<Case>)
    requires TotalOrder(before)
    ensures Ordered(rank, before, Sorted(rank, before, cases))
    ensures multiset(Sorted(rank, before, cases)) == multiset(cases)
    decreases |cases|
  {
    if cases != [] {
      var front, last := cases[..|cases| - 1], cases[|cases| - 1];
      SortedIsOrdered(rank, before, front);
      InsertOrders(rank, before, Sorted(rank, before, front), last);
      InsertKeeps(rank, before, Sorted(rank, before, front), last);
      assert cases == front + [last];
    }
  }

  ghost predicate OneDatasetPerCorpus(cases: seq<Case>) {
    forall a, b :: a in cases && b in cases && a.corpus.id == b.corpus.id ==> a.corpus.dataset == b.corpus.dataset
  }

  /** Sorted, the cases of a corpus id stand together exactly when no id names corpora of two datasets. */
  lemma OrderedIsContiguousExactlyWhen(rank: string -> nat, before: (string, string) -> bool, cases: seq<Case>)
    requires TotalOrder(before) && Ordered(rank, before, cases)
    ensures Contiguous(cases) <==> OneDatasetPerCorpus(cases)
  {
    if OneDatasetPerCorpus(cases) {
      forall i, k | 0 <= i < k < |cases| && cases[i].corpus.id == cases[k].corpus.id
        ensures Together(cases, i, k)
      {
        assert cases[i] in cases && cases[k] in cases;
        forall j | i < j < k
          ensures cases[j].corpus.id == cases[k].corpus.id
        {
          assert !Precedes(rank, before, cases[j], cases[i]) && !Precedes(rank, before, cases[k], cases[j]);
        }
      }
    }
    if Contiguous(cases) {
      forall a, b | a in cases && b in cases && a.corpus.id == b.corpus.id
        ensures a.corpus.dataset == b.corpus.dataset
      {
        var i :| 0 <= i < |cases| && cases[i] == a;
        var k :| 0 <= k < |cases| && cases[k] == b;
        assert i < k ==> Together(cases, i, k);
        assert k < i ==> Together(cases, k, i);
      }
    }
  }

  /** In the order the runner takes, corpus reuse is safe in every run exactly when the loaded cases give no two
      datasets the same corpus id. */
  lemma RunnerReuseIsSafeExactlyWhen(rank: string -> nat, before: (string, string) -> bool, cases: seq<Case>)
    requires TotalOrder(before)
    ensures var sorted := Sorted(rank, before, cases);
            (forall r: Run, records :: r.cases == sorted ==> After(r, records, |sorted|).safe)
              <==> OneDatasetPerCorpus(cases)
  {
    var sorted := Sorted(rank, before, cases);
    SortedIsOrdered(rank, before, cases);
    ReuseIsSafeExactlyWhen(sorted);
    OrderedIsContiguousExactlyWhen(rank, before, sorted);
    assert forall c :: c in sorted <==> c in multiset(sorted);
    assert forall c :: c in cases <==> c in multiset(cases);
  }
}
