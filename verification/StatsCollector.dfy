/** utils/stats_collector.py: collectors that append to one cost report file, creating it when it is missing. */
module StatsCollector {
  import opened Wrappers
  import opened LockedFile

  datatype CostReportAction = CostReportAction(name: string, usedGas: int, gasPrice: int, tx: string)
  datatype CostReportModel = CostReportModel(name: string, actions: seq<CostReportAction>)

  function Append(report: CostReportModel, action: CostReportAction): CostReportModel {
    report.(actions := report.actions + [action])
  }

  /** Collectors of one file agree on the blank report, whose name comes from the file's name. */
  function Collecting(name: string): Protocol<CostReportModel, CostReportAction> {
    Protocol(CostReportModel(name, []), (report: CostReportModel, action: CostReportAction) => Append(report, action))
  }

  type S = State<CostReportModel, CostReportAction>

  /** `with collector._update() as report: report.actions.append(action)`. */
  function Recording(action: CostReportAction): Job<CostReportAction> {
    Job(IfMissing, Some(action))
  }

  /** Workers only record actions, and appending does not raise. */
  predicate OnlyRecords(steps: seq<Step<CostReportAction>>) {
    forall i | 0 <= i < |steps| ::
      && !steps[i].Raise?
      && (steps[i].Call? ==> steps[i].job.edit.Some? && steps[i].job == Recording(steps[i].job.edit.value))
  }

  // ---------------------------------------------------------------- one user at a time

  class StatisticsCollector {
    const name: string
    var reportFile: Option<CostReportModel>

    constructor (name: string, existing: Option<CostReportModel>)
      ensures this.name == name && reportFile == existing
    {
      this.name := name;
      reportFile := existing;
    }

    /** Creates the report only if it is missing, and then appends one action. */
    method Record(action: CostReportAction)
      modifies this`reportFile
      ensures reportFile == Some(Append(if old(reportFile).None? then CostReportModel(name, [])
                                        else old(reportFile).value, action))
    {
      if reportFile.None? {
        reportFile := Some(CostReportModel(name, []));
      }
      var report := reportFile.value;
      report := report.(actions := report.actions + [action]);
      reportFile := Some(report);
    }
  }

  /** `Record` does what a recording call does in the protocol when nothing interrupts it. */
  method LoneRecord(c: StatisticsCollector, s: S, w: nat, action: CostReportAction)
    returns (ghost steps: seq<Step<CostReportAction>>)
    requires c.reportFile == s.file
    requires w < |s.phases| == |s.returned| && s.phases[w].Idle? && s.lock.None?
    modifies c
    ensures Run(Collecting(c.name), s, steps) == Some(AfterLoneCall(Collecting(c.name), s, w, IfMissing, action))
    ensures Run(Collecting(c.name), s, steps).value.file == c.reportFile
  {
    steps := LoneCall(Collecting(c.name), s, w, IfMissing, action);
    c.Record(action);
  }

  // ---------------------------------------------------------------- racing collectors

  ghost predicate RecordingPhase(phase: Phase<CostReportModel, CostReportAction>) {
    phase.Idle? || (phase.job.edit.Some? && phase.job.create.IfMissing? && (phase.Finished? ==> phase.ok))
  }

  /** The file is never cleared, and created at most once, first, and only if it was missing. */
  ghost predicate CreatedAtMostFirst(file: Option<CostReportModel>, history: seq<Event<CostReportAction>>) {
    forall i | 0 <= i < |history| :: !history[i].Cleared? && (history[i].Created? ==> i == 0 && file.None?)
  }

  /** The actions worker w set out to record. */
  function Called(steps: seq<Step<CostReportAction>>, w: nat): seq<CostReportAction> {
    if steps == [] then []
    else
      var before := Called(steps[..|steps| - 1], w);
      match steps[|steps| - 1]
      case Call(w', Job(_, Some(action))) => if w == w' then before + [action] else before
      case _ => before
  }

  function InFlight(phase: Phase<CostReportModel, CostReportAction>): seq<CostReportAction> {
    if phase.Idle? || phase.job.edit.None? then [] else [phase.job.edit.value]
  }

  /** What a collector set out to record is what it has recorded and what it is recording. */
  ghost predicate AllAccounted(steps: seq<Step<CostReportAction>>, s: S) {
    && |s.returned| == |s.phases|
    && (forall w | 0 <= w < |s.phases| :: RecordingPhase(s.phases[w]))
    && (forall w | 0 <= w < |s.phases| :: Called(steps, w) == s.returned[w] + InFlight(s.phases[w]))
  }

  lemma AccountedNext(name: string, steps: seq<Step<CostReportAction>>, step: Step<CostReportAction>, s: S, next: S)
    requires AllAccounted(steps, s) && Take(Collecting(name), s, step) == Some(next) && OnlyRecords([step])
    requires PhaseOk(Collecting(name), s, s.phases[step.w])
    ensures AllAccounted(steps + [step], next)
  {
    assert (steps + [step])[..|steps|] == steps;
    assert [step][0] == step;
    assert RecordingPhase(s.phases[step.w]);
    assert forall w | 0 <= w < |s.phases| && w != step.w ::
        next.phases[w] == s.phases[w] && next.returned[w] == s.returned[w];
    assert Called(steps + [step], step.w) == next.returned[step.w] + InFlight(next.phases[step.w]);
  }

  lemma {:induction false} RecordingRun(name: string, file: Option<CostReportModel>, workers: nat,
                                        steps: seq<Step<CostReportAction>>, s: S)
    requires Run(Collecting(name), Start(file, workers), steps) == Some(s) && OnlyRecords(steps)
    ensures AllAccounted(steps, s)
    ensures CreatedAtMostFirst(file, s.history)
    ensures file.Some? ==> s.file.Some?
    ensures s.file.None? ==> s.history == []
  {
    if steps != [] {
      var (before, step) := (steps[..|steps| - 1], steps[|steps| - 1]);
      assert steps == before + [step];
      var s0 := Run(Collecting(name), Start(file, workers), before).value;
      RecordingRun(name, file, workers, before, s0);
      RunInvariant(Collecting(name), file, workers, before, s0);
      assert PhaseOk(Collecting(name), s0, s0.phases[step.w]);
      AccountedNext(name, before, step, s0, s);
      assert RecordingPhase(s0.phases[step.w]);
    }
  }

  lemma {:induction false} ActionsReplay(name: string, file: Option<CostReportModel>,
                                         history: seq<Event<CostReportAction>>)
    requires CreatedAtMostFirst(file, history)
    requires Replay(Collecting(name), file, history).Some?
    ensures Replay(Collecting(name), file, history).value ==
            var start := if file.None? then CostReportModel(name, []) else file.value;
            start.(actions := start.actions + AllCommits(history))
  {
    if history != [] {
      var (before, e) := (history[..|history| - 1], history[|history| - 1]);
      if e.Created? {
        assert before == [];
        assert AllCommits(history) == [];
      } else {
        assert e.Committed?;
        ActionsReplay(name, file, before);
      }
    }
  }

  /** For any number of collectors and any interleaving, whether the report existed or not: once all are at
      rest, the report holds its earlier actions followed by every recorded action exactly once, in lock order,
      and each collector's own actions keep their order and are all the actions it set out to record. */
  lemma RacingCollectors(name: string, file: Option<CostReportModel>, workers: nat,
                         steps: seq<Step<CostReportAction>>, s: S)
    requires Run(Collecting(name), Start(file, workers), steps) == Some(s) && OnlyRecords(steps)
    requires forall w | 0 <= w < |s.phases| :: s.phases[w].Idle?
    ensures s.file.None? ==> file.None? && Union(s.returned) == multiset{}
    ensures var start := if file.None? then CostReportModel(name, []) else file.value;
            s.file.Some? ==> s.file.value == start.(actions := start.actions + AllCommits(s.history))
    ensures multiset(AllCommits(s.history)) == Union(s.returned)
    ensures |s.returned| == workers
    ensures forall w | 0 <= w < workers :: CommitsOf(s.history, w) == s.returned[w] == Called(steps, w)
  {
    RecordingRun(name, file, workers, steps, s);
    NoLostUpdate(Collecting(name), file, workers, steps, s);
    EveryEditOnce(Collecting(name), file, workers, steps, s);
    if s.file.Some? {
      ActionsReplay(name, file, s.history);
    }
  }
}
