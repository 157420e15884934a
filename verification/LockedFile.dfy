/**
 The protocol by which several workers share one JSON file under a file lock: the common core of
 `ErrorLog` (utils/error_log.py) and `StatisticsCollector` (utils/stats_collector.py).

 A worker's job takes the lock, may create the file, may load it, edit the loaded copy and write it back, and
 gives the lock up. Every step of every worker is a separate transition, and any number of workers interleave
 freely. `write_text` is one atomic step.
 */
module LockedFile {
  import opened Wrappers

  /** Never: `ErrorLog._update`. IfMissing: `ErrorLog.__init__` and `StatisticsCollector._update`.
      Always: `ErrorLog.clear`. */
  datatype Create = Never | IfMissing | Always

  /** What a worker sets out to do: create the file or not, and then perhaps one edit. */
  datatype Job<O> = Job(create: Create, edit: Option<O>)

  datatype Phase<C, O> =
    | Idle
    | Waiting(job: Job<O>)                         // before `with self.lock`
    | Locked(job: Job<O>)                          // lock taken
    | MustCreate(job: Job<O>)                      // decided to create
    | Ready(job: Job<O>)                           // file created, if it had to be
    | Loaded(job: Job<O>, copy: C)                 // after `self.read()`
    | Edited(job: Job<O>, copy: C)                 // after the `with` body
    | Finished(job: Job<O>, ok: bool)              // before the lock is released
  {
    predicate InCritical() {
      !Idle? && !Waiting?
    }
  }

  /** What happened to the file, in order. */
  datatype Event<O> = Created | Cleared | Committed(worker: nat, op: O)

  /** `returned[w]` lists the edits of the calls of worker w that returned normally; `file` is None while missing. */
  datatype State<C, O> = State(
    file: Option<C>,
    lock: Option<nat>,
    phases: seq<Phase<C, O>>,
    returned: seq<seq<O>>,
    history: seq<Event<O>>)

  datatype Step<O> =
    | Call(w: nat, job: Job<O>)
    | Acquire(w: nat)
    | Check(w: nat)
    | CreateFile(w: nat)
    | Load(w: nat)
    | Edit(w: nat)
    | Raise(w: nat)       // the `with` body raises, before or after changing its copy
    | Write(w: nat)
    | Release(w: nat)

  /** The content of a new file, and the effect of an edit on a loaded copy. */
  datatype Protocol<!C, !O> = Protocol(blank: C, apply: (C, O) -> C)

  // ---------------------------------------------------------------- transitions

  function SetPhase<C, O>(s: State<C, O>, w: nat, phase: Phase<C, O>): State<C, O>
    requires w < |s.phases|
  {
    s.(phases := s.phases[w := phase])
  }

  /** None when the step is not possible in `s`. */
  function Take<C, O>(p: Protocol<C, O>, s: State<C, O>, step: Step<O>): Option<State<C, O>> {
    var w := step.w;
    if w >= |s.phases| || |s.returned| != |s.phases| then None else
    var phase := s.phases[w];
    match step
    case Call(_, job) =>
      if phase.Idle? then Some(SetPhase(s, w, Waiting(job))) else None
    case Acquire(_) =>
      if phase.Waiting? && s.lock.None? then
        Some(SetPhase(s, w, Locked(phase.job)).(lock := Some(w)))
      else None
    case Check(_) =>
      if !phase.Locked? then None
      else if phase.job.create.Always? || (phase.job.create.IfMissing? && s.file.None?) then
        Some(SetPhase(s, w, MustCreate(phase.job)))
      else Some(SetPhase(s, w, Ready(phase.job)))
    case CreateFile(_) =>
      if !phase.MustCreate? then None else
      var event := if phase.job.create.Always? then Cleared else Created;
      Some(SetPhase(s, w, Ready(phase.job)).(file := Some(p.blank), history := s.history + [event]))
    case Load(_) =>
      if !phase.Ready? then None
      else if phase.job.edit.None? then Some(SetPhase(s, w, Finished(phase.job, true)))
      else if s.file.None? then Some(SetPhase(s, w, Finished(phase.job, false)))
      else Some(SetPhase(s, w, Loaded(phase.job, s.file.value)))
    case Edit(_) =>
      if phase.Loaded? && phase.job.edit.Some? then
        Some(SetPhase(s, w, Edited(phase.job, p.apply(phase.copy, phase.job.edit.value))))
      else None
    case Raise(_) =>
      if phase.Loaded? || phase.Edited? then Some(SetPhase(s, w, Finished(phase.job, false))) else None
    case Write(_) =>
      if phase.Edited? && phase.job.edit.Some? then
        Some(SetPhase(s, w, Finished(phase.job, true)).(
             file := Some(phase.copy), history := s.history + [Committed(w, phase.job.edit.value)]))
      else None
    case Release(_) =>
      if !phase.Finished? then None else
      var done := if phase.ok && phase.job.edit.Some? then [phase.job.edit.value] else [];
      Some(SetPhase(s, w, Idle).(lock := None, returned := s.returned[w := s.returned[w] + done]))
  }

  function Start<C, O>(file: Option<C>, workers: nat): State<C, O> {
    State(file, None, seq(workers, _ => Idle), seq(workers, _ => []), [])
  }

  /** The state after a sequence of steps; None when one of them is not possible. */
  function Run<C, O>(p: Protocol<C, O>, s: State<C, O>, steps: seq<Step<O>>): Option<State<C, O>> {
    if steps == [] then Some(s)
    else
      match Run(p, s, steps[..|steps| - 1])
      case None => None
      case Some(s') => Take(p, s', steps[|steps| - 1])
  }

  // ---------------------------------------------------------------- the sequential meaning

  function Replay<C, O>(p: Protocol<C, O>, file: Option<C>, history: seq<Event<O>>): Option<C> {
    if history == [] then file
    else
      var before := Replay(p, file, history[..|history| - 1]);
      match history[|history| - 1]
      case Created => Some(p.blank)
      case Cleared => Some(p.blank)
      case Committed(_, op) => if before.None? then None else Some(p.apply(before.value, op))
  }

  /** The edits of worker w, in the order they reached the file. */
  function CommitsOf<O>(history: seq<Event<O>>, w: nat): seq<O> {
    if history == [] then []
    else
      var before := CommitsOf(history[..|history| - 1], w);
      match history[|history| - 1]
      case Committed(w', op) => if w == w' then before + [op] else before
      case _ => before
  }

  /** All edits that reached the file, in lock order. */
  function AllCommits<O>(history: seq<Event<O>>): seq<O> {
    if history == [] then []
    else
      var before := AllCommits(history[..|history| - 1]);
      match history[|history| - 1]
      case Committed(_, op) => before + [op]
      case _ => before
  }

  function Committing<C, O>(phase: Phase<C, O>): seq<O> {
    if phase.Finished? && phase.ok && phase.job.edit.Some? then [phase.job.edit.value] else []
  }

  // ---------------------------------------------------------------- the invariant

  ghost predicate Exclusive<C, O>(s: State<C, O>) {
    && (forall w | 0 <= w < |s.phases| :: s.phases[w].InCritical() ==> s.lock == Some(w))
    && (s.lock.Some? ==> s.lock.value < |s.phases| && s.phases[s.lock.value].InCritical())
  }

  ghost predicate PhaseOk<C(!new), O>(p: Protocol<C, O>, s: State<C, O>, phase: Phase<C, O>) {
    match phase
    case MustCreate(job) => job.create.Always? || (job.create.IfMissing? && s.file.None?)
    case Ready(job) => job.create.Never? || s.file.Some?
    case Loaded(job, copy) => job.edit.Some? && s.file == Some(copy)
    case Edited(job, copy) =>
      job.edit.Some? && s.file.Some? && copy == p.apply(s.file.value, job.edit.value)
    case _ => true
  }

  ghost predicate KnownWorkers<O>(history: seq<Event<O>>, workers: nat) {
    forall i | 0 <= i < |history| :: history[i].Committed? ==> history[i].worker < workers
  }

  ghost predicate Inv<C(!new), O(!new)>(p: Protocol<C, O>, file: Option<C>, s: State<C, O>) {
    && |s.returned| == |s.phases|
    && Exclusive(s)
    && (forall w | 0 <= w < |s.phases| :: PhaseOk(p, s, s.phases[w]))
    && s.file == Replay(p, file, s.history)
    && KnownWorkers(s.history, |s.phases|)
    && (forall w | 0 <= w < |s.phases| :: CommitsOf(s.history, w) == s.returned[w] + Committing(s.phases[w]))
  }

  lemma ReplayOne<C, O>(p: Protocol<C, O>, file: Option<C>, history: seq<Event<O>>, e: Event<O>)
    ensures Replay(p, file, history + [e]) ==
            match e
            case Created => Some(p.blank)
            case Cleared => Some(p.blank)
            case Committed(_, op) =>
              var before := Replay(p, file, history);
              if before.None? then None else Some(p.apply(before.value, op))
    ensures forall w ::
              CommitsOf(history + [e], w)
              == CommitsOf(history, w) + if e.Committed? && e.worker == w then [e.op] else []
  {
    assert (history + [e])[..|history|] == history;
  }

  lemma TakePreservesLocks<C(!new), O(!new)>(p: Protocol<C, O>, file: Option<C>, s: State<C, O>, step: Step<O>)
    requires Inv(p, file, s) && Take(p, s, step).Some?
    ensures Exclusive(Take(p, s, step).value)
    ensures var s' := Take(p, s, step).value;
            forall w | 0 <= w < |s'.phases| :: PhaseOk(p, s', s'.phases[w])
  {
    var s' := Take(p, s, step).value;
    forall w | 0 <= w < |s'.phases|
      ensures PhaseOk(p, s', s'.phases[w])
    {
      assert PhaseOk(p, s, s.phases[w]) && PhaseOk(p, s, s.phases[step.w]);
    }
  }

  lemma TakePreservesReplay<C(!new), O(!new)>(p: Protocol<C, O>, file: Option<C>, s: State<C, O>, step: Step<O>)
    requires Inv(p, file, s) && Take(p, s, step).Some?
    ensures var s' := Take(p, s, step).value;
            s'.file == Replay(p, file, s'.history) && KnownWorkers(s'.history, |s'.phases|)
  {
    var s' := Take(p, s, step).value;
    assert PhaseOk(p, s, s.phases[step.w]);
    if s'.history != s.history {
      var e := s'.history[|s.history|];
      assert s'.history == s.history + [e];
      ReplayOne(p, file, s.history, e);
    }
  }

  /** What a step adds to the edits of worker w in the history: nothing, or the edit it writes. */
  function Written<O>(before: seq<Event<O>>, after: seq<Event<O>>, w: nat): seq<O> {
    if |after| <= |before| then []
    else
      match after[|before|]
      case Committed(w', op) => if w == w' then [op] else []
      case _ => []
  }

  lemma TakeWrites<C(!new), O(!new)>(p: Protocol<C, O>, s: State<C, O>, step: Step<O>, w: nat)
    requires Take(p, s, step).Some? && w < |s.phases| == |s.returned|
    ensures var s' := Take(p, s, step).value;
            && (s'.history == s.history || (|s'.history| == |s.history| + 1 && s'.history[..|s.history|] == s.history))
            && s'.returned[w] + Committing(s'.phases[w])
            == s.returned[w] + Committing(s.phases[w]) + Written(s.history, s'.history, w)
  {
  }

  lemma CommitsWritten<O>(before: seq<Event<O>>, after: seq<Event<O>>, w: nat)
    requires after == before || (|after| == |before| + 1 && after[..|before|] == before)
    ensures CommitsOf(after, w) == CommitsOf(before, w) + Written(before, after, w)
  {
  }

  lemma TakePreserves<C(!new), O(!new)>(p: Protocol<C, O>, file: Option<C>, s: State<C, O>, step: Step<O>)
    requires Inv(p, file, s) && Take(p, s, step).Some?
    ensures var s' := Take(p, s, step).value; Inv(p, file, s') && |s'.phases| == |s.phases|
  {
    var s' := Take(p, s, step).value;
    TakePreservesLocks(p, file, s, step);
    TakePreservesReplay(p, file, s, step);
    forall w | 0 <= w < |s'.phases|
      ensures CommitsOf(s'.history, w) == s'.returned[w] + Committing(s'.phases[w])
    {
      TakeWrites(p, s, step, w);
      CommitsWritten(s.history, s'.history, w);
    }
  }

  lemma {:induction false} RunInvariant<C(!new), O(!new)>(
      p: Protocol<C, O>, file: Option<C>, workers: nat, steps: seq<Step<O>>, s: State<C, O>)
    requires Run(p, Start(file, workers), steps) == Some(s)
    ensures Inv(p, file, s) && |s.phases| == workers
  {
    if steps != [] {
      var s0 := Run(p, Start(file, workers), steps[..|steps| - 1]).value;
      var step := steps[|steps| - 1];
      RunInvariant(p, file, workers, steps[..|steps| - 1], s0);
      TakePreserves(p, file, s0, step);
    }
  }

  // ---------------------------------------------------------------- results for every interleaving

  /** No update is lost or doubled. In every reachable state the file is the sequential replay of the history,
      and a worker at rest has in that history exactly the edits whose calls returned normally, in call order:
      an edit whose body raised, or whose file was missing, is not among them. */
  lemma NoLostUpdate<C(!new), O(!new)>(
      p: Protocol<C, O>, file: Option<C>, workers: nat, steps: seq<Step<O>>, s: State<C, O>)
    requires Run(p, Start(file, workers), steps) == Some(s)
    ensures s.file == Replay(p, file, s.history)
    ensures |s.phases| == |s.returned| == workers
    ensures forall w | 0 <= w < workers ::
              s.phases[w].Idle? || s.phases[w].Waiting? ==> CommitsOf(s.history, w) == s.returned[w]
  {
    RunInvariant(p, file, workers, steps, s);
  }

  ghost function Union<O>(lists: seq<seq<O>>): multiset<O> {
    if lists == [] then multiset{} else Union(lists[..|lists| - 1]) + multiset(lists[|lists| - 1])
  }

  ghost function CommitLists<O>(history: seq<Event<O>>, workers: nat): seq<seq<O>> {
    seq(workers, w requires 0 <= w < workers => CommitsOf(history, w))
  }

  lemma UnionLast<O>(h: seq<Event<O>>, workers: nat)
    ensures Union(CommitLists(h, workers + 1)) == Union(CommitLists(h, workers)) + multiset(CommitsOf(h, workers))
  {
    assert CommitLists(h, workers + 1)[..workers] == CommitLists(h, workers);
  }

  lemma CommitsOne<O>(h: seq<Event<O>>, e: Event<O>, w: nat)
    ensures multiset(CommitsOf(h + [e], w))
         == multiset(CommitsOf(h, w)) + if e.Committed? && e.worker == w then multiset{e.op} else multiset{}
  {
    assert (h + [e])[..|h|] == h;
    assert CommitsOf(h + [e], w) == CommitsOf(h, w) + if e.Committed? && e.worker == w then [e.op] else [];
  }

  lemma {:induction false} UnionOne<O>(h: seq<Event<O>>, e: Event<O>, workers: nat)
    ensures Union(CommitLists(h + [e], workers)) ==
            Union(CommitLists(h, workers)) + if e.Committed? && e.worker < workers then multiset{e.op} else multiset{}
  {
    if workers == 0 {
      assert CommitLists(h + [e], 0) == CommitLists(h, 0);
    } else {
      UnionOne(h, e, workers - 1);
      UnionLast(h, workers - 1);
      UnionLast(h + [e], workers - 1);
      CommitsOne(h, e, workers - 1);
    }
  }

  lemma {:induction false} UnionOfNothing<O>(workers: nat)
    ensures Union(CommitLists<O>([], workers)) == multiset{}
  {
    if workers > 0 {
      UnionOfNothing<O>(workers - 1);
      assert CommitLists<O>([], workers)[..workers - 1] == CommitLists([], workers - 1);
    }
  }

  lemma {:induction false} CommitsPartition<O>(history: seq<Event<O>>, workers: nat)
    requires KnownWorkers(history, workers)
    ensures multiset(AllCommits(history)) == Union(CommitLists(history, workers))
  {
    if history == [] {
      UnionOfNothing<O>(workers);
    } else {
      var (before, e) := (history[..|history| - 1], history[|history| - 1]);
      assert history == before + [e];
      CommitsPartition(before, workers);
      UnionOne(before, e, workers);
    }
  }

  /** Once every worker is at rest, the edits that reached the file are together exactly the edits whose calls
      returned, each once. */
  lemma EveryEditOnce<C(!new), O(!new)>(
      p: Protocol<C, O>, file: Option<C>, workers: nat, steps: seq<Step<O>>, s: State<C, O>)
    requires Run(p, Start(file, workers), steps) == Some(s)
    requires forall w | 0 <= w < |s.phases| :: s.phases[w].Idle?
    ensures multiset(AllCommits(s.history)) == Union(s.returned)
  {
    RunInvariant(p, file, workers, steps, s);
    CommitsPartition(s.history, workers);
    var lists := CommitLists(s.history, workers);
    forall w | 0 <= w < workers
      ensures lists[w] == s.returned[w]
    {
      assert Committing(s.phases[w]) == [];
    }
    assert lists == s.returned;
  }

  /** Two workers are never inside the lock together. */
  lemma MutualExclusion<C(!new), O(!new)>(
      p: Protocol<C, O>, file: Option<C>, workers: nat, steps: seq<Step<O>>, s: State<C, O>, v: nat, w: nat)
    requires Run(p, Start(file, workers), steps) == Some(s)
    requires v < |s.phases| && w < |s.phases|
    ensures s.phases[v].InCritical() && s.phases[w].InCritical() ==> v == w
  {
    RunInvariant(p, file, workers, steps, s);
  }

  /** Creating a missing file is decided and done inside the lock, so it never replaces an existing file;
      only `clear` does. */
  lemma CreationKeepsContent<C(!new), O(!new)>(
      p: Protocol<C, O>, file: Option<C>, workers: nat, steps: seq<Step<O>>, s: State<C, O>, w: nat)
    requires Run(p, Start(file, workers), steps) == Some(s)
    requires Take(p, s, CreateFile(w)).Some?
    ensures s.phases[w].MustCreate? && (s.file.Some? ==> s.phases[w].job.create.Always?)
  {
    RunInvariant(p, file, workers, steps, s);
    assert PhaseOk(p, s, s.phases[w]);
  }

  /** The protocol cannot hang: while some worker is inside a call, some worker can take a step of its call. */
  lemma NoDeadlock<C(!new), O(!new)>(
      p: Protocol<C, O>, file: Option<C>, workers: nat, steps: seq<Step<O>>, s: State<C, O>, v: nat)
      returns (step: Step<O>)
    requires Run(p, Start(file, workers), steps) == Some(s)
    requires v < |s.phases| && !s.phases[v].Idle?
    ensures !step.Call? && Take(p, s, step).Some?
  {
    RunInvariant(p, file, workers, steps, s);
    if s.lock.None? {
      step := Acquire(v);
    } else {
      var w := s.lock.value;
      assert PhaseOk(p, s, s.phases[w]);
      step := match s.phases[w]
        case Locked(_) => Check(w)
        case MustCreate(_) => CreateFile(w)
        case Ready(_) => Load(w)
        case Loaded(_, _) => Edit(w)
        case Edited(_, _) => Write(w)
        case _ => Release(w);
    }
  }

  lemma RunOne<C, O>(p: Protocol<C, O>, s: State<C, O>, steps: seq<Step<O>>, step: Step<O>)
    requires Run(p, s, steps).Some?
    ensures Run(p, s, steps + [step]) == Take(p, Run(p, s, steps).value, step)
  {
    assert (steps + [step])[..|steps|] == steps;
  }

  /** The state in which only worker w has moved on, and holds the lock. */
  function Inside<C, O>(s: State<C, O>, w: nat, phase: Phase<C, O>): State<C, O>
    requires w < |s.phases|
  {
    SetPhase(s, w, phase).(lock := Some(w))
  }

  lemma InsideTwice<C, O>(s: State<C, O>, w: nat, a: Phase<C, O>, b: Phase<C, O>)
    requires w < |s.phases|
    ensures Inside(Inside(s, w, a), w, b) == Inside(s, w, b) == SetPhase(Inside(s, w, a), w, b)
    ensures Inside(SetPhase(s, w, a), w, b) == Inside(s, w, b)
  {
    assert s.phases[w := a][w := b] == s.phases[w := b];
  }

  /** The file that a lone call loads, and the history before its edit is written. */
  function Opened<C, O>(p: Protocol<C, O>, s: State<C, O>, create: Create): State<C, O> {
    if create.Always? then s.(file := Some(p.blank), history := s.history + [Cleared])
    else if create.IfMissing? && s.file.None? then s.(file := Some(p.blank), history := s.history + [Created])
    else s
  }

  lemma LoneOpen<C(!new), O(!new)>(p: Protocol<C, O>, s: State<C, O>, w: nat, job: Job<O>) returns (steps: seq<Step<O>>)
    requires w < |s.phases| == |s.returned| && s.phases[w].Idle? && s.lock.None?
    ensures Run(p, s, steps) == Some(Inside(Opened(p, s, job.create), w, Ready(job)))
  {
    RunOne(p, s, [], Call(w, job));
    steps := [] + [Call(w, job)];
    RunOne(p, s, steps, Acquire(w));
    InsideTwice(s, w, Waiting(job), Locked(job));
    steps := steps + [Acquire(w)];
    assert Run(p, s, steps) == Some(Inside(s, w, Locked(job)));
    RunOne(p, s, steps, Check(w));
    steps := steps + [Check(w)];
    if job.create.Always? || (job.create.IfMissing? && s.file.None?) {
      InsideTwice(s, w, Locked(job), MustCreate(job));
      assert Run(p, s, steps) == Some(Inside(s, w, MustCreate(job)));
      RunOne(p, s, steps, CreateFile(w));
      InsideTwice(s, w, MustCreate(job), Ready(job));
      steps := steps + [CreateFile(w)];
    } else {
      InsideTwice(s, w, Locked(job), Ready(job));
    }
  }

  /** What a call that nothing interrupts leaves: its edit applied once to the file, which it may have created;
      or everything as it was, when there is no file. */
  function AfterLoneCall<C, O>(p: Protocol<C, O>, s: State<C, O>, w: nat, create: Create, op: O): State<C, O>
    requires w < |s.returned|
  {
    var o := Opened(p, s, create);
    if o.file.None? then s
    else o.(file := Some(p.apply(o.file.value, op)), history := o.history + [Committed(w, op)],
                 returned := s.returned[w := s.returned[w] + [op]])
  }

  lemma LoneCall<C(!new), O(!new)>(p: Protocol<C, O>, s: State<C, O>, w: nat, create: Create, op: O)
    returns (steps: seq<Step<O>>)
    requires w < |s.phases| == |s.returned| && s.phases[w].Idle? && s.lock.None?
    ensures Run(p, s, steps) == Some(AfterLoneCall(p, s, w, create, op))
  {
    var (job, o) := (Job(create, Some(op)), Opened(p, s, create));
    steps := LoneOpen(p, s, w, job);
    RunOne(p, s, steps, Load(w));
    steps := steps + [Load(w)];
    if o.file.Some? {
      InsideTwice(o, w, Ready(job), Loaded(job, o.file.value));
      assert Run(p, s, steps) == Some(Inside(o, w, Loaded(job, o.file.value)));
      var written := LoneWrite(p, s, o, w, job, steps);
      steps := written;
    } else {
      InsideTwice(o, w, Ready(job), Finished(job, false));
      assert Run(p, s, steps) == Some(Inside(o, w, Finished(job, false)));
      RunOne(p, s, steps, Release(w));
      ReleaseFailed(p, o, w, job);
      steps := steps + [Release(w)];
    }
  }

  lemma ReleaseFailed<C(!new), O(!new)>(p: Protocol<C, O>, o: State<C, O>, w: nat, job: Job<O>)
    requires w < |o.phases| == |o.returned| && o.phases[w].Idle? && o.lock.None?
    ensures Take(p, Inside(o, w, Finished(job, false)), Release(w)) == Some(o)
  {
    assert o.phases[w := Finished(job, false)][w := Idle] == o.phases;
    assert o.returned[w] + [] == o.returned[w];
    assert o.returned[w := o.returned[w]] == o.returned;
  }

  lemma LoneWrite<C(!new), O(!new)>(p: Protocol<C, O>, s: State<C, O>, o: State<C, O>, w: nat, job: Job<O>,
                                    loaded: seq<Step<O>>)
    returns (steps: seq<Step<O>>)
    requires w < |o.phases| == |o.returned| && o.phases[w].Idle? && o.lock.None? && o.file.Some? && job.edit.Some?
    requires Run(p, s, loaded) == Some(Inside(o, w, Loaded(job, o.file.value)))
    ensures Run(p, s, steps) ==
            Some(o.(file := Some(p.apply(o.file.value, job.edit.value)),
                    history := o.history + [Committed(w, job.edit.value)],
                    returned := o.returned[w := o.returned[w] + [job.edit.value]]))
  {
    var (was, next) := (o.file.value, p.apply(o.file.value, job.edit.value));
    var done := o.(file := Some(next), history := o.history + [Committed(w, job.edit.value)]);
    RunOne(p, s, loaded, Edit(w));
    InsideTwice(o, w, Loaded(job, was), Edited(job, next));
    steps := loaded + [Edit(w)];
    assert Run(p, s, steps) == Some(Inside(o, w, Edited(job, next)));
    RunOne(p, s, steps, Write(w));
    WriteInside(p, o, w, job, next);
    steps := steps + [Write(w)];
    assert Run(p, s, steps) == Some(Inside(done, w, Finished(job, true)));
    RunOne(p, s, steps, Release(w));
    ReleaseInside(p, done, w, job);
    steps := steps + [Release(w)];
  }

  lemma WriteInside<C(!new), O(!new)>(p: Protocol<C, O>, o: State<C, O>, w: nat, job: Job<O>, copy: C)
    requires w < |o.phases| == |o.returned| && job.edit.Some?
    ensures Take(p, Inside(o, w, Edited(job, copy)), Write(w)) ==
            Some(Inside(o.(file := Some(copy), history := o.history + [Committed(w, job.edit.value)]),
                        w, Finished(job, true)))
  {
    InsideTwice(o, w, Edited(job, copy), Finished(job, true));
  }

  lemma ReleaseInside<C(!new), O(!new)>(p: Protocol<C, O>, o: State<C, O>, w: nat, job: Job<O>)
    requires w < |o.phases| == |o.returned| && o.phases[w].Idle? && o.lock.None? && job.edit.Some?
    ensures Take(p, Inside(o, w, Finished(job, true)), Release(w)) ==
            Some(o.(returned := o.returned[w := o.returned[w] + [job.edit.value]]))
  {
    assert o.phases[w := Finished(job, true)][w := Idle] == o.phases;
  }

  /** A clear forgets everything before it. */
  lemma {:induction false} ReplaySinceClear<C, O>(
      p: Protocol<C, O>, file: Option<C>, before: seq<Event<O>>, after: seq<Event<O>>)
    ensures Replay(p, file, before + [Cleared] + after) == Replay(p, Some(p.blank), after)
  {
    var h := before + [Cleared] + after;
    if after == [] {
      assert h == before + [Cleared];
      ReplayOne(p, file, before, Cleared);
    } else {
      var rest := after[..|after| - 1];
      assert h[..|h| - 1] == before + [Cleared] + rest;
      ReplaySinceClear(p, file, before, rest);
    }
  }

  /** Once the file exists it never goes missing, and then every edit that loads can load. */
  lemma {:induction false} FileStays<C, O>(p: Protocol<C, O>, s: State<C, O>, steps: seq<Step<O>>)
    requires s.file.Some? && Run(p, s, steps).Some?
    ensures Run(p, s, steps).value.file.Some?
  {
    if steps != [] {
      FileStays(p, s, steps[..|steps| - 1]);
    }
  }
}
