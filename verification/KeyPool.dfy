/**
 `run_openzeppelin_tests` (clickfile.py): the ordering of the test files, and the pool of key sets that worker
 threads share through `keys_env.pop(0)` and `keys_env.append(keys)`. Threads interleave freely between steps;
 a single `pop` or `append` is atomic.
 */
module KeyPool {
  import opened Wrappers
  import opened Lists

  type TestFile = string
  type KeySet = seq<string>

  // ---------------------------------------------------------------- priority tests first

  const PRIORITY_NAMES := [
    "test/token/ERC721/ERC721.test.js",
    "test/token/ERC721/ERC721Enumerable.test.js",
    "test/token/ERC721/extensions/ERC721Wrapper.test.js"
  ]

  predicate EndsWith(s: string, suffix: string) {
    |suffix| <= |s| && s[|s| - |suffix|..] == suffix
  }

  predicate IsPriority(test: TestFile) {
    exists i | 0 <= i < |PRIORITY_NAMES| :: EndsWith(test, PRIORITY_NAMES[i])
  }

  function Prioritised(tests: seq<TestFile>): seq<TestFile> {
    Filter(IsPriority, tests) + Filter(Not(IsPriority), tests)
  }

  method Prioritise(tests: seq<TestFile>) returns (prioritised: seq<TestFile>)
    ensures prioritised == Prioritised(tests)
  {
    var priorityTests, otherTests := [], [];
    for i := 0 to |tests|
      invariant priorityTests == Filter(IsPriority, tests[..i])
      invariant otherTests == Filter(Not(IsPriority), tests[..i])
    {
      assert tests[..i + 1][..i] == tests[..i];
      if IsPriority(tests[i]) {
        priorityTests := priorityTests + [tests[i]];
      } else {
        otherTests := otherTests + [tests[i]];
      }
    }
    assert tests[..|tests|] == tests;
    prioritised := priorityTests + otherTests;
  }

  lemma EndsWithMeans(s: string, suffix: string)
    ensures EndsWith(s, suffix) <==> exists prefix: string :: s == prefix + suffix
  {
    if EndsWith(s, suffix) {
      assert s == s[..|s| - |suffix|] + suffix;
    }
  }

  /** The priority files are exactly the paths that end with one of three names. */
  lemma PriorityNames(test: TestFile)
    ensures IsPriority(test) <==>
              || (exists prefix: string :: test == prefix + "test/token/ERC721/ERC721.test.js")
              || (exists prefix: string :: test == prefix + "test/token/ERC721/ERC721Enumerable.test.js")
              || (exists prefix: string :: test == prefix + "test/token/ERC721/extensions/ERC721Wrapper.test.js")
  {
    EndsWithMeans(test, PRIORITY_NAMES[0]);
    EndsWithMeans(test, PRIORITY_NAMES[1]);
    EndsWithMeans(test, PRIORITY_NAMES[2]);
  }

  /** Both parts of the list keep the order in which the files were found. */
  lemma PriorityInOrder(tests: seq<TestFile>)
    ensures exists first, others ::
              && Prioritised(tests) == first + others
              && Selects(IsPriority, tests, first) && Selects(Not(IsPriority), tests, others)
  {
    var at := FilterPicks(IsPriority, tests);
    var others := FilterPicks(Not(IsPriority), tests);
    assert Selects(IsPriority, tests, Filter(IsPriority, tests));
    assert Selects(Not(IsPriority), tests, Filter(Not(IsPriority), tests));
  }

  /** The list handed to the pool holds every test file as often as it was found, and no priority file comes
      after another file. */
  lemma PriorityFirst(tests: seq<TestFile>)
    ensures multiset(Prioritised(tests)) == multiset(tests)
    ensures var p := Prioritised(tests);
            forall i, j | 0 <= i < j < |p| :: IsPriority(p[j]) ==> IsPriority(p[i])
  {
    var (first, others) := (Filter(IsPriority, tests), Filter(Not(IsPriority), tests));
    FilterSplits(IsPriority, tests);
    FilterSelects(IsPriority, tests);
    FilterSelects(Not(IsPriority), tests);
    assert forall i | 0 <= i < |first| :: first[i] in first;
    assert forall i | 0 <= i < |others| :: others[i] in others;
  }

  // ---------------------------------------------------------------- the pool

  datatype Worker =
    | Idle
    | Picked(test: TestFile)                   // before `keys_env.pop(0)`
    | Running(test: TestFile, keys: KeySet)    // holds a key set
    | Returning(test: TestFile)                // after `keys_env.append(keys)`

  /** `started` lists the tests handed out so far. A job that raises moves its test to `crashed`, and if it
      has not reached `append` its keys to `lost`; a `pop` of an empty list crashes its test too. */
  datatype State = State(
    queue: seq<TestFile>,
    workers: seq<Worker>,
    free: seq<KeySet>,
    started: seq<TestFile>,
    finished: seq<TestFile>,
    crashed: seq<TestFile>,
    lost: seq<KeySet>)

  datatype Step =
    | Take(w: nat)       // the pool hands the next test to an idle worker
    | Pop(w: nat)
    | Append(w: nat)
    | Return(w: nat)
    | Raise(w: nat)      // the job raises after `pop`, before or after `append`
    | PopFails(w: nat)   // IndexError: pop from empty list

  function Do(s: State, step: Step): Option<State> {
    var w := step.w;
    if w >= |s.workers| then None else
    var worker := s.workers[w];
    match step
    case Take(_) =>
      if worker.Idle? && s.queue != [] then
        Some(s.(queue := s.queue[1..], started := s.started + [s.queue[0]],
                workers := s.workers[w := Picked(s.queue[0])]))
      else None
    case Pop(_) =>
      if worker.Picked? && s.free != [] then
        Some(s.(free := s.free[1..], workers := s.workers[w := Running(worker.test, s.free[0])]))
      else None
    case Append(_) =>
      if worker.Running? then
        Some(s.(free := s.free + [worker.keys], workers := s.workers[w := Returning(worker.test)]))
      else None
    case Return(_) =>
      if worker.Returning? then
        Some(s.(finished := s.finished + [worker.test], workers := s.workers[w := Idle]))
      else None
    case Raise(_) =>
      if worker.Running? then
        Some(s.(crashed := s.crashed + [worker.test], lost := s.lost + [worker.keys], workers := s.workers[w := Idle]))
      else if worker.Returning? then
        Some(s.(crashed := s.crashed + [worker.test], workers := s.workers[w := Idle]))
      else None
    case PopFails(_) =>
      if worker.Picked? && s.free == [] then
        Some(s.(crashed := s.crashed + [worker.test], workers := s.workers[w := Idle]))
      else None
  }

  /** `Pool(jobs)` over the prioritised tests, with one key set prepared per job. */
  function Start(tests: seq<TestFile>, keys: seq<KeySet>): State {
    State(tests, seq(|keys|, _ => Idle), keys, [], [], [], [])
  }

  function Run(s: State, steps: seq<Step>): Option<State> {
    if steps == [] then Some(s)
    else
      match Run(s, steps[..|steps| - 1])
      case None => None
      case Some(s') => Do(s', steps[|steps| - 1])
  }

  predicate NoJobRaises(steps: seq<Step>) {
    forall i | 0 <= i < |steps| :: !steps[i].Raise?
  }

  // ---------------------------------------------------------------- what workers hold

  function Holds(worker: Worker, k: KeySet): nat {
    if worker.Running? && worker.keys == k then 1 else 0
  }

  function Does(worker: Worker, t: TestFile): nat {
    if !worker.Idle? && worker.test == t then 1 else 0
  }

  /** The number of running jobs that hold key set k. */
  function Holders(workers: seq<Worker>, k: KeySet): nat {
    if workers == [] then 0 else Holders(workers[..|workers| - 1], k) + Holds(workers[|workers| - 1], k)
  }

  /** The number of workers busy with test t. */
  function Doers(workers: seq<Worker>, t: TestFile): nat {
    if workers == [] then 0 else Doers(workers[..|workers| - 1], t) + Does(workers[|workers| - 1], t)
  }

  function RunningCount(workers: seq<Worker>): nat {
    if workers == [] then 0
    else RunningCount(workers[..|workers| - 1]) + if workers[|workers| - 1].Running? then 1 else 0
  }

  lemma {:induction false} UpdateWorker(workers: seq<Worker>, w: nat, worker: Worker, k: KeySet, t: TestFile)
    requires w < |workers|
    ensures Holders(workers[w := worker], k) + Holds(workers[w], k) == Holders(workers, k) + Holds(worker, k)
    ensures Doers(workers[w := worker], t) + Does(workers[w], t) == Doers(workers, t) + Does(worker, t)
    ensures RunningCount(workers[w := worker]) + (if workers[w].Running? then 1 else 0)
         == RunningCount(workers) + (if worker.Running? then 1 else 0)
  {
    var n := |workers| - 1;
    if w == n {
      assert workers[w := worker][..n] == workers[..n];
    } else {
      assert workers[w := worker][..n] == workers[..n][w := worker];
      UpdateWorker(workers[..n], w, worker, k, t);
    }
  }

  lemma {:induction false} NothingHeld(workers: seq<Worker>, k: KeySet, t: TestFile)
    requires forall w | 0 <= w < |workers| :: workers[w].Idle?
    ensures Holders(workers, k) == Doers(workers, t) == RunningCount(workers) == 0
  {
    if workers != [] {
      NothingHeld(workers[..|workers| - 1], k, t);
    }
  }

  /** A worker that does not run leaves room: fewer key sets are held than there are workers. */
  lemma {:induction false} RunningBound(workers: seq<Worker>, w: nat)
    ensures RunningCount(workers) <= |workers|
    ensures w < |workers| && !workers[w].Running? ==> RunningCount(workers) < |workers|
  {
    if workers != [] {
      RunningBound(workers[..|workers| - 1], w);
    }
  }

  lemma {:induction false} HoldersCounted(workers: seq<Worker>, v: nat, w: nat)
    requires w < |workers| && workers[w].Running?
    ensures Holders(workers, workers[w].keys) >= 1
    ensures v < w && workers[v].Running? && workers[v].keys == workers[w].keys ==>
              Holders(workers, workers[w].keys) >= 2
  {
    var n := |workers| - 1;
    if w < n {
      HoldersCounted(workers[..n], v, w);
    } else if v < w && workers[v].Running? {
      HoldersCounted(workers[..n], 0, v);
    }
  }

  // ---------------------------------------------------------------- the invariant

  /** Where key set k is: free, held or lost. */
  ghost function KeyCount(s: State, k: KeySet): nat {
    multiset(s.free)[k] + Holders(s.workers, k) + multiset(s.lost)[k]
  }

  /** How often a started test is in flight, finished or crashed. */
  ghost function TestCount(s: State, t: TestFile): nat {
    Doers(s.workers, t) + multiset(s.finished)[t] + multiset(s.crashed)[t]
  }

  ghost predicate Inv(tests: seq<TestFile>, keys: seq<KeySet>, s: State) {
    && |s.workers| == |keys|
    && s.started + s.queue == tests
    && |s.free| + RunningCount(s.workers) + |s.lost| == |keys|
    && (forall k: KeySet :: KeyCount(s, k) == multiset(keys)[k])
    && (forall t: TestFile :: TestCount(s, t) == multiset(s.started)[t])
  }

  lemma StepCounts(s: State, step: Step, k: KeySet, t: TestFile)
    requires Do(s, step).Some?
    ensures var s' := Do(s, step).value;
            && KeyCount(s', k) == KeyCount(s, k)
            && TestCount(s', t) - multiset(s'.started)[t] == TestCount(s, t) - multiset(s.started)[t]
  {
    UpdateWorker(s.workers, step.w, Do(s, step).value.workers[step.w], k, t);
    if step.Pop? {
      assert s.free == [s.free[0]] + s.free[1..];
    }
  }

  lemma StepTotal(s: State, step: Step)
    requires Do(s, step).Some?
    ensures var s' := Do(s, step).value;
            |s'.free| + RunningCount(s'.workers) + |s'.lost| == |s.free| + RunningCount(s.workers) + |s.lost|
  {
    UpdateWorker(s.workers, step.w, Do(s, step).value.workers[step.w], [], []);
  }

  lemma StepPreserves(tests: seq<TestFile>, keys: seq<KeySet>, s: State, step: Step)
    requires Inv(tests, keys, s) && Do(s, step).Some?
    ensures Inv(tests, keys, Do(s, step).value)
  {
    var s' := Do(s, step).value;
    if step.Take? {
      assert s.queue == [s.queue[0]] + s.queue[1..];
    }
    StepTotal(s, step);
    forall k: KeySet
      ensures KeyCount(s', k) == multiset(keys)[k]
    {
      StepCounts(s, step, k, []);
    }
    forall t: TestFile
      ensures TestCount(s', t) == multiset(s'.started)[t]
    {
      StepCounts(s, step, [], t);
    }
  }

  lemma {:induction false} RunInvariant(tests: seq<TestFile>, keys: seq<KeySet>, steps: seq<Step>, s: State)
    requires Run(Start(tests, keys), steps) == Some(s)
    ensures Inv(tests, keys, s)
  {
    if steps == [] {
      NothingHeld(s.workers, [], []);
      forall k: KeySet
        ensures KeyCount(s, k) == multiset(keys)[k]
      {
        NothingHeld(s.workers, k, []);
      }
      forall t: TestFile
        ensures TestCount(s, t) == multiset(s.started)[t]
      {
        NothingHeld(s.workers, [], t);
      }
    } else {
      var s0 := Run(Start(tests, keys), steps[..|steps| - 1]).value;
      RunInvariant(tests, keys, steps[..|steps| - 1], s0);
      StepPreserves(tests, keys, s0, steps[|steps| - 1]);
    }
  }

  // ---------------------------------------------------------------- results for every interleaving

  /** Key sets are conserved: every prepared set is free, held by a running job, or lost with a job that raised.
      If the prepared sets are distinct, no two running jobs hold the same one and none of theirs is free. */
  lemma KeysConserved(tests: seq<TestFile>, keys: seq<KeySet>, steps: seq<Step>, s: State)
    requires Run(Start(tests, keys), steps) == Some(s)
    ensures forall k: KeySet :: multiset(s.free)[k] + Holders(s.workers, k) + multiset(s.lost)[k] == multiset(keys)[k]
    ensures |s.free| + RunningCount(s.workers) + |s.lost| == |keys| == |s.workers|
    ensures Distinct(keys) ==>
              forall v, w | 0 <= v < w < |s.workers| && s.workers[v].Running? && s.workers[w].Running? ::
                s.workers[v].keys != s.workers[w].keys && s.workers[v].keys !in s.free && s.workers[w].keys !in s.free
  {
    RunInvariant(tests, keys, steps, s);
    forall k: KeySet
      ensures multiset(s.free)[k] + Holders(s.workers, k) + multiset(s.lost)[k] == multiset(keys)[k]
    {
      assert KeyCount(s, k) == multiset(keys)[k];
    }
    if Distinct(keys) {
      forall v, w | 0 <= v < w < |s.workers| && s.workers[v].Running? && s.workers[w].Running?
        ensures s.workers[v].keys != s.workers[w].keys
        ensures s.workers[v].keys !in s.free && s.workers[w].keys !in s.free
      {
        DistinctHolders(keys, s, v, w);
      }
    }
  }

  lemma DistinctHolders(keys: seq<KeySet>, s: State, v: nat, w: nat)
    requires Distinct(keys)
    requires forall k: KeySet :: KeyCount(s, k) == multiset(keys)[k]
    requires v < w < |s.workers| && s.workers[v].Running? && s.workers[w].Running?
    ensures s.workers[v].keys != s.workers[w].keys
    ensures s.workers[v].keys !in s.free && s.workers[w].keys !in s.free
  {
    HoldersCounted(s.workers, 0, v);
    HoldersCounted(s.workers, v, w);
    DistinctCount(keys, s.workers[v].keys);
    DistinctCount(keys, s.workers[w].keys);
    assert KeyCount(s, s.workers[v].keys) <= 1 && KeyCount(s, s.workers[w].keys) <= 1;
  }

  lemma EmptyPoolNeedsLoss(tests: seq<TestFile>, keys: seq<KeySet>, steps: seq<Step>, s: State, w: nat)
    requires Run(Start(tests, keys), steps) == Some(s)
    requires w < |s.workers| && s.workers[w].Picked?
    ensures s.free == [] <==> RunningCount(s.workers) + |s.lost| == |keys|
    ensures s.free == [] ==> s.lost != []
  {
    RunInvariant(tests, keys, steps, s);
    RunningBound(s.workers, w);
  }

  lemma {:induction false} NothingLost(tests: seq<TestFile>, keys: seq<KeySet>, steps: seq<Step>, s: State)
    requires Run(Start(tests, keys), steps) == Some(s) && NoJobRaises(steps)
    ensures s.lost == [] && s.crashed == []
  {
    if steps != [] {
      var (before, step) := (steps[..|steps| - 1], steps[|steps| - 1]);
      assert step == steps[|steps| - 1];
      var s0 := Run(Start(tests, keys), before).value;
      NothingLost(tests, keys, before, s0);
      if step.PopFails? {
        EmptyPoolNeedsLoss(tests, keys, before, s0, step.w);
      }
    }
  }

  /** `pop(0)` meets an empty list exactly when running jobs and raised jobs together account for every key
      set; so some job must have raised before, and without raising jobs it never happens. */
  lemma PopNeverFails(tests: seq<TestFile>, keys: seq<KeySet>, steps: seq<Step>, s: State, w: nat)
    requires Run(Start(tests, keys), steps) == Some(s)
    requires w < |s.workers| && s.workers[w].Picked?
    ensures s.free == [] <==> RunningCount(s.workers) + |s.lost| == |keys|
    ensures s.free == [] ==> s.lost != []
    ensures NoJobRaises(steps) ==> s.free != []
  {
    EmptyPoolNeedsLoss(tests, keys, steps, s, w);
    if NoJobRaises(steps) {
      NothingLost(tests, keys, steps, s);
    }
  }

  /** When no test is left and every worker is idle: every test ran exactly once, to its end or to a crash, and
      they were started in the pool's order; if no job raised, none crashed and all key sets are free again. */
  lemma AllTestsRunOnce(tests: seq<TestFile>, keys: seq<KeySet>, steps: seq<Step>, s: State)
    requires Run(Start(tests, keys), steps) == Some(s)
    requires s.queue == [] && forall w | 0 <= w < |s.workers| :: s.workers[w].Idle?
    ensures s.started == tests
    ensures multiset(s.finished) + multiset(s.crashed) == multiset(tests)
    ensures multiset(s.free) + multiset(s.lost) == multiset(keys)
    ensures NoJobRaises(steps) ==> multiset(s.finished) == multiset(tests) && multiset(s.free) == multiset(keys)
  {
    RunInvariant(tests, keys, steps, s);
    forall k: KeySet
      ensures (multiset(s.free) + multiset(s.lost))[k] == multiset(keys)[k]
    {
      NothingHeld(s.workers, k, []);
      assert KeyCount(s, k) == multiset(keys)[k];
    }
    forall t: TestFile
      ensures (multiset(s.finished) + multiset(s.crashed))[t] == multiset(tests)[t]
    {
      NothingHeld(s.workers, [], t);
      assert TestCount(s, t) == multiset(s.started)[t];
    }
    if NoJobRaises(steps) {
      NothingLost(tests, keys, steps, s);
      assert multiset(s.finished) + multiset{} == multiset(s.finished);
      assert multiset(s.free) + multiset{} == multiset(s.free);
    }
  }

  lemma RunOne(s: State, steps: seq<Step>, step: Step)
    requires Run(s, steps).Some?
    ensures Run(s, steps + [step]) == Do(Run(s, steps).value, step)
  {
    assert (steps + [step])[..|steps|] == steps;
  }

  /** The leak is real: with one job and one key set, a job that raises leaves the next `pop(0)` nothing. */
  lemma RaiseLeaksKeys(a: TestFile, b: TestFile, k: KeySet)
    ensures var steps := [] + [Take(0)] + [Pop(0)] + [Raise(0)] + [Take(0)] + [PopFails(0)];
            var s := Run(Start([a, b], [k]), steps);
            s.Some? && s.value.crashed == [a, b] && s.value.finished == []
  {
    var s0 := Start([a, b], [k]);
    RunOne(s0, [], Take(0));
    RunOne(s0, [] + [Take(0)], Pop(0));
    RunOne(s0, [] + [Take(0)] + [Pop(0)], Raise(0));
    RunOne(s0, [] + [Take(0)] + [Pop(0)] + [Raise(0)], Take(0));
    RunOne(s0, [] + [Take(0)] + [Pop(0)] + [Raise(0)] + [Take(0)], PopFails(0));
  }

  // ---------------------------------------------------------------- keys in turn

  /** The key sets that `pop(0)` has handed out, in order. */
  function Taken(start: State, steps: seq<Step>): seq<KeySet> {
    if steps == [] then []
    else
      var (before, step) := (Taken(start, steps[..|steps| - 1]), steps[|steps| - 1]);
      match Run(start, steps)
      case None => before
      case Some(s) =>
        if step.Pop? && step.w < |s.workers| && s.workers[step.w].Running? then before + [s.workers[step.w].keys]
        else before
  }

  /** The key sets that `append` has put back, in order. */
  function PutBack(start: State, steps: seq<Step>): seq<KeySet> {
    if steps == [] then []
    else
      var (before, step) := (PutBack(start, steps[..|steps| - 1]), steps[|steps| - 1]);
      match Run(start, steps[..|steps| - 1])
      case None => before
      case Some(s) =>
        if step.Append? && step.w < |s.workers| && s.workers[step.w].Running? then before + [s.workers[step.w].keys]
        else before
  }

  /** The list is a queue: the prepared sets, and then those put back, are handed out in that order, and what has
      not been handed out is the list. */
  lemma {:induction false} KeysInTurn(tests: seq<TestFile>, keys: seq<KeySet>, steps: seq<Step>, s: State)
    requires Run(Start(tests, keys), steps) == Some(s)
    ensures keys + PutBack(Start(tests, keys), steps) == Taken(Start(tests, keys), steps) + s.free
  {
    if steps != [] {
      var (before, step) := (steps[..|steps| - 1], steps[|steps| - 1]);
      var s0 := Run(Start(tests, keys), before).value;
      KeysInTurn(tests, keys, before, s0);
      var start := Start(tests, keys);
      var (taken, back) := (Taken(start, before), PutBack(start, before));
      if step.Pop? {
        var k := s0.free[0];
        assert Taken(start, steps) == taken + [k] && PutBack(start, steps) == back;
        assert taken + s0.free == taken + [k] + s.free;
      } else if step.Append? {
        var k := s0.workers[step.w].keys;
        assert Taken(start, steps) == taken && PutBack(start, steps) == back + [k];
        assert keys + (back + [k]) == keys + back + [k] && taken + (s0.free + [k]) == taken + s0.free + [k];
      }
    }
  }

  // ---------------------------------------------------------------- progress

  function WorkLeft(worker: Worker): nat {
    match worker
    case Idle => 0
    case Picked(_) => 3
    case Running(_, _) => 2
    case Returning(_) => 1
  }

  function AllWorkLeft(workers: seq<Worker>): nat {
    if workers == [] then 0 else AllWorkLeft(workers[..|workers| - 1]) + WorkLeft(workers[|workers| - 1])
  }

  lemma {:induction false} UpdateWorkLeft(workers: seq<Worker>, w: nat, worker: Worker)
    requires w < |workers|
    ensures AllWorkLeft(workers[w := worker]) + WorkLeft(workers[w]) == AllWorkLeft(workers) + WorkLeft(worker)
  {
    var n := |workers| - 1;
    if w == n {
      assert workers[w := worker][..n] == workers[..n];
    } else {
      assert workers[w := worker][..n] == workers[..n][w := worker];
      UpdateWorkLeft(workers[..n], w, worker);
    }
  }

  lemma {:induction false} NoWorkYet(workers: seq<Worker>)
    requires forall w | 0 <= w < |workers| :: workers[w].Idle?
    ensures AllWorkLeft(workers) == 0
  {
    if workers != [] {
      NoWorkYet(workers[..|workers| - 1]);
    }
  }

  lemma StepUsesWork(s: State, step: Step)
    requires Do(s, step).Some?
    ensures var s' := Do(s, step).value;
            4 * |s'.queue| + AllWorkLeft(s'.workers) < 4 * |s.queue| + AllWorkLeft(s.workers)
  {
    UpdateWorkLeft(s.workers, step.w, Do(s, step).value.workers[step.w]);
  }

  /** No run is longer than four steps a test. */
  lemma {:induction false} RunsEnd(tests: seq<TestFile>, keys: seq<KeySet>, steps: seq<Step>, s: State)
    requires Run(Start(tests, keys), steps) == Some(s)
    ensures |steps| + 4 * |s.queue| + AllWorkLeft(s.workers) <= 4 * |tests|
  {
    if steps == [] {
      NoWorkYet(s.workers);
    } else {
      var s0 := Run(Start(tests, keys), steps[..|steps| - 1]).value;
      RunsEnd(tests, keys, steps[..|steps| - 1], s0);
      StepUsesWork(s0, steps[|steps| - 1]);
    }
  }

  /** Until all work is done some step is possible; with RunsEnd, every maximal run reaches the end state of
      AllTestsRunOnce. */
  lemma SomeStepPossible(tests: seq<TestFile>, keys: seq<KeySet>, steps: seq<Step>, s: State) returns (step: Step)
    requires Run(Start(tests, keys), steps) == Some(s) && keys != []
    requires s.queue != [] || exists w :: 0 <= w < |s.workers| && !s.workers[w].Idle?
    ensures Do(s, step).Some? && !step.Raise?
  {
    RunInvariant(tests, keys, steps, s);
    if w: nat :| w < |s.workers| && !s.workers[w].Idle? {
      var worker := s.workers[w];
      step := if worker.Running? then Append(w) else if worker.Returning? then Return(w)
              else if s.free == [] then PopFails(w) else Pop(w);
    } else {
      step := Take(0);
    }
  }
}
