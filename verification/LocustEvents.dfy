/**
 loadtesting/proxy/common/events.py: `LocustEventHandler` and the `statistics_collector` wrapper. Calls of
 wrapped functions interleave and nest freely; each carries a fresh id. What the performance
 counter reads is an input, in seconds.
 */
module LocustEvents {
  import opened Wrappers

  type TaskId = string

  /** How a wrapped function ended. */
  datatype Outcome = Returned(response: string, length: nat) | Raised(error: string)

  /** A buffered event: the parameters of `init_event`, and the outcome once it was merged in. */
  datatype Event = Event(name: string, requestType: string, startCounter: real, outcome: Option<Outcome>)

  /** The keyword arguments of `request_event.fire`. */
  datatype RequestMeta = RequestMeta(
    name: string, requestType: string, response: Option<string>, responseTime: real, responseLength: nat,
    error: Option<string>)

  /** The event as fired when the counter reads `now`; times are in milliseconds. */
  function MetaOf(e: Event, now: real): RequestMeta {
    var totalTime := (now - e.startCounter) * 1000.0;
    match e.outcome
    case Some(Returned(response, length)) => RequestMeta(e.name, e.requestType, Some(response), totalTime, length, None)
    case Some(Raised(error)) => RequestMeta(e.name, e.requestType, None, totalTime, 0, Some(error))
    case None => RequestMeta(e.name, e.requestType, None, totalTime, 0, None)
  }

  type Buffer = map<TaskId, Event>

  datatype KeyError = KeyError

  class LocustEventHandler {
    var buffer: Buffer
    var fired: seq<(TaskId, RequestMeta)>

    constructor ()
      ensures buffer == map[] && fired == []
    {
      buffer, fired := map[], [];
    }

    method InitEvent(taskId: TaskId, requestType: string, taskName: string, now: real)
      modifies this`buffer
      ensures buffer == old(buffer)[taskId := Event(taskName, requestType, now, None)]
    {
      var params := Event(taskName, requestType, now, None);
      buffer := buffer[taskId := params];
    }

    /** `buffer[task_id].update(event)`. */
    method Update(taskId: TaskId, outcome: Outcome) returns (r: Result<(), KeyError>)
      modifies this`buffer
      ensures r.Success? <==> taskId in old(buffer)
      ensures buffer == if taskId in old(buffer)
                        then old(buffer)[taskId := old(buffer)[taskId].(outcome := Some(outcome))] else old(buffer)
    {
      if taskId !in buffer {
        return Failure(KeyError);
      }
      buffer := buffer[taskId := buffer[taskId].(outcome := Some(outcome))];
      r := Success(());
    }

    /** Removes the event and fires it once; a missing id fires nothing. */
    method FireEvent(taskId: TaskId, now: real) returns (r: Result<(), KeyError>)
      modifies this
      ensures r.Success? <==> taskId in old(buffer)
      ensures buffer == old(buffer) - {taskId}
      ensures fired == if taskId in old(buffer)
                       then old(fired) + [(taskId, MetaOf(old(buffer)[taskId], now))] else old(fired)
      ensures taskId in old(buffer) ==>
                var (e, m) := (old(buffer)[taskId], fired[|old(fired)|].1);
                m.name == e.name && m.requestType == e.requestType &&
                m.responseTime == (now - e.startCounter) * 1000.0 &&
                match e.outcome
                case Some(Returned(r, n)) => m.response == Some(r) && m.responseLength == n && m.error == None
                case Some(Raised(x)) => m.response == None && m.responseLength == 0 && m.error == Some(x)
                case None => m.response == None && m.responseLength == 0 && m.error == None
    {
      if taskId !in buffer {
        return Failure(KeyError);
      }
      var event := buffer[taskId];
      buffer := buffer - {taskId};
      fired := fired + [(taskId, MetaOf(event, now))];
      r := Success(());
    }
  }

  // ---------------------------------------------------------------- the wrapper, step by step

  /** Ended: the function returned or raised an Exception. Merged: its outcome is in the buffer. Killed: it was
      left by an exception that is no Exception (a killed greenlet, an interrupt), which nothing handles. */
  datatype Phase = Running | Ended(outcome: Outcome) | Merged(outcome: Outcome) | Killed

  datatype Call = Call(requestType: string, startCounter: real, phase: Phase)

  /** An event and the reading of the counter when it was fired. */
  datatype Done = Done(event: Event, firedAt: real)

  /** `calls` are those in flight or killed; `done` are those whose wrapper has fired. */
  datatype State = State(
    buffer: Buffer,
    calls: map<TaskId, Call>,
    done: map<TaskId, Done>,
    fired: seq<(TaskId, RequestMeta)>,
    keyErrors: nat)

  datatype Step =
    | Start(id: TaskId, requestType: string, now: real)
    | End(id: TaskId, outcome: Outcome)
    | Kill(id: TaskId)
    | Merge(id: TaskId)
    | Fire(id: TaskId, now: real)

  /** None when the step is not possible; an id is possible once (uuid4). */
  function Do(s: State, step: Step): Option<State> {
    var id := step.id;
    match step
    case Start(_, requestType, now) =>
      if id in s.calls || id in s.done then None
      else Some(s.(buffer := s.buffer[id := Event("", requestType, now, None)],
                   calls := s.calls[id := Call(requestType, now, Running)]))
    case End(_, outcome) =>
      if id in s.calls && s.calls[id].phase.Running? then
        Some(s.(calls := s.calls[id := s.calls[id].(phase := Ended(outcome))]))
      else None
    case Kill(_) =>
      if id in s.calls && s.calls[id].phase.Running? then
        Some(s.(calls := s.calls[id := s.calls[id].(phase := Killed)]))
      else None
    case Merge(_) =>
      if id in s.calls && s.calls[id].phase.Ended? then
        if id !in s.buffer then Some(s.(calls := s.calls - {id}, keyErrors := s.keyErrors + 1))
        else
          var outcome := s.calls[id].phase.outcome;
          Some(s.(buffer := s.buffer[id := s.buffer[id].(outcome := Some(outcome))],
                  calls := s.calls[id := s.calls[id].(phase := Merged(outcome))]))
      else None
    case Fire(_, now) =>
      if id in s.calls && s.calls[id].phase.Merged? then
        if id !in s.buffer then Some(s.(calls := s.calls - {id}, keyErrors := s.keyErrors + 1))
        else
          var call := s.calls[id];
          Some(s.(buffer := s.buffer - {id}, calls := s.calls - {id},
                  done := s.done[id := Done(Buffered(call), now)],
                  fired := s.fired + [(id, MetaOf(s.buffer[id], now))]))
      else None
  }

  const START := State(map[], map[], map[], [], 0)

  function Run(steps: seq<Step>): Option<State> {
    if steps == [] then Some(START)
    else
      match Run(steps[..|steps| - 1])
      case None => None
      case Some(s) => Do(s, steps[|steps| - 1])
  }

  // ---------------------------------------------------------------- the invariant

  /** What the buffer holds for a call. */
  function Buffered(call: Call): Event {
    Event("", call.requestType, call.startCounter, if call.phase.Merged? then Some(call.phase.outcome) else None)
  }

  /** What a done call must have fired. */
  function FiredFor(d: Done): RequestMeta {
    MetaOf(d.event, d.firedAt)
  }

  ghost predicate FiredOnce(s: State) {
    && (forall i, j | 0 <= i < j < |s.fired| :: s.fired[i].0 != s.fired[j].0)
    && (forall i | 0 <= i < |s.fired| :: s.fired[i].0 in s.done && s.fired[i].1 == FiredFor(s.done[s.fired[i].0]))
    && (forall id | id in s.done :: exists i :: 0 <= i < |s.fired| && s.fired[i].0 == id)
  }

  ghost predicate Inv(s: State) {
    && s.keyErrors == 0
    && s.buffer.Keys == s.calls.Keys
    && (forall id | id in s.calls :: id !in s.done && s.buffer[id] == Buffered(s.calls[id]))
    && FiredOnce(s)
  }

  lemma DoFiresOnce(s: State, step: Step)
    requires Inv(s) && Do(s, step).Some?
    ensures FiredOnce(Do(s, step).value)
  {
    var s' := Do(s, step).value;
    if step.Fire? {
      var n := |s.fired|;
      assert s'.fired[n].0 == step.id;
      forall id | id in s'.done
        ensures exists i :: 0 <= i < |s'.fired| && s'.fired[i].0 == id
      {
        if id in s.done {
          var i :| 0 <= i < |s.fired| && s.fired[i].0 == id;
          assert s'.fired[i].0 == id;
        }
      }
    }
  }

  lemma DoKeepsBuffer(s: State, step: Step)
    requires Inv(s) && Do(s, step).Some?
    ensures var s' := Do(s, step).value;
            && s'.keyErrors == 0
            && s'.buffer.Keys == s'.calls.Keys
            && (forall id | id in s'.calls :: id !in s'.done && s'.buffer[id] == Buffered(s'.calls[id]))
  {
  }

  lemma {:induction false} RunInvariant(steps: seq<Step>, s: State)
    requires Run(steps) == Some(s)
    ensures Inv(s)
  {
    if steps != [] {
      var s0 := Run(steps[..|steps| - 1]).value;
      RunInvariant(steps[..|steps| - 1], s0);
      DoKeepsBuffer(s0, steps[|steps| - 1]);
      DoFiresOnce(s0, steps[|steps| - 1]);
    }
  }

  // ---------------------------------------------------------------- results for every interleaving

  ghost predicate InFlight(s: State, id: TaskId) {
    id in s.calls && !s.calls[id].phase.Killed?
  }

  /** In every reachable state no lookup has failed, and the buffer's keys are the calls in flight together with
      the killed ones; so they are exactly the calls in flight if and only if no call was killed. */
  lemma BufferIsInFlight(steps: seq<Step>, s: State)
    requires Run(steps) == Some(s)
    ensures s.keyErrors == 0
    ensures forall id :: id in s.buffer <==> InFlight(s, id) || (id in s.calls && s.calls[id].phase.Killed?)
    ensures (forall id :: id in s.buffer <==> InFlight(s, id)) <==> (forall i | 0 <= i < |steps| :: !steps[i].Kill?)
  {
    RunInvariant(steps, s);
    if i :| 0 <= i < |steps| && steps[i].Kill? {
      KillLeavesKilled(steps, s, i);
    } else if id :| id in s.calls && s.calls[id].phase.Killed? {
      var i := KilledByKill(steps, s, id);
    }
  }

  /** A killed call is never removed. */
  lemma {:induction false} KillLeavesKilled(steps: seq<Step>, s: State, i: nat)
    requires Run(steps) == Some(s) && i < |steps| && steps[i].Kill?
    ensures steps[i].id in s.calls && s.calls[steps[i].id].phase.Killed?
  {
    var before := steps[..|steps| - 1];
    if i < |before| {
      KillLeavesKilled(before, Run(before).value, i);
    }
  }

  /** Only a Kill step kills. */
  lemma {:induction false} KilledByKill(steps: seq<Step>, s: State, id: TaskId) returns (i: nat)
    requires Run(steps) == Some(s) && id in s.calls && s.calls[id].phase.Killed?
    ensures i < |steps| && steps[i].Kill?
  {
    var (before, step) := (steps[..|steps| - 1], steps[|steps| - 1]);
    if step.Kill? {
      i := |before|;
    } else {
      i := KilledByKill(before, Run(before).value, id);
    }
  }

  /** Every call that returned or raised an Exception and came to its end fired exactly one event, with its own
      request type and outcome; calls in flight or killed have fired none. */
  lemma OneEventPerCall(steps: seq<Step>, s: State, id: TaskId)
    requires Run(steps) == Some(s)
    ensures id in s.done ==>
              exists i :: && 0 <= i < |s.fired| && s.fired[i] == (id, FiredFor(s.done[id]))
                          && forall j | 0 <= j < |s.fired| && j != i :: s.fired[j].0 != id
    ensures id in s.calls ==> forall j | 0 <= j < |s.fired| :: s.fired[j].0 != id
  {
    RunInvariant(steps, s);
    if id in s.done {
      var i :| 0 <= i < |s.fired| && s.fired[i].0 == id;
      forall j | 0 <= j < |s.fired| && j != i
        ensures s.fired[j].0 != id
      {
        assert i < j || j < i;
      }
    }
  }

  /** The steps of a call: how it started, how its function ended, and when it was fired. */
  ghost predicate Started(steps: seq<Step>, id: TaskId, requestType: string, now: real) {
    exists i :: 0 <= i < |steps| && steps[i] == Start(id, requestType, now)
  }

  ghost predicate EndedWith(steps: seq<Step>, id: TaskId, outcome: Outcome) {
    exists i :: 0 <= i < |steps| && steps[i] == End(id, outcome)
  }

  ghost predicate FiredAt(steps: seq<Step>, id: TaskId, now: real) {
    exists i :: 0 <= i < |steps| && steps[i] == Fire(id, now)
  }

  lemma OneStepMore(before: seq<Step>, step: Step, id: TaskId)
    ensures forall t, now :: Started(before + [step], id, t, now) <==>
                             Started(before, id, t, now) || step == Start(id, t, now)
    ensures forall o :: EndedWith(before + [step], id, o) <==> EndedWith(before, id, o) || step == End(id, o)
    ensures forall now :: FiredAt(before + [step], id, now) <==> FiredAt(before, id, now) || step == Fire(id, now)
  {
    var steps := before + [step];
    assert forall i | 0 <= i < |before| :: steps[i] == before[i];
    assert steps[|before|] == step;
  }

  ghost predicate CallAsStepped(steps: seq<Step>, id: TaskId, c: Call) {
    && Started(steps, id, c.requestType, c.startCounter)
    && (c.phase.Ended? || c.phase.Merged? ==> EndedWith(steps, id, c.phase.outcome))
  }

  ghost predicate DoneAsStepped(steps: seq<Step>, id: TaskId, d: Done) {
    && Started(steps, id, d.event.requestType, d.event.startCounter) && FiredAt(steps, id, d.firedAt)
    && d.event.outcome.Some? && EndedWith(steps, id, d.event.outcome.value)
  }

  /** The event of a done call is what its own steps say: its request type and start, the outcome its function
      ended with, and when it was fired. */
  lemma {:induction false} DoneAsEnded(steps: seq<Step>, s: State, id: TaskId)
    requires Run(steps) == Some(s)
    ensures id in s.done ==> DoneAsStepped(steps, id, s.done[id])
    ensures id in s.calls ==> CallAsStepped(steps, id, s.calls[id])
  {
    if steps != [] {
      var (before, step) := (steps[..|steps| - 1], steps[|steps| - 1]);
      DoneAsEnded(before, Run(before).value, id);
      assert steps == before + [step];
      StepAccounted(before, Run(before).value, step, id);
    }
  }

  lemma StepAccounted(before: seq<Step>, s: State, step: Step, id: TaskId)
    requires Do(s, step).Some?
    requires id in s.done ==> DoneAsStepped(before, id, s.done[id])
    requires id in s.calls ==> CallAsStepped(before, id, s.calls[id])
    ensures var s' := Do(s, step).value;
            && (id in s'.done ==> DoneAsStepped(before + [step], id, s'.done[id]))
            && (id in s'.calls ==> CallAsStepped(before + [step], id, s'.calls[id]))
  {
    OneStepMore(before, step, id);
    if step.id == id && step.Fire? {
      assert CallAsStepped(before, id, s.calls[id]);
    }
  }

  // ---------------------------------------------------------------- the fired event, from the call's own steps

  ghost predicate StartIs(s: State, id: TaskId, requestType: string, now: real) {
    || (id in s.calls && s.calls[id].requestType == requestType && s.calls[id].startCounter == now)
    || (id in s.done && s.done[id].event.requestType == requestType && s.done[id].event.startCounter == now)
  }

  ghost predicate EndIs(s: State, id: TaskId, o: Outcome) {
    || (id in s.calls && (s.calls[id].phase == Ended(o) || s.calls[id].phase == Merged(o)))
    || (id in s.done && s.done[id].event.outcome == Some(o))
  }

  ghost predicate IsRemembered(s: State, step: Step) {
    match step
    case Start(id, requestType, now) => StartIs(s, id, requestType, now)
    case End(id, o) => EndIs(s, id, o)
    case Fire(id, now) => id in s.done && s.done[id].firedAt == now && s.done[id].event.name == ""
    case _ => true
  }

  lemma NowRemembered(s: State, step: Step)
    requires Inv(s) && Do(s, step).Some?
    ensures IsRemembered(Do(s, step).value, step)
  {
  }

  lemma StillRemembered(s: State, step: Step, earlier: Step)
    requires Inv(s) && Do(s, step).Some? && IsRemembered(s, earlier)
    ensures IsRemembered(Do(s, step).value, earlier)
  {
  }

  /** A start, an end and a firing are remembered for ever, so a call has only one of each. */
  lemma {:induction false} Remembered(steps: seq<Step>, s: State, i: nat)
    requires Run(steps) == Some(s) && i < |steps|
    ensures IsRemembered(s, steps[i])
  {
    var (before, step) := (steps[..|steps| - 1], steps[|steps| - 1]);
    var s0 := Run(before).value;
    RunInvariant(before, s0);
    if i < |before| {
      Remembered(before, s0, i);
      StillRemembered(s0, step, before[i]);
    } else {
      NowRemembered(s0, step);
    }
  }

  /** For every run and every call that was started, ended and fired, exactly one event was fired: with the request
      type of its start, the time from its start to its firing, and the response and its length, or the error,
      that its function ended with. */
  lemma FiredEvent(steps: seq<Step>, s: State, id: TaskId, requestType: string, start: real, o: Outcome, end: real)
    returns (i: nat)
    requires Run(steps) == Some(s)
    requires Start(id, requestType, start) in steps && End(id, o) in steps && Fire(id, end) in steps
    ensures i < |s.fired| && s.fired[i].0 == id
    ensures forall j | 0 <= j < |s.fired| && j != i :: s.fired[j].0 != id
    ensures var m := s.fired[i].1;
            && m.name == "" && m.requestType == requestType && m.responseTime == (end - start) * 1000.0
            && match o
               case Returned(r, n) => m.response == Some(r) && m.responseLength == n && m.error == None
               case Raised(x) => m.response == None && m.responseLength == 0 && m.error == Some(x)
  {
    var a :| 0 <= a < |steps| && steps[a] == Start(id, requestType, start);
    var b :| 0 <= b < |steps| && steps[b] == End(id, o);
    var c :| 0 <= c < |steps| && steps[c] == Fire(id, end);
    Remembered(steps, s, a);
    Remembered(steps, s, b);
    Remembered(steps, s, c);
    RunInvariant(steps, s);
    OneEventPerCall(steps, s, id);
    i :| 0 <= i < |s.fired| && s.fired[i] == (id, FiredFor(s.done[id])) &&
         forall j | 0 <= j < |s.fired| && j != i :: s.fired[j].0 != id;
  }

  /** The time fired for a done call is the one from its start to its firing. */
  lemma FiredTime(d: Done)
    ensures FiredFor(d).responseTime == 1000.0 * (d.firedAt - d.event.startCounter)
    ensures d.event.startCounter <= d.firedAt <==> FiredFor(d).responseTime >= 0.0
  {
  }

  /** A killed call does stay: one start, one kill. */
  lemma KilledCallStays(id: TaskId, requestType: string, now: real)
    ensures var run := Run([] + [Start(id, requestType, now)] + [Kill(id)]);
            run.Some? && id in run.value.buffer && !InFlight(run.value, id)
  {
    var one := [] + [Start(id, requestType, now)];
    assert one[..0] == [] && Run(one[..0]) == Some(START);
    assert (one + [Kill(id)])[..1] == one;
    assert Run(one).value.calls == map[id := Call(requestType, now, Running)];
  }

  // ---------------------------------------------------------------- the class and the machine

  /** The wrapper's use of the handler at one step. */
  method Perform(h: LocustEventHandler, s: State, step: Step)
    requires h.buffer == s.buffer && h.fired == s.fired && Do(s, step).Some?
    modifies h
    ensures h.buffer == Do(s, step).value.buffer && h.fired == Do(s, step).value.fired
  {
    match step
    case Start(id, requestType, now) =>
      h.InitEvent(id, requestType, "", now);
    case Merge(id) =>
      var r := h.Update(id, s.calls[id].phase.outcome);
    case Fire(id, now) =>
      var r := h.FireEvent(id, now);
    case _ =>
  }

  /** Whatever the interleaving of wrapped calls, the handler's fields are those of the state machine. */
  method PerformAll(steps: seq<Step>) returns (h: LocustEventHandler, s: State)
    requires Run(steps).Some?
    ensures Run(steps) == Some(s) && h.buffer == s.buffer && h.fired == s.fired
  {
    h := new LocustEventHandler();
    s := START;
    for i := 0 to |steps|
      invariant Run(steps[..i]) == Some(s) && h.buffer == s.buffer && h.fired == s.fired && fresh(h)
    {
      PrefixRuns(steps, i + 1);
      assert steps[..i + 1][..i] == steps[..i];
      Perform(h, s, steps[i]);
      s := Do(s, steps[i]).value;
    }
    assert steps[..|steps|] == steps;
  }

  lemma {:induction false} PrefixRuns(steps: seq<Step>, i: nat)
    requires Run(steps).Some? && i <= |steps|
    ensures Run(steps[..i]).Some?
    decreases |steps|
  {
    if i < |steps| {
      var before := steps[..|steps| - 1];
      PrefixRuns(before, i);
      assert before[..i] == steps[..i];
    } else {
      assert steps[..i] == steps;
    }
  }
}
