/** utils/error_log.py: the log of failed tests, shared by test workers through a locked file. */
module ErrorLog {
  import opened Wrappers
  import opened LockedFile

  datatype TestGroup = Economy | Basic | Tracer | Services | Oz | Ui | Evm | CompilerCompatibility

  type Names = map<TestGroup, seq<string>>

  datatype Log = Log(failures: Names, errors: Names, comments: seq<string>)

  datatype Op =
    | AddFailure(group: TestGroup, name: string)
    | AddError(group: TestGroup, name: string)
    | AddFailures(group: TestGroup, names: seq<string>)
    | AddComment(text: string)

  const BLANK := Log(map[], map[], [])

  /** Indexing the defaultdict, which adds the key, and extending the list found there. */
  function Extend(m: Names, group: TestGroup, names: seq<string>): Names {
    m[group := NamesIn(m, group) + names]
  }

  function NamesIn(m: Names, group: TestGroup): seq<string> {
    if group in m then m[group] else []
  }

  function Apply(log: Log, op: Op): Log {
    match op
    case AddFailure(group, name) => log.(failures := Extend(log.failures, group, [name]))
    case AddError(group, name) => log.(errors := Extend(log.errors, group, [name]))
    case AddFailures(group, names) => log.(failures := Extend(log.failures, group, names))
    case AddComment(text) => log.(comments := log.comments + [text])
  }

  const PROTOCOL: Protocol<Log, Op> := Protocol(BLANK, (log: Log, op: Op) => Apply(log, op))

  // ---------------------------------------------------------------- queries

  function AnyLogs(log: Log): bool {
    log.failures != map[] || log.errors != map[]
  }

  function CountsOf(log: Log): map<TestGroup, nat> {
    var failed := map group | group in log.failures && |log.failures[group]| > 0 :: |log.failures[group]|;
    var errored := map group | group in log.errors && |log.errors[group]| > 0 :: |log.errors[group]|;
    map key | key in failed.Keys + errored.Keys ::
      (if key in failed then failed[key] else 0) + (if key in errored then errored[key] else 0)
  }

  // ---------------------------------------------------------------- one user at a time

  datatype ReadError = FileNotFound

  /** An `ErrorLog` with the file it manages; every method runs under the lock. `directory` tells whether the
      directory of the file exists; without it there is no file. */
  class ErrorLogFile {
    const directory: bool
    var file: Option<Log>

    predicate Valid()
      reads this
    {
      file.Some? ==> directory
    }

    constructor (directory: bool, existing: Option<Log>)
      requires existing.Some? ==> directory
      ensures Valid() && this.directory == directory
      ensures existing.Some? ==> file == existing
      ensures existing.None? ==> file == if directory then Some(BLANK) else None
    {
      this.directory := directory;
      file := existing;
      if existing.None? && directory {
        file := Some(BLANK);
      }
    }

    /** True and a blank log, or False and nothing changed when the directory is missing. */
    method Clear() returns (created: bool)
      requires Valid()
      modifies this
      ensures Valid() && (created <==> directory)
      ensures file == if created then Some(BLANK) else old(file)
    {
      if !directory {
        return false;
      }
      file := Some(BLANK);
      created := true;
    }

    method Read() returns (log: Result<Log, ReadError>)
      ensures log.Success? <==> file.Some?
      ensures log.Success? ==> file == Some(log.value)
    {
      if file.None? {
        return Failure(FileNotFound);
      }
      log := Success(file.value);
    }

    /** A missing file is an error; otherwise the answer is yes exactly if some group was ever given a failure or
        an error, or a list of failures, even an empty one. */
    method HasLogs() returns (r: Result<bool, ReadError>)
      ensures r.Success? <==> file.Some?
      ensures r.Success? ==> (r.value <==> exists g :: g in file.value.failures || g in file.value.errors)
    {
      var log := Read();
      if log.Failure? {
        return Failure(log.error);
      }
      assert log.value.failures == map[] <==> log.value.failures.Keys == {};
      assert log.value.errors == map[] <==> log.value.errors.Keys == {};
      r := Success(AnyLogs(log.value));
    }

    /** A missing file is an error; otherwise exactly the groups with names are counted, each with the number of
        its failures and errors. */
    method GetCountByGroup() returns (r: Result<map<TestGroup, nat>, ReadError>)
      ensures r.Success? <==> file.Some?
      ensures r.Success? ==>
                forall g :: var n := |NamesIn(file.value.failures, g)| + |NamesIn(file.value.errors, g)|;
                            (g in r.value <==> n > 0) && (g in r.value ==> r.value[g] == n)
    {
      var log := Read();
      if log.Failure? {
        return Failure(log.error);
      }
      r := Success(CountsOf(log.value));
    }

    method AddFailure(group: TestGroup, name: string) returns (r: Result<Log, ReadError>)
      requires Valid()
      modifies this
      ensures Valid() && Updated(old(file), Op.AddFailure(group, name), file, r)
    {
      r := Read();
      if r.Success? {
        var log := r.value;
        log := log.(failures := Extend(log.failures, group, [name]));
        file := Some(log);
        r := Success(log);
      }
    }

    method AddError(group: TestGroup, name: string) returns (r: Result<Log, ReadError>)
      requires Valid()
      modifies this
      ensures Valid() && Updated(old(file), Op.AddError(group, name), file, r)
    {
      r := Read();
      if r.Success? {
        var log := r.value;
        log := log.(errors := Extend(log.errors, group, [name]));
        file := Some(log);
        r := Success(log);
      }
    }

    method AddFailures(group: TestGroup, names: seq<string>) returns (r: Result<Log, ReadError>)
      requires Valid()
      modifies this
      ensures Valid() && Updated(old(file), Op.AddFailures(group, names), file, r)
    {
      r := Read();
      if r.Success? {
        var log := r.value;
        log := log.(failures := Extend(log.failures, group, names));
        file := Some(log);
        r := Success(log);
      }
    }

    method AddComment(text: string) returns (r: Result<Log, ReadError>)
      requires Valid()
      modifies this
      ensures Valid() && Updated(old(file), Op.AddComment(text), file, r)
    {
      r := Read();
      if r.Success? {
        var log := r.value;
        log := log.(comments := log.comments + [text]);
        file := Some(log);
        r := Success(log);
      }
    }

    method Update(op: Op) returns (r: Result<Log, ReadError>)
      requires Valid()
      modifies this
      ensures Valid() && Updated(old(file), op, file, r)
    {
      match op
      case AddFailure(group, name) => r := AddFailure(group, name);
      case AddError(group, name) => r := AddError(group, name);
      case AddFailures(group, names) => r := AddFailures(group, names);
      case AddComment(text) => r := AddComment(text);
    }
  }

  /** The edit was applied once to the file and its log returned; or the file was missing, and still is. */
  ghost predicate Updated(before: Option<Log>, op: Op, after: Option<Log>, r: Result<Log, ReadError>) {
    if before.Some? then after == Some(Apply(before.value, op)) && r == Success(after.value)
    else after == None && r.Failure?
  }

  /** A method of the class does what a call does in the protocol when nothing interrupts it, whatever the state
      of the other workers: `steps` takes the worker from rest to rest, and both leave the same file. */
  method LoneUpdate(log: ErrorLogFile, s: State<Log, Op>, w: nat, op: Op)
    returns (r: Result<Log, ReadError>, ghost steps: seq<Step<Op>>)
    requires log.Valid() && log.file == s.file
    requires w < |s.phases| == |s.returned| && s.phases[w].Idle? && s.lock.None?
    modifies log
    ensures Run(PROTOCOL, s, steps) == Some(AfterLoneCall(PROTOCOL, s, w, Never, op))
    ensures Run(PROTOCOL, s, steps).value.file == log.file
    ensures Run(PROTOCOL, s, steps).value.returned[w] == s.returned[w] + if r.Success? then [op] else []
  {
    steps := LoneCall(PROTOCOL, s, w, Never, op);
    r := log.Update(op);
  }

  // ---------------------------------------------------------------- what a history leaves in the log

  /** The failed test names of a group that were committed since the file was last created or cleared, in order. */
  function FailedNames(file: Option<Log>, history: seq<Event<Op>>, group: TestGroup): seq<string> {
    if history == [] then (if file.None? then [] else NamesIn(file.value.failures, group))
    else
      var before := FailedNames(file, history[..|history| - 1], group);
      match history[|history| - 1]
      case Committed(_, AddFailure(g, name)) => if g == group then before + [name] else before
      case Committed(_, AddFailures(g, names)) => if g == group then before + names else before
      case Committed(_, _) => before
      case _ => []
  }

  function ErroredNames(file: Option<Log>, history: seq<Event<Op>>, group: TestGroup): seq<string> {
    if history == [] then (if file.None? then [] else NamesIn(file.value.errors, group))
    else
      var before := ErroredNames(file, history[..|history| - 1], group);
      match history[|history| - 1]
      case Committed(_, AddError(g, name)) => if g == group then before + [name] else before
      case Committed(_, _) => before
      case _ => []
  }

  function CommentsMade(file: Option<Log>, history: seq<Event<Op>>): seq<string> {
    if history == [] then (if file.None? then [] else file.value.comments)
    else
      var before := CommentsMade(file, history[..|history| - 1]);
      match history[|history| - 1]
      case Committed(_, AddComment(text)) => before + [text]
      case Committed(_, _) => before
      case _ => []
  }

  /** The comments in the file are those committed since it was last created or cleared, in order. */
  lemma {:induction false} FileHoldsComments(file: Option<Log>, history: seq<Event<Op>>)
    requires Replay(PROTOCOL, file, history).Some?
    ensures Replay(PROTOCOL, file, history).value.comments == CommentsMade(file, history)
  {
    if history != [] {
      var (before, e) := (history[..|history| - 1], history[|history| - 1]);
      if e.Committed? {
        FileHoldsComments(file, before);
        assert Replay(PROTOCOL, file, history).value == Apply(Replay(PROTOCOL, file, before).value, e.op);
      }
    }
  }

  /** A failure or an error, or an empty list of failures, was committed since the last creation or clear. */
  function AnyAdded(file: Option<Log>, history: seq<Event<Op>>): bool {
    if history == [] then file.Some? && AnyLogs(file.value)
    else
      match history[|history| - 1]
      case Committed(_, AddComment(_)) => AnyAdded(file, history[..|history| - 1])
      case Committed(_, _) => true
      case _ => false
  }

  /** The lists in the file are the committed names, in commit order. */
  lemma {:induction false} FileHoldsNames(file: Option<Log>, history: seq<Event<Op>>, group: TestGroup)
    requires Replay(PROTOCOL, file, history).Some?
    ensures var log := Replay(PROTOCOL, file, history).value;
            && NamesIn(log.failures, group) == FailedNames(file, history, group)
            && NamesIn(log.errors, group) == ErroredNames(file, history, group)
            && (AnyLogs(log) <==> AnyAdded(file, history))
  {
    if history != [] {
      var (before, e) := (history[..|history| - 1], history[|history| - 1]);
      if e.Committed? {
        FileHoldsNames(file, before, group);
        var (log0, log) := (Replay(PROTOCOL, file, before).value, Replay(PROTOCOL, file, history).value);
        assert log == Apply(log0, e.op);
        if !e.op.AddComment? {
          assert e.op.group in log.failures || e.op.group in log.errors;
        }
      }
    }
  }

  lemma CountsAreLengths(log: Log, group: TestGroup)
    ensures var n := |NamesIn(log.failures, group)| + |NamesIn(log.errors, group)|;
            && (group in CountsOf(log) <==> n > 0)
            && (group in CountsOf(log) ==> CountsOf(log)[group] == n)
  {
  }

  /** In every interleaving of any number of workers, at every moment, a reader of the existing file counts
      exactly the names committed per group since the last clear, with no zero entries, and sees logs exactly
      if some failure, error or list of failures was committed since then. */
  lemma EveryReadIsCurrent(file: Option<Log>, workers: nat, steps: seq<Step<Op>>, s: State<Log, Op>, group: TestGroup)
    requires Run(PROTOCOL, Start(file, workers), steps) == Some(s)
    requires s.file.Some?
    ensures var n := |FailedNames(file, s.history, group)| + |ErroredNames(file, s.history, group)|;
            && (group in CountsOf(s.file.value) <==> n > 0)
            && (n > 0 ==> CountsOf(s.file.value)[group] == n)
    ensures AnyLogs(s.file.value) <==> AnyAdded(file, s.history)
    ensures s.file.value.comments == CommentsMade(file, s.history)
  {
    NoLostUpdate(PROTOCOL, file, workers, steps, s);
    FileHoldsComments(file, s.history);
    FileHoldsNames(file, s.history, group);
    CountsAreLengths(s.file.value, group);
  }

  /** `has_logs` and the counts disagree exactly when keys were added but every list under them is empty. */
  lemma HasLogsWithoutCounts(log: Log)
    ensures AnyLogs(log) && CountsOf(log) == map[]
       <==> (log.failures != map[] || log.errors != map[])
            && (forall g | g in log.failures :: log.failures[g] == [])
            && (forall g | g in log.errors :: log.errors[g] == [])
  {
    forall g: TestGroup {
      CountsAreLengths(log, g);
    }
    if g :| g in log.failures && log.failures[g] != [] {
      assert g in CountsOf(log);
    } else if g :| g in log.errors && log.errors[g] != [] {
      assert g in CountsOf(log);
    } else {
      assert CountsOf(log).Keys == {};
    }
  }

  /** It does happen: adding an empty list of failures makes `has_logs` true with nothing to count. */
  lemma EmptyListOfFailures()
    ensures var log := Apply(BLANK, AddFailures(Oz, []));
            AnyLogs(log) && CountsOf(log) == map[]
  {
    var log := Apply(BLANK, AddFailures(Oz, []));
    assert log.failures.Keys == {Oz};
    HasLogsWithoutCounts(log);
  }
}
