/**
 * `Install.run`: submit a package group install to a consumer, then poll the
 * task's status until it reaches a terminal state, writing a progress dot and
 * sleeping before every fetch. The status service is a script: the i-th fetch
 * gets the i-th reply.
 */
module PackageGroupInstall {
  import opened ActionBase

  /** The states after which the loop stops polling. */
  const TerminalStates: set<string> := {"finished", "error", "canceled", "timed_out"}

  /** Seconds slept before each status fetch. */
  const PollSeconds: nat := 2

  predicate Terminal(state: string)
  {
    state in TerminalStates
  }

  /** A status reply after which no further fetch happens: a terminal snapshot, or an exception. */
  predicate EndsPolling(r: Reply<Snapshot>)
  {
    r.Throws? || Terminal(r.value.state)
  }

  /** The index of the first reply that ends polling, or the length of the script if none does. */
  function FirstStop(script: seq<Reply<Snapshot>>): (k: nat)
    ensures k <= |script|
    ensures k < |script| ==> EndsPolling(script[k])
    ensures forall j :: 0 <= j < k ==> !EndsPolling(script[j])
  {
    if script == [] then 0
    else if EndsPolling(script[0]) then 0
    else 1 + FirstStop(script[1..])
  }

  /** One pass of the loop: a dot, a sleep, a fetch from the submission's status path. */
  function Round(path: string): seq<Event>
  {
    [Say(Progress), Sleep(PollSeconds), Invoke(TaskStatus(path))]
  }

  function Rounds(n: nat, path: string): seq<Event>
  {
    if n == 0 then [] else Rounds(n - 1, path) + Round(path)
  }

  /** The required options in the order `Install.run` asks for them: `consumerid`, then `id`. */
  function InstallRequest(opts: Options): Result<(string, string)>
  {
    var consumer :- Required(opts, "consumerid");
    var groups :- Required(opts, "id");
    Ok((consumer, groups))
  }

  /** What is printed once polling stops at snapshot `s`. */
  function Verdict(s: Snapshot, consumer: string): Message
  {
    if s.state == "finished" then InstalledOn(s.result, consumer) else InstallFailed
  }

  /**
   * The whole run of `Install.run` in closed form: the loop makes exactly
   * FirstStop(script) + 1 passes when some reply ends polling.
   */
  function InstallSpec(opts: Options, submitted: Reply<TaskHandle>, script: seq<Reply<Snapshot>>): Run
  {
    match InstallRequest(opts)
    case Fail(a) => Aborted(a)
    case Ok((consumer, groups)) =>
      var call := Invoke(InstallPackageGroups(consumer, groups));
      match submitted
      case Throws(e) => Run([call], Raised(e))
      case Returns(task) =>
        var start := [call, Say(TaskCreated(task.id))];
        var k := FirstStop(script);
        if k == |script| then
          Run(start + Rounds(k, task.statusPath), Unanswered)
        else
          match script[k]
          case Throws(e) => Run(start + Rounds(k + 1, task.statusPath), Raised(e))
          case Returns(s) => Run(start + Rounds(k + 1, task.statusPath) + [Say(Verdict(s, consumer))], Completed)
  }

  /** InstallSpec once the options were found and the submission returned a handle. */
  lemma InstallSpecSubmitted(opts: Options, task: TaskHandle, script: seq<Reply<Snapshot>>, consumer: string, groups: string)
    requires InstallRequest(opts) == Ok((consumer, groups))
    ensures var start := [Invoke(InstallPackageGroups(consumer, groups)), Say(TaskCreated(task.id))];
      var k := FirstStop(script);
      InstallSpec(opts, Returns(task), script) ==
        if k == |script| then Run(start + Rounds(k, task.statusPath), Unanswered)
        else if script[k].Throws? then Run(start + Rounds(k + 1, task.statusPath), Raised(script[k].error))
        else Run(start + Rounds(k + 1, task.statusPath) + [Say(Verdict(script[k].value, consumer))], Completed)
  {
  }

  /**
   * Like every other action, Install aborts on the first of its required
   * options (`consumerid`, then `id`) that is missing, before any call; with
   * both given, its first event is the submission.
   */
  lemma InstallAbortsOnFirstMissingOption(opts: Options, submitted: Reply<TaskHandle>, script: seq<Reply<Snapshot>>)
    ensures var missing := FirstAbsent(opts, [Stored("consumerid"), Stored("id")]);
      var run := InstallSpec(opts, submitted, script);
      (missing.Some? ==> run == Run([], MissingOption(missing.value))) &&
      (missing.None? ==> |run.log| > 0 && run.log[0] == Invoke(InstallPackageGroups(opts.store["consumerid"], opts.store["id"])))
  {
    FirstAbsentOfTwo(opts, Stored("consumerid"), Stored("id"));
  }

  /** The poll loop of `Install.run`, over a scripted status service. */
  method Install(opts: Options, submitted: Reply<TaskHandle>, script: seq<Reply<Snapshot>>) returns (run: Run)
    ensures run == InstallSpec(opts, submitted, script)
  {
    var request := InstallRequest(opts);
    if request.Fail? {
      return Aborted(request.abort);
    }
    var (consumer, groups) := request.value;
    var log := [Invoke(InstallPackageGroups(consumer, groups))];
    if submitted.Throws? {
      return Run(log, Raised(submitted.error));
    }
    var task := submitted.value;
    InstallSpecSubmitted(opts, task, script, consumer, groups);
    log := log + [Say(TaskCreated(task.id))];
    ghost var start := log;
    var state: Option<string> := None;
    var status: Option<Snapshot> := None;
    var spath := task.statusPath;
    var fetched: nat := 0;
    ghost var stop := FirstStop(script);
    while !(state.Some? && Terminal(state.value))
      invariant fetched <= |script|
      invariant log == start + Rounds(fetched, spath)
      invariant state.None? <==> fetched == 0
      invariant fetched > 0 ==> status.Some? && script[fetched - 1] == Returns(status.value)
                                && state == Some(status.value.state)
      invariant if state.Some? && Terminal(state.value) then fetched == stop + 1 else fetched <= stop
      decreases |script| - fetched
    {
      if fetched == |script| {
        assert stop == |script|;
        return Run(log, Unanswered);
      }
      ghost var before := log;
      log := log + [Say(Progress)];
      log := log + [Sleep(PollSeconds)];
      log := log + [Invoke(TaskStatus(spath))];
      assert log == before + Round(spath);
      assert log == start + Rounds(fetched + 1, spath);
      match script[fetched] {
        case Throws(e) =>
          assert stop == fetched;
          return Run(log, Raised(e));
        case Returns(snapshot) =>
          status := Some(snapshot);
          state := Some(snapshot.state);
      }
      fetched := fetched + 1;
    }
    assert stop == fetched - 1 && script[stop] == Returns(status.value);
    if state.value == "finished" {
      log := log + [Say(InstalledOn(status.value.result, consumer))];
    } else {
      log := log + [Say(InstallFailed)];
    }
    run := Run(log, Completed);
  }

  // ---------------------------------------------------------------------------
  // Properties of the poll loop

  lemma {:induction false} RoundsLength(n: nat, path: string)
    ensures |Rounds(n, path)| == 3 * n
    ensures n > 0 ==> Rounds(n, path)[3 * n - 1] == Invoke(TaskStatus(path))
  {
    if n > 0 {
      RoundsLength(n - 1, path);
    }
  }

  /** Pass j of the loop is, in this order, a dot, a sleep and a fetch. */
  lemma {:induction false} RoundsShape(n: nat, path: string)
    ensures |Rounds(n, path)| == 3 * n
    ensures forall j :: 0 <= j < n ==>
      Rounds(n, path)[3 * j] == Say(Progress) &&
      Rounds(n, path)[3 * j + 1] == Sleep(PollSeconds) &&
      Rounds(n, path)[3 * j + 2] == Invoke(TaskStatus(path))
  {
    if n > 0 {
      RoundsShape(n - 1, path);
    }
  }

  /** n passes hold n dots, n sleeps and n fetches. */
  lemma {:induction false} RoundsCount(n: nat, path: string)
    ensures multiset(Rounds(n, path))[Say(Progress)] == n
    ensures multiset(Rounds(n, path))[Sleep(PollSeconds)] == n
    ensures multiset(Rounds(n, path))[Invoke(TaskStatus(path))] == n
  {
    if n > 0 {
      RoundsCount(n - 1, path);
    }
  }

  lemma FirstStopAt(script: seq<Reply<Snapshot>>, k: nat)
    requires k < |script| && EndsPolling(script[k])
    requires forall j :: 0 <= j < k ==> !EndsPolling(script[j])
    ensures FirstStop(script) == k
  {
  }

  /** Inside the loop's events, a fetch only ever comes right after a dot and a sleep. */
  lemma {:induction false} RoundsFetchPreceded(n: nat, path: string)
    ensures forall j :: 0 <= j < |Rounds(n, path)| && Rounds(n, path)[j].Invoke? ==>
      2 <= j && Rounds(n, path)[j] == Invoke(TaskStatus(path)) &&
      Rounds(n, path)[j - 2] == Say(Progress) && Rounds(n, path)[j - 1] == Sleep(PollSeconds)
  {
    if n > 0 {
      RoundsFetchPreceded(n - 1, path);
      RoundsLength(n - 1, path);
    }
  }

  /** The run of `Install.run` when the k-th reply is the first terminal snapshot. */
  lemma InstallRunAt(opts: Options, task: TaskHandle, script: seq<Reply<Snapshot>>, k: nat)
    requires Given(opts, Stored("consumerid")) && Given(opts, Stored("id"))
    requires k < |script| && script[k].Returns? && Terminal(script[k].value.state)
    requires forall j :: 0 <= j < k ==> script[j].Returns? && !Terminal(script[j].value.state)
    ensures InstallSpec(opts, Returns(task), script) ==
      Run([Invoke(InstallPackageGroups(opts.store["consumerid"], opts.store["id"])), Say(TaskCreated(task.id))]
          + Rounds(k + 1, task.statusPath)
          + [Say(Verdict(script[k].value, opts.store["consumerid"]))], Completed)
  {
    FirstStopAt(script, k);
  }

  /** A run made of a start, n passes and one last message (not a dot, sleep or call) has n more dots, sleeps and fetches than its start. */
  lemma PollLogCounts(start: seq<Event>, n: nat, path: string, last: Event)
    requires !last.Invoke? && !last.Sleep? && last != Say(Progress)
    ensures var log := start + Rounds(n, path) + [last];
      multiset(log)[Invoke(TaskStatus(path))] == multiset(start)[Invoke(TaskStatus(path))] + n &&
      multiset(log)[Say(Progress)] == multiset(start)[Say(Progress)] + n &&
      multiset(log)[Sleep(PollSeconds)] == multiset(start)[Sleep(PollSeconds)] + n
  {
    var rounds := Rounds(n, path);
    RoundsCount(n, path);
    assert multiset(start + rounds + [last]) == multiset(start) + multiset(rounds) + multiset([last]);
  }

  /** In such a run the last fetch is just before the last message, and every fetch follows a dot and a sleep. */
  lemma PollLogOrder(start: seq<Event>, n: nat, path: string, last: Event)
    requires |start| == 2 && !last.Invoke?
    ensures var log := start + Rounds(n, path) + [last];
      |log| == 3 * n + 3 &&
      (n > 0 ==> log[|log| - 2] == Invoke(TaskStatus(path))) &&
      (forall j :: 2 <= j < |log| && log[j].Invoke? ==>
         log[j] == Invoke(TaskStatus(path)) && log[j - 2] == Say(Progress) && log[j - 1] == Sleep(PollSeconds))
  {
    var rounds := Rounds(n, path);
    var log := start + rounds + [last];
    RoundsLength(n, path);
    RoundsFetchPreceded(n, path);
    forall j | 2 <= j < |log| && log[j].Invoke?
      ensures log[j] == Invoke(TaskStatus(path)) && log[j - 2] == Say(Progress) && log[j - 1] == Sleep(PollSeconds)
    {
      assert log[j] == rounds[j - 2];
    }
  }

  /**
   * When the k-th reply is the first terminal snapshot, the loop fetches
   * exactly k + 1 times from the submission's status path, each fetch preceded
   * by exactly one dot and one sleep, and never fetches after it; the task id
   * is printed before any polling.
   */
  lemma InstallPollsUntilFirstTerminal(opts: Options, task: TaskHandle, script: seq<Reply<Snapshot>>, k: nat)
    requires Given(opts, Stored("consumerid")) && Given(opts, Stored("id"))
    requires k < |script| && script[k].Returns? && Terminal(script[k].value.state)
    requires forall j :: 0 <= j < k ==> script[j].Returns? && !Terminal(script[j].value.state)
    ensures var run := InstallSpec(opts, Returns(task), script);
      var fetch := Invoke(TaskStatus(task.statusPath));
      run.outcome == Completed &&
      |run.log| == 3 * (k + 1) + 3 &&
      run.log[0] == Invoke(InstallPackageGroups(opts.store["consumerid"], opts.store["id"])) &&
      run.log[1] == Say(TaskCreated(task.id)) &&
      multiset(run.log)[fetch] == k + 1 &&
      multiset(run.log)[Say(Progress)] == k + 1 &&
      multiset(run.log)[Sleep(PollSeconds)] == k + 1 &&
      run.log[|run.log| - 2] == fetch &&
      (forall j :: 2 <= j < |run.log| && run.log[j].Invoke? ==>
         run.log[j] == fetch && run.log[j - 2] == Say(Progress) && run.log[j - 1] == Sleep(PollSeconds))
  {
    InstallRunAt(opts, task, script, k);
    var start := [Invoke(InstallPackageGroups(opts.store["consumerid"], opts.store["id"])), Say(TaskCreated(task.id))];
    var last := Say(Verdict(script[k].value, opts.store["consumerid"]));
    assert InstallSpec(opts, Returns(task), script).log == start + Rounds(k + 1, task.statusPath) + [last];
    PollLogCounts(start, k + 1, task.statusPath, last);
    PollLogOrder(start, k + 1, task.statusPath, last);
  }

  /**
   * The install is reported as done on the consumer exactly when the last
   * fetched state is "finished", with that snapshot's result; "error",
   * "canceled" and "timed_out" all print the same failure message.
   */
  lemma InstallReportsSuccessIffFinished(opts: Options, task: TaskHandle, script: seq<Reply<Snapshot>>)
    requires Given(opts, Stored("consumerid")) && Given(opts, Stored("id"))
    requires FirstStop(script) < |script| && script[FirstStop(script)].Returns?
    ensures var run := InstallSpec(opts, Returns(task), script);
      var final := script[FirstStop(script)].value;
      run.outcome == Completed && |run.log| > 0 &&
      (run.log[|run.log| - 1] == Say(InstalledOn(final.result, opts.store["consumerid"])) <==> final.state == "finished") &&
      (run.log[|run.log| - 1] == Say(InstallFailed) <==> final.state in {"error", "canceled", "timed_out"})
  {
  }

  /**
   * `Install.run` registers `--pkggroupid` but asks for the required option
   * `id`, which its parser never binds: with only its own options given it
   * stops at that lookup and never submits, whatever groups were named.
   */
  lemma InstallAsksForIdNotPkggroupid(consumer: string, groups: seq<string>,
                                      submitted: Reply<TaskHandle>, script: seq<Reply<Snapshot>>)
    ensures var opts := Options(map["consumerid" := consumer], map["pkggroupid" := groups]);
      InstallSpec(opts, submitted, script) == Run([], MissingOption("id"))
  {
  }

  /**
   * A consumer that submits and gets `running` then `finished` with "OK" is
   * told "OK" was installed. The scenario binds `id` directly, which Install's
   * own parser never does (see InstallAsksForIdNotPkggroupid).
   */
  lemma InstallScenario()
    ensures var opts := Options(map["consumerid" := "consumer-123", "id" := "group-a"], map[]);
      var script := [Returns(Snapshot("running", "")), Returns(Snapshot("finished", "OK"))];
      var run := InstallSpec(opts, Returns(TaskHandle("T1", "/status/T1")), script);
      run.outcome == Completed &&
      run.log == [Invoke(InstallPackageGroups("consumer-123", "group-a")), Say(TaskCreated("T1"))]
                 + Round("/status/T1") + Round("/status/T1")
                 + [Say(InstalledOn("OK", "consumer-123"))]
  {
  }
}
