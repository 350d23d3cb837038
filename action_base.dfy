/**
 * The command-line action framework the package-group actions are built on:
 * parsed options, the required-option lookup, the abstract service replies and
 * the observable trace an action leaves behind (service calls, printed
 * messages, sleeps) together with how it ends.
 */
module ActionBase {

  datatype Option<T> = None | Some(value: T)

  /**
   * Parsed command-line options. A `store` option binds the last string given;
   * an `append` option binds the list of every value given, in input order.
   * A name that is not a key was not given on the command line and has no
   * default, i.e. it is bound to None.
   */
  datatype Options = Options(store: map<string, string>, append: map<string, seq<string>>)

  /** A required option as an action asks for it, tagged with how it is parsed. */
  datatype Wanted = Stored(name: string) | Appended(name: string)

  predicate Given(opts: Options, w: Wanted)
  {
    match w
    case Stored(n) => n in opts.store
    case Appended(n) => n in opts.append
  }

  /** What a remote call did: it returned a value or raised an exception. */
  datatype Reply<T> = Returns(value: T) | Throws(error: string)

  /** A package group record as the repository service returns it. */
  datatype GroupRecord = GroupRecord(
    name: string, id: string,
    mandatory: seq<string>, defaults: seq<string>, optional: seq<string>, conditional: seq<string>)

  /** Status of an asynchronous server-side task. */
  datatype Snapshot = Snapshot(state: string, result: string)

  /** What an asynchronous submission returns. */
  datatype TaskHandle = TaskHandle(id: string, statusPath: string)

  /** Calls on the repository and consumer service clients. */
  datatype Call =
    | PackageGroups(repo: string)
    | CreatePackageGroup(repo: string, group: string, name: string, description: string)
    | DeletePackageGroup(repo: string, group: string)
    | AddPackagesToGroup(repo: string, group: string, names: seq<string>, groupType: string, requirement: Option<string>)
    | DeletePackageFromGroup(repo: string, group: string, package: string, groupType: string, requirement: Option<string>)
    | InstallPackageGroups(consumer: string, groups: string)
    | TaskStatus(path: string)

  /** What the user is shown, as structured values rather than text. */
  datatype Message =
    | NoGroupsInRepo(repo: string)
    | RepoHeader(repo: string)
    | GroupKey(key: string)
    | GroupNotFound(group: string, repo: string)
    | InfoHeader
    | GroupDetails(info: GroupRecord)
    | GroupCreated(group: string, repo: string)
    | GroupDeleteFailed(group: string, repo: string)
    | GroupDeleted(group: string, repo: string)
    | BadGroupType(groupType: string, supported: seq<string>)
    | PackagesAdded(group: string, repo: string, requirement: Option<string>, names: seq<string>)
    | PackageDeleteFailed(package: string, group: string, repo: string)
    | PackageDeleted(package: string, group: string, repo: string)
    | TaskCreated(taskId: string)
    | Progress
    | InstalledOn(result: string, consumer: string)
    | InstallFailed

  datatype Event = Invoke(call: Call) | Say(msg: Message) | Sleep(seconds: nat)

  /**
   * How an action ends: normally; through `system_exit` with a code; aborted
   * for a missing required option; with an exception nobody caught; or, for the
   * task poller only, still waiting when the scripted service has no answer left.
   */
  datatype Outcome = Completed | Exited(code: int) | MissingOption(name: string) | Raised(error: string) | Unanswered

  datatype Run = Run(log: seq<Event>, outcome: Outcome)

  /** The reasons an action stops before doing its work. */
  datatype Abort = Missing(name: string) | SystemExit(code: int, msg: Message)

  datatype Result<T> = Ok(value: T) | Fail(abort: Abort) {
    predicate IsFailure() { Fail? }
    function PropagateFailure<U>(): Result<U> requires Fail? { Fail(abort) }
    function Extract(): T requires Ok? { value }
  }

  /** `os.EX_DATAERR`. */
  const EX_DATAERR: int := 65

  /** The run of an action that stopped before its work: `system_exit` prints its message first. */
  function Aborted(a: Abort): (r: Run)
    ensures NoCalls(r.log) && |r.log| <= 1
    ensures r.outcome != Completed
  {
    match a
    case Missing(n) => Run([], MissingOption(n))
    case SystemExit(code, msg) => Run([Say(msg)], Exited(code))
  }

  predicate NoCalls(log: seq<Event>)
  {
    forall i :: 0 <= i < |log| ==> !log[i].Invoke?
  }

  /** `get_required_option` on a `store` option: its value, or an abort naming it. */
  function Required(opts: Options, name: string): (r: Result<string>)
    ensures r.Ok? <==> Given(opts, Stored(name))
    ensures r.Ok? ==> r.value == opts.store[name]
    ensures r.Fail? ==> r.abort == Missing(name)
  {
    if name in opts.store then Ok(opts.store[name]) else Fail(Missing(name))
  }

  /** `get_required_option` on an `append` option. */
  function RequiredList(opts: Options, name: string): (r: Result<seq<string>>)
    ensures r.Ok? <==> Given(opts, Appended(name))
    ensures r.Ok? ==> r.value == opts.append[name]
    ensures r.Fail? ==> r.abort == Missing(name)
  {
    if name in opts.append then Ok(opts.append[name]) else Fail(Missing(name))
  }

  /** A `store` option read with the default the parser declares for it. */
  function StoredOr(opts: Options, name: string, fallback: string): (v: string)
    ensures name !in opts.store ==> v == fallback
    ensures name in opts.store ==> v == opts.store[name]
  {
    if name in opts.store then opts.store[name] else fallback
  }

  /**
   * The first of the required options, in the order an action asks for them,
   * that was not given: the one its abort names.
   */
  function FirstAbsent(opts: Options, ws: seq<Wanted>): (r: Option<string>)
    ensures r.None? <==> forall i :: 0 <= i < |ws| ==> Given(opts, ws[i])
    ensures r.Some? ==> exists i :: 0 <= i < |ws| && ws[i].name == r.value && !Given(opts, ws[i])
                                    && forall j :: 0 <= j < i ==> Given(opts, ws[j])
  {
    if ws == [] then None
    else if !Given(opts, ws[0]) then Some(ws[0].name)
    else
      var r := FirstAbsent(opts, ws[1..]);
      assert r.Some? ==> exists i :: 0 < i < |ws| && ws[i].name == r.value && !Given(opts, ws[i])
                                    && forall j :: 0 <= j < i ==> Given(opts, ws[j]) by {
        if r.Some? {
          var i' :| 0 <= i' < |ws| - 1 && ws[1..][i'].name == r.value && !Given(opts, ws[1..][i'])
                    && forall j :: 0 <= j < i' ==> Given(opts, ws[1..][j]);
          assert forall j :: 0 <= j < i' + 1 ==> Given(opts, ws[j]) by {
            forall j | 0 <= j < i' + 1 ensures Given(opts, ws[j]) {
              if j > 0 { assert ws[j] == ws[1..][j - 1]; }
            }
          }
        }
      }
      r
  }

  lemma FirstAbsentOfTwo(opts: Options, a: Wanted, b: Wanted)
    ensures FirstAbsent(opts, [a, b]) ==
      if !Given(opts, a) then Some(a.name) else if !Given(opts, b) then Some(b.name) else None
  {
    assert [a, b][1..] == [b];
    assert [b][1..] == [];
  }

  lemma FirstAbsentOfThree(opts: Options, a: Wanted, b: Wanted, c: Wanted)
    ensures FirstAbsent(opts, [a, b, c]) ==
      if !Given(opts, a) then Some(a.name) else if !Given(opts, b) then Some(b.name)
      else if !Given(opts, c) then Some(c.name) else None
  {
    assert [a, b, c][1..] == [b, c];
    FirstAbsentOfTwo(opts, b, c);
  }

  /** One `-n VALUE` of an `append` option: the value goes at the end of the list. */
  function Append(opts: Options, name: string, v: string): (r: Options)
    ensures r.store == opts.store
    ensures r.append.Keys == opts.append.Keys + {name}
    ensures forall k :: k in opts.append && k != name ==> r.append[k] == opts.append[k]
  {
    var before := if name in opts.append then opts.append[name] else [];
    opts.(append := opts.append[name := before + [v]])
  }

  /** Every value of an `append` option, given on the command line in the order of `vs`. */
  function Gather(opts: Options, name: string, vs: seq<string>): (r: Options)
    decreases |vs|
  {
    if vs == [] then opts else Gather(Append(opts, name, vs[0]), name, vs[1..])
  }

  lemma {:induction false} GatherExtends(opts: Options, name: string, vs: seq<string>)
    requires name in opts.append
    ensures Gather(opts, name, vs).append.Keys == opts.append.Keys
    ensures Gather(opts, name, vs).append[name] == opts.append[name] + vs
    ensures Gather(opts, name, vs).store == opts.store
    ensures forall k :: k in opts.append && k != name ==> Gather(opts, name, vs).append[k] == opts.append[k]
    decreases |vs|
  {
    if vs != [] {
      var next := Append(opts, name, vs[0]);
      GatherExtends(next, name, vs[1..]);
      assert opts.append[name] + [vs[0]] + vs[1..] == opts.append[name] + vs;
    }
  }

  /**
   * An `append` option binds exactly the values given, in input order and with
   * their multiplicity; given no value at all it stays unbound (None).
   */
  lemma {:induction false} GatherKeepsOrder(opts: Options, name: string, vs: seq<string>)
    requires name !in opts.append
    ensures Gather(opts, name, vs).store == opts.store
    ensures name in Gather(opts, name, vs).append <==> vs != []
    ensures vs != [] ==> Gather(opts, name, vs).append[name] == vs
  {
    if vs != [] {
      var next := Append(opts, name, vs[0]);
      assert next.append[name] == [vs[0]];
      GatherExtends(next, name, vs[1..]);
      assert [vs[0]] + vs[1..] == vs;
      GatherStore(next, name, vs[1..]);
    }
  }

  lemma {:induction false} GatherStore(opts: Options, name: string, vs: seq<string>)
    ensures Gather(opts, name, vs).store == opts.store
    decreases |vs|
  {
    if vs != [] {
      GatherStore(Append(opts, name, vs[0]), name, vs[1..]);
    }
  }
}
