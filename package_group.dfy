/**
 * The synchronous package-group actions: List, Info, Create, Delete,
 * AddPackage and DeletePackage. Each is a function from the parsed options and
 * what the repository service replied to the run the action leaves behind.
 */
module PackageGroup {
  import opened ActionBase
  import opened Lexicographic

  /** The membership roles AddPackage accepts, in the order its error message lists them. */
  const SupportedTypes: seq<string> := ["mandatory", "optional", "default", "conditional"]

  /** `-t/--type`, whose parser default is "default". */
  function GroupTypeOf(opts: Options): string
  {
    StoredOr(opts, "grouptype", "default")
  }

  /** The runs in which at most the first event is a service call. */
  predicate AtMostOneCallFirst(log: seq<Event>)
  {
    forall i :: 0 < i < |log| ==> !log[i].Invoke?
  }

  // ---------------------------------------------------------------------------
  // Printed group keys

  /** One printed line per key, in the given order. */
  function KeyLines(ks: seq<string>): seq<Event>
  {
    if ks == [] then [] else [Say(GroupKey(ks[0]))] + KeyLines(ks[1..])
  }

  /** The group keys a run printed, in the order printed. */
  function PrintedKeys(log: seq<Event>): seq<string>
  {
    if log == [] then [] else KeyOf(log[0]) + PrintedKeys(log[1..])
  }

  function KeyOf(e: Event): seq<string>
  {
    if e.Say? && e.msg.GroupKey? then [e.msg.key] else []
  }

  lemma {:induction false} PrintedKeysAppend(a: seq<Event>, b: seq<Event>)
    ensures PrintedKeys(a + b) == PrintedKeys(a) + PrintedKeys(b)
  {
    if a == [] {
      assert a + b == b;
    } else {
      assert (a + b)[0] == a[0];
      assert (a + b)[1..] == a[1..] + b;
      PrintedKeysAppend(a[1..], b);
      calc {
        PrintedKeys(a + b);
        KeyOf(a[0]) + PrintedKeys(a[1..] + b);
        KeyOf(a[0]) + (PrintedKeys(a[1..]) + PrintedKeys(b));
        (KeyOf(a[0]) + PrintedKeys(a[1..])) + PrintedKeys(b);
      }
    }
  }

  lemma {:induction false} PrintedKeyLines(ks: seq<string>)
    ensures PrintedKeys(KeyLines(ks)) == ks
  {
    if ks != [] {
      PrintedKeysAppend([Say(GroupKey(ks[0]))], KeyLines(ks[1..]));
      PrintedKeyLines(ks[1..]);
    }
  }

  // ---------------------------------------------------------------------------
  // List

  /**
   * `List.run`: an empty mapping ends the action with EX_DATAERR and prints no
   * key; otherwise a header and then the keys in the order `sorted` gives.
   */
  function List(opts: Options, groups: Reply<map<string, GroupRecord>>): (run: Run)
    ensures !Given(opts, Stored("repoid")) ==> run == Run([], MissingOption("repoid"))
    ensures Given(opts, Stored("repoid")) ==>
      |run.log| > 0 && run.log[0] == Invoke(PackageGroups(opts.store["repoid"])) && AtMostOneCallFirst(run.log)
    ensures Given(opts, Stored("repoid")) && groups.Throws? ==> run.outcome == Raised(groups.error) && |run.log| == 1
    ensures Given(opts, Stored("repoid")) && groups.Returns? && |groups.value| == 0 ==>
      run.outcome == Exited(EX_DATAERR) && run.log == [run.log[0], Say(NoGroupsInRepo(opts.store["repoid"]))]
    ensures Given(opts, Stored("repoid")) && groups.Returns? && |groups.value| != 0 ==>
      run.outcome == Completed &&
      run.log == [run.log[0], Say(RepoHeader(opts.store["repoid"]))] + KeyLines(Sorted(groups.value.Keys))
  {
    match Required(opts, "repoid")
    case Fail(a) => Aborted(a)
    case Ok(repo) =>
      var call := Invoke(PackageGroups(repo));
      match groups
      case Throws(e) => Run([call], Raised(e))
      case Returns(found) =>
        if |found| == 0 then
          Run([call, Say(NoGroupsInRepo(repo))], Exited(EX_DATAERR))
        else
          Run(Listing(call, repo, Sorted(found.Keys)), Completed)
  }

  /** The call, the header and one line per key: no call after the first event. */
  function Listing(call: Event, repo: string, keys: seq<string>): (log: seq<Event>)
    ensures log == [call, Say(RepoHeader(repo))] + KeyLines(keys)
    ensures AtMostOneCallFirst(log)
  {
    KeyLinesSayOnly(keys);
    [call, Say(RepoHeader(repo))] + KeyLines(keys)
  }

  /** List prints every group key exactly once, in ascending order, and nothing when it exits. */
  lemma ListPrintsEachKeyOnceAscending(opts: Options, groups: Reply<map<string, GroupRecord>>)
    requires Given(opts, Stored("repoid")) && groups.Returns?
    ensures var printed := PrintedKeys(List(opts, groups).log);
      Ascending(printed) && |printed| == |groups.value| &&
      (forall k :: k in printed <==> k in groups.value)
  {
    var run := List(opts, groups);
    var repo := opts.store["repoid"];
    if |groups.value| == 0 {
      assert run.log == [Invoke(PackageGroups(repo)), Say(NoGroupsInRepo(repo))];
      NoKeysPrinted(Invoke(PackageGroups(repo)), Say(NoGroupsInRepo(repo)));
    } else {
      var keys := Sorted(groups.value.Keys);
      var head := [Invoke(PackageGroups(repo)), Say(RepoHeader(repo))];
      assert run.log == head + KeyLines(keys);
      PrintedKeysAppend(head, KeyLines(keys));
      PrintedKeyLines(keys);
      NoKeysPrinted(Invoke(PackageGroups(repo)), Say(RepoHeader(repo)));
      assert PrintedKeys(run.log) == keys;
    }
  }

  lemma NoKeysPrinted(e0: Event, e1: Event)
    requires KeyOf(e0) == [] && KeyOf(e1) == []
    ensures PrintedKeys([e0, e1]) == []
  {
    assert [e0, e1][1..] == [e1];
    assert [e1][1..] == [];
    assert PrintedKeys([e1]) == KeyOf(e1) + PrintedKeys([]);
    assert PrintedKeys([e0, e1]) == KeyOf(e0) + PrintedKeys([e1]);
  }

  lemma {:induction false} KeyLinesSayOnly(ks: seq<string>)
    ensures forall i :: 0 <= i < |KeyLines(ks)| ==> KeyLines(ks)[i].Say?
  {
    if ks != [] {
      KeyLinesSayOnly(ks[1..]);
    }
  }

  // ---------------------------------------------------------------------------
  // Info

  /**
   * `Info.run`: asks for `id` then `repoid`; a group id that is not a key of
   * the repository's groups ends the action with EX_DATAERR before anything
   * about a group is printed.
   */
  function Info(opts: Options, groups: Reply<map<string, GroupRecord>>): (run: Run)
    ensures FirstAbsent(opts, [Stored("id"), Stored("repoid")]).Some? ==>
      run == Run([], MissingOption(FirstAbsent(opts, [Stored("id"), Stored("repoid")]).value))
    ensures Given(opts, Stored("id")) && Given(opts, Stored("repoid")) ==>
      |run.log| > 0 && run.log[0] == Invoke(PackageGroups(opts.store["repoid"])) && AtMostOneCallFirst(run.log)
    ensures Given(opts, Stored("id")) && Given(opts, Stored("repoid")) && groups.Throws? ==>
      run == Run([Invoke(PackageGroups(opts.store["repoid"]))], Raised(groups.error))
    ensures Given(opts, Stored("id")) && Given(opts, Stored("repoid")) && groups.Returns? ==>
      (run.outcome == Exited(EX_DATAERR) <==> opts.store["id"] !in groups.value) &&
      (run.outcome == Exited(EX_DATAERR) ==>
         run.log[1..] == [Say(GroupNotFound(opts.store["id"], opts.store["repoid"]))]) &&
      (run.outcome != Exited(EX_DATAERR) ==>
         run.outcome == Completed && run.log[1..] == [Say(InfoHeader), Say(GroupDetails(groups.value[opts.store["id"]]))])
  {
    FirstAbsentOfTwo(opts, Stored("id"), Stored("repoid"));
    match InfoRequest(opts)
    case Fail(a) => Aborted(a)
    case Ok(req) =>
      var (group, repo) := req;
      var call := Invoke(PackageGroups(repo));
      match groups
      case Throws(e) => Run([call], Raised(e))
      case Returns(found) =>
        if group !in found then
          Run([call, Say(GroupNotFound(group, repo))], Exited(EX_DATAERR))
        else
          Run([call, Say(InfoHeader), Say(GroupDetails(found[group]))], Completed)
  }

  function InfoRequest(opts: Options): (r: Result<(string, string)>)
  {
    var group :- Required(opts, "id");
    var repo :- Required(opts, "repoid");
    Ok((group, repo))
  }

  // ---------------------------------------------------------------------------
  // Create

  /**
   * `Create.run`: asks for `repoid`, `id` and `name`; the description defaults
   * to the empty string. A service failure is not caught.
   */
  function Create(opts: Options, reply: Reply<()>): (run: Run)
    ensures FirstAbsent(opts, [Stored("repoid"), Stored("id"), Stored("name")]).Some? ==>
      run == Run([], MissingOption(FirstAbsent(opts, [Stored("repoid"), Stored("id"), Stored("name")]).value))
    ensures Given(opts, Stored("repoid")) && Given(opts, Stored("id")) && Given(opts, Stored("name")) ==>
      |run.log| > 0 && AtMostOneCallFirst(run.log) &&
      run.log[0] == Invoke(CreatePackageGroup(opts.store["repoid"], opts.store["id"], opts.store["name"],
                                       if "description" in opts.store then opts.store["description"] else "")) &&
      (run.outcome == Completed <==> reply.Returns?) &&
      (reply.Throws? ==> run.outcome == Raised(reply.error) && |run.log| == 1) &&
      (reply.Returns? ==> run.log[1..] == [Say(GroupCreated(opts.store["id"], opts.store["repoid"]))])
  {
    FirstAbsentOfThree(opts, Stored("repoid"), Stored("id"), Stored("name"));
    match CreateRequest(opts)
    case Fail(a) => Aborted(a)
    case Ok(c) =>
      match reply
      case Throws(e) => Run([Invoke(c)], Raised(e))
      case Returns(_) => Run([Invoke(c), Say(GroupCreated(c.group, c.repo))], Completed)
  }

  function CreateRequest(opts: Options): (r: Result<Call>)
  {
    var repo :- Required(opts, "repoid");
    var group :- Required(opts, "id");
    var name :- Required(opts, "name");
    Ok(CreatePackageGroup(repo, group, name, StoredOr(opts, "description", "")))
  }

  // ---------------------------------------------------------------------------
  // Delete

  /**
   * `Delete.run`: any exception from the service is caught; exactly one of the
   * two messages is printed and the action always completes.
   */
  function Delete(opts: Options, reply: Reply<()>): (run: Run)
    ensures FirstAbsent(opts, [Stored("repoid"), Stored("id")]).Some? ==>
      run == Run([], MissingOption(FirstAbsent(opts, [Stored("repoid"), Stored("id")]).value))
    ensures Given(opts, Stored("repoid")) && Given(opts, Stored("id")) ==>
      var (repo, group) := (opts.store["repoid"], opts.store["id"]);
      run.outcome == Completed && |run.log| == 2 &&
      run.log[0] == Invoke(DeletePackageGroup(repo, group)) && run.log[1].Say? &&
      (run.log[1].msg == GroupDeleteFailed(group, repo) <==> reply.Throws?) &&
      (run.log[1].msg == GroupDeleted(group, repo) <==> reply.Returns?)
  {
    FirstAbsentOfTwo(opts, Stored("repoid"), Stored("id"));
    match DeleteRequest(opts)
    case Fail(a) => Aborted(a)
    case Ok(c) =>
      var said := match reply
        case Throws(_) => GroupDeleteFailed(c.group, c.repo)
        case Returns(_) => GroupDeleted(c.group, c.repo);
      Run([Invoke(c), Say(said)], Completed)
  }

  function DeleteRequest(opts: Options): (r: Result<Call>)
  {
    var repo :- Required(opts, "repoid");
    var group :- Required(opts, "id");
    Ok(DeletePackageGroup(repo, group))
  }

  // ---------------------------------------------------------------------------
  // AddPackage

  /** `requires` is asked for only for a conditional group type; otherwise it is None. */
  function RequirementFor(opts: Options, groupType: string): (r: Result<Option<string>>)
    ensures groupType != "conditional" ==> r == Ok(None)
    ensures groupType == "conditional" ==>
      (r.Ok? <==> Given(opts, Stored("requires"))) &&
      (r.Ok? ==> r.value == Some(opts.store["requires"])) &&
      (r.Fail? ==> r.abort == Missing("requires"))
  {
    if groupType == "conditional" then
      var requirement :- Required(opts, "requires");
      Ok(Some(requirement))
    else Ok(None)
  }

  /** The validation and argument shaping of `AddPackage.run`, up to the service call. */
  function AddPackageRequest(opts: Options): (r: Result<Call>)
    ensures FirstAbsent(opts, [Stored("repoid"), Appended("name"), Stored("id")]).Some? ==>
      r == Fail(Missing(FirstAbsent(opts, [Stored("repoid"), Appended("name"), Stored("id")]).value))
    ensures Given(opts, Stored("repoid")) && Given(opts, Appended("name")) && Given(opts, Stored("id")) ==>
      (GroupTypeOf(opts) !in SupportedTypes <==> r.Fail? && r.abort.SystemExit?) &&
      (GroupTypeOf(opts) !in SupportedTypes ==> r == Fail(SystemExit(1, BadGroupType(GroupTypeOf(opts), SupportedTypes)))) &&
      (GroupTypeOf(opts) in SupportedTypes ==>
        (r.Fail? <==> GroupTypeOf(opts) == "conditional" && !Given(opts, Stored("requires"))) &&
        (r.Fail? ==> r.abort == Missing("requires")))
    ensures ("grouptype" !in opts.store &&
             Given(opts, Stored("repoid")) && Given(opts, Appended("name")) && Given(opts, Stored("id"))) ==>
      r.Ok? && r.value.AddPackagesToGroup? && r.value.groupType == "default" && r.value.requirement.None?
    ensures r.Ok? ==>
      Given(opts, Stored("repoid")) && Given(opts, Appended("name")) && Given(opts, Stored("id")) &&
      r.value.AddPackagesToGroup? &&
      r.value.repo == opts.store["repoid"] && r.value.group == opts.store["id"] &&
      r.value.names == opts.append["name"] &&
      r.value.groupType == GroupTypeOf(opts) && r.value.groupType in SupportedTypes &&
      (r.value.requirement.Some? <==> r.value.groupType == "conditional") &&
      (r.value.requirement.Some? ==> r.value.requirement.value == opts.store["requires"])
  {
    FirstAbsentOfThree(opts, Stored("repoid"), Appended("name"), Stored("id"));
    var repo :- Required(opts, "repoid");
    var names :- RequiredList(opts, "name");
    var group :- Required(opts, "id");
    var groupType := GroupTypeOf(opts);
    if groupType !in SupportedTypes then
      Fail(SystemExit(1, BadGroupType(groupType, SupportedTypes)))
    else
      var requirement :- RequirementFor(opts, groupType);
      Ok(AddPackagesToGroup(repo, group, names, groupType, requirement))
  }

  /**
   * `AddPackage.run`: the service is called only once every check has passed,
   * with the request shaped by AddPackageRequest; its failure is not caught.
   */
  function AddPackage(opts: Options, reply: Reply<()>): (run: Run)
    ensures AtMostOneCallFirst(run.log)
    ensures (|run.log| > 0 && run.log[0].Invoke?) <==> AddPackageRequest(opts).Ok?
    ensures AddPackageRequest(opts).Fail? ==> run == Aborted(AddPackageRequest(opts).abort)
    ensures AddPackageRequest(opts).Ok? ==>
      var c := AddPackageRequest(opts).value;
      run.log[0] == Invoke(c) &&
      (reply.Throws? ==> run == Run([Invoke(c)], Raised(reply.error))) &&
      (reply.Returns? ==> run == Run([Invoke(c), Say(PackagesAdded(c.group, c.repo, c.requirement, c.names))], Completed))
  {
    match AddPackageRequest(opts)
    case Fail(a) => Aborted(a)
    case Ok(c) =>
      match reply
      case Throws(e) => Run([Invoke(c)], Raised(e))
      case Returns(_) => Run([Invoke(c), Say(PackagesAdded(c.group, c.repo, c.requirement, c.names))], Completed)
  }

  /**
   * The names given as `-n a -n b -n a` reach the service as [a, b, a]:
   * neither reordered, nor de-duplicated, nor sorted.
   */
  lemma AddPackagePassesNamesVerbatim(opts: Options, names: seq<string>, reply: Reply<()>)
    requires "name" !in opts.append && names != []
    requires Given(opts, Stored("repoid")) && Given(opts, Stored("id"))
    requires GroupTypeOf(opts) in SupportedTypes
    requires GroupTypeOf(opts) == "conditional" ==> Given(opts, Stored("requires"))
    ensures var run := AddPackage(Gather(opts, "name", names), reply);
      |run.log| > 0 && run.log[0].Invoke? && run.log[0].call.names == names
  {
    GatherKeepsOrder(opts, "name", names);
    var given := Gather(opts, "name", names);
    assert GroupTypeOf(given) == GroupTypeOf(opts);
  }

  // ---------------------------------------------------------------------------
  // DeletePackage

  /** The validation and argument shaping of `DeletePackage.run`: no group type check. */
  function DeletePackageRequest(opts: Options): (r: Result<Call>)
    ensures FirstAbsent(opts, [Stored("repoid"), Stored("name"), Stored("id")]).Some? ==>
      r == Fail(Missing(FirstAbsent(opts, [Stored("repoid"), Stored("name"), Stored("id")]).value))
    ensures Given(opts, Stored("repoid")) && Given(opts, Stored("name")) && Given(opts, Stored("id")) ==>
      (r.Fail? <==> GroupTypeOf(opts) == "conditional" && !Given(opts, Stored("requires"))) &&
      (r.Fail? ==> r.abort == Missing("requires"))
    ensures ("grouptype" !in opts.store &&
             Given(opts, Stored("repoid")) && Given(opts, Stored("name")) && Given(opts, Stored("id"))) ==>
      r.Ok? && r.value.DeletePackageFromGroup? && r.value.groupType == "default" && r.value.requirement.None?
    ensures r.Ok? ==>
      Given(opts, Stored("repoid")) && Given(opts, Stored("name")) && Given(opts, Stored("id")) &&
      r.value.DeletePackageFromGroup? &&
      r.value.repo == opts.store["repoid"] && r.value.group == opts.store["id"] &&
      r.value.package == opts.store["name"] && r.value.groupType == GroupTypeOf(opts) &&
      (r.value.requirement.Some? <==> r.value.groupType == "conditional") &&
      (r.value.requirement.Some? ==> r.value.requirement.value == opts.store["requires"])
  {
    FirstAbsentOfThree(opts, Stored("repoid"), Stored("name"), Stored("id"));
    var repo :- Required(opts, "repoid");
    var package :- Required(opts, "name");
    var group :- Required(opts, "id");
    var groupType := GroupTypeOf(opts);
    var requirement :- RequirementFor(opts, groupType);
    Ok(DeletePackageFromGroup(repo, group, package, groupType, requirement))
  }

  /**
   * `DeletePackage.run`: once the request is shaped the service is called, any
   * exception it raises is caught, exactly one of the two messages is printed
   * and the action completes.
   */
  function DeletePackage(opts: Options, reply: Reply<()>): (run: Run)
    ensures AtMostOneCallFirst(run.log)
    ensures (|run.log| > 0 && run.log[0].Invoke?) <==> DeletePackageRequest(opts).Ok?
    ensures DeletePackageRequest(opts).Fail? ==> run == Aborted(DeletePackageRequest(opts).abort) && run.outcome.MissingOption?
    ensures DeletePackageRequest(opts).Ok? ==>
      var c := DeletePackageRequest(opts).value;
      run.outcome == Completed && |run.log| == 2 && run.log[0] == Invoke(c) && run.log[1].Say? &&
      (run.log[1].msg == PackageDeleteFailed(c.package, c.group, c.repo) <==> reply.Throws?) &&
      (run.log[1].msg == PackageDeleted(c.package, c.group, c.repo) <==> reply.Returns?)
  {
    match DeletePackageRequest(opts)
    case Fail(a) => Aborted(a)
    case Ok(c) =>
      var said := match reply
        case Throws(_) => PackageDeleteFailed(c.package, c.group, c.repo)
        case Returns(_) => PackageDeleted(c.package, c.group, c.repo);
      Run([Invoke(c), Say(said)], Completed)
  }

  /**
   * Only AddPackage checks the group type: DeletePackage sends whatever type
   * it is given, supported or not, to the service.
   */
  lemma DeletePackageSendsAnyType(opts: Options)
    requires Given(opts, Stored("repoid")) && Given(opts, Stored("name")) && Given(opts, Stored("id"))
    requires GroupTypeOf(opts) !in SupportedTypes
    ensures DeletePackageRequest(opts).Ok? && DeletePackageRequest(opts).value.groupType == GroupTypeOf(opts)
    ensures DeletePackageRequest(opts).value.requirement.None?
  {
  }
}
