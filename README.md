# Package-group actions of the Pulp command-line client, in Dafny

This project models the control logic of the `packagegroup` command of the
Pulp admin client: the six synchronous actions (`list`, `info`, `create`,
`delete`, `add_package`, `delete_package`) and the `install` action, which
submits an asynchronous install to a consumer and polls the task's status
until it reaches a terminal state.

The remote services are abstract. Each synchronous call is a parameter of
type `Reply<T>`: either the value it returned or the exception it raised.
The status service of the install poller is a script: the i-th status fetch
gets the i-th reply of a finite sequence. Every action yields a `Run`. A run
is the trace of what the action did, plus how it ended. The trace holds the
service calls, the messages printed (as values, not text) and the sleeps.
It ends `Completed`, `Exited(code)` through `system_exit`, `MissingOption(name)`,
`Raised(error)` for an uncaught exception, or `Unanswered` when the script
runs out before the poller stops.

Files and modules:

- `action_base.dfy` (`ActionBase`): the options as parsed, the
  required-option lookup, the parser's defaults and `append` lists, and the
  trace vocabulary.
- `lexicographic.dfy` (`Lexicographic`): how Python orders strings, and
  `sorted` over a set of keys.
- `package_group.dfy` (`PackageGroup`): the synchronous actions, as pure
  functions.
- `install.dfy` (`PackageGroupInstall`): the poll loop, as a method with a
  `while` loop. It is proved equal to a closed-form specification
  (`InstallSpec`), and the poller's properties are proved about that
  specification.

Two behaviours of the code that are easy to misread:

- The code writes a dot and sleeps before every fetch, the first one
  included, because `state` starts as `None`. So a script
  `running, running, finished` gives three dots, three sleeps and three
  fetches, not "fetch, then wait if not terminal".
- `Install.run` asks for the required option `id`. But its parser registers
  only `--pkggroupid` (an `append` list) and `--consumerid`. The model reads
  `id` as the code does. `InstallAsksForIdNotPkggroupid` shows the result:
  with only the options Install registers, the action stops at that lookup
  and never submits.

## Model

| member | source | states |
|---|---|---|
| ActionBase.FirstAbsent | src/pulp/client/core/packagegroup.py:105-108 | the option an abort names is the first one asked for that was not given, and every option asked for before it was given; none is missing exactly when all were given |
| ActionBase.GatherKeepsOrder | src/pulp/client/core/packagegroup.py:146 | repeating `-n` binds exactly the given values in input order, with their multiplicity; with no `-n` the option stays unbound |
| ActionBase.GatherExtends | src/pulp/client/core/packagegroup.py:146 | each further `-n` value goes at the end of the list already bound; the set of bound `append` options, every other `append` list and every `store` option are unchanged |
| Lexicographic.BelowTotal | src/pulp/client/core/packagegroup.py:63 | any two strings are comparable in the order `sorted` uses |
| Lexicographic.BelowAntisymmetric | src/pulp/client/core/packagegroup.py:63 | two strings that are each at or below the other are equal |
| Lexicographic.BelowTransitive | src/pulp/client/core/packagegroup.py:63 | the string order is transitive |
| Lexicographic.LeastExists | src/pulp/client/core/packagegroup.py:63 | every non-empty set of keys has a least element |
| Lexicographic.Sorted | src/pulp/client/core/packagegroup.py:63 | `sorted(keys)` holds every key, holds nothing else, holds each key once, and is strictly ascending |
| PackageGroup.List | src/pulp/client/core/packagegroup.py:56-64 | without `repoid` there is no call. Otherwise the first event is the one call to list groups. An uncaught exception ends the run. It exits with EX_DATAERR, printing only the "no groups" message, if and only if the returned mapping is empty. Otherwise a header comes first, then the keys in sorted order |
| PackageGroup.ListPrintsEachKeyOnceAscending | src/pulp/client/core/packagegroup.py:59-64 | the keys List prints are strictly ascending, each once, and exactly the repository's group ids; when it exits it prints none |
| PackageGroup.PrintedKeysAppend | src/pulp/client/core/packagegroup.py:63-64 | the keys printed by two consecutive stretches of output are those of the first followed by those of the second |
| PackageGroup.PrintedKeyLines | src/pulp/client/core/packagegroup.py:63-64 | printing one line per key prints exactly those keys in that order |
| PackageGroup.Info | src/pulp/client/core/packagegroup.py:76-89 | it asks for `id` then `repoid` and aborts on the first missing one with no call. It exits with EX_DATAERR if and only if the group id is not a key. In that case the only message is "not found", and no header or details are printed. Otherwise it prints the header and that group's record |
| PackageGroup.Create | src/pulp/client/core/packagegroup.py:105-112 | it asks for `repoid`, `id`, `name` in that order and makes no call if one is missing. It calls create with the description, which defaults to "". It completes if and only if the service returned, then printing the created message. A service exception is not caught |
| PackageGroup.Delete | src/pulp/client/core/packagegroup.py:124-135 | after `repoid` and `id`, it makes exactly one call and prints exactly one message. It always completes. The message is "unable to delete" if and only if the service raised, and "deleted" if and only if it returned |
| PackageGroup.AddPackageRequest | src/pulp/client/core/packagegroup.py:148-167 | it aborts on the first missing option among `repoid`, `name`, `id`. It exits with code 1 if and only if the type (default "default") is not one of the four supported ones. For a supported type it aborts if and only if the type is conditional and `requires` is missing. The shaped call carries the `-n` list unchanged, a supported type, and a requirement present if and only if the type is conditional. With no `-t` the type is "default" and, once the three required options are given, the call is shaped with no requirement |
| PackageGroup.AddPackage | src/pulp/client/core/packagegroup.py:153-173 | a service call is made if and only if validation passed, and it is the first and only call. Before validation fails nothing is called. A service exception is not caught. Success prints the added message with the requirement, the group, the repository and the names |
| PackageGroup.AddPackagePassesNamesVerbatim | src/pulp/client/core/packagegroup.py:146-167 | the names given as repeated `-n` reach the service in input order and with their multiplicity |
| PackageGroup.DeletePackageRequest | src/pulp/client/core/packagegroup.py:186-200 | it aborts on the first missing option among `repoid`, `name`, `id`. There is no group-type check. It aborts if and only if the type is conditional and `requires` is missing. The call carries a requirement if and only if the type is conditional. With no `-t` the type is "default" and, once the three required options are given, the call is shaped with no requirement |
| PackageGroup.DeletePackage | src/pulp/client/core/packagegroup.py:191-207 | it makes a call if and only if the request was shaped. Once called it always completes with exactly one message: "unable to delete" if and only if the service raised, "deleted" if and only if it returned |
| PackageGroup.DeletePackageSendsAnyType | src/pulp/client/core/packagegroup.py:195-200 | DeletePackage sends even an unsupported group type to the service, with no requirement |
| PackageGroupInstall.FirstStop | src/pulp/client/core/packagegroup.py:227-232 | the index of the first status reply that ends polling (a terminal state or an exception); every earlier reply is non-terminal |
| PackageGroupInstall.Install | src/pulp/client/core/packagegroup.py:220-236 | the poll loop produces exactly the run InstallSpec describes: options checked first, submission, task id, then one dot, sleep and fetch per pass until the first terminal state, then the verdict |
| PackageGroupInstall.InstallAbortsOnFirstMissingOption | src/pulp/client/core/packagegroup.py:221-222 | when `consumerid` or `id` is missing, the run is the abort naming the first missing one (in that order), with no call; when both are given, the first event is the submission |
| PackageGroupInstall.RoundsLength | src/pulp/client/core/packagegroup.py:227-231 | n passes are 3n events and the last one is a fetch |
| PackageGroupInstall.RoundsShape | src/pulp/client/core/packagegroup.py:227-231 | each pass is a dot, a 2-second sleep and a fetch from the submission's status path, in that order |
| PackageGroupInstall.RoundsCount | src/pulp/client/core/packagegroup.py:227-231 | n passes hold exactly n dots, n sleeps and n fetches |
| PackageGroupInstall.RoundsFetchPreceded | src/pulp/client/core/packagegroup.py:228-231 | every fetch comes directly after one dot and one sleep |
| PackageGroupInstall.FirstStopAt | src/pulp/client/core/packagegroup.py:227 | when reply k ends polling and no earlier one does, polling stops at k |
| PackageGroupInstall.InstallRunAt | src/pulp/client/core/packagegroup.py:223-236 | when reply k is the first terminal snapshot, the run is the submission, the task id, k + 1 passes and the verdict on snapshot k |
| PackageGroupInstall.PollLogCounts | src/pulp/client/core/packagegroup.py:225-231 | a run made of a start, n passes and a final message holds n more dots, sleeps and fetches than its start |
| PackageGroupInstall.PollLogOrder | src/pulp/client/core/packagegroup.py:225-231 | in such a run the last fetch comes right before the final message, and every fetch is from the status path and directly follows a dot and a sleep |
| PackageGroupInstall.InstallPollsUntilFirstTerminal | src/pulp/client/core/packagegroup.py:223-232 | with reply k the first terminal one: the submission comes first and the task id is printed before any polling. Dots = sleeps = fetches = k + 1, every fetch uses the submission's status path and directly follows a dot and a sleep, and nothing is fetched after the terminal reply |
| PackageGroupInstall.InstallReportsSuccessIffFinished | src/pulp/client/core/packagegroup.py:233-236 | success is reported with the final snapshot's result if and only if its state is `finished`. `error`, `canceled` and `timed_out` all give the same failure message |
| PackageGroupInstall.InstallAsksForIdNotPkggroupid | src/pulp/client/core/packagegroup.py:214-222 | given only the options Install registers, it aborts at the `id` lookup with no call, whatever `--pkggroupid` lists |
| PackageGroupInstall.InstallScenario | src/pulp/client/core/packagegroup.py:220-236 | a `running` then `finished`/"OK" script makes two passes and reports "OK" installed on the consumer |

## Left out

- `get_required_option` lives in `pulp/client/core/base.py`, which is not part of this model. It is modelled as "given (a key of the option map) or abort naming the option". Whether the real code also rejects empty strings, and which exit code and text it uses, is not modelled. `Install.setup_parser` does not register an `id` destination, and the model treats an unregistered destination like an unbound one (`MissingOption`); whether the real lookup instead raises `AttributeError` depends on `base.py`. Either way no service call is made.
- `Action`, `Command`, the dispatcher, `setup_connections` and the connection classes are not part of this model. Service calls are parameters, and a status fetch is the next element of a finite script.
- Option registration (`setup_parser`) is a library. The model keeps only its effects: the defaults for `--type` ("default") and `--description` (""), `--requires` defaulting to None, and the `append` behaviour of `-n` and `-g`.
- Output text, `print_header`, the `PACKAGE_GROUP_INFO` layout, `sys.stdout.flush`, `_log.error` and gettext translation are not modelled. Messages are structured values. A sleep is a trace event with its duration, and no time passes.
- PackageGroupInstall.Install: the source polls forever while the server never answers with a terminal state. The model stops with `Unanswered` when the scripted replies run out. At that point the source would still print one more dot, sleep and issue the fetch that gets no answer; the model's trace ends at the loop head, before that pass.
- Dictionary lookups that could raise `KeyError` are not modelled as failures. These are `task['id']`, `task['status_path']`, `status['state']`, `status['result']` and the fields of a group record. The handle, snapshot and record are typed values that always have them.
- `test/pmf/server.py` is messaging plumbing with no logic of its own.
