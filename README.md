# A verified model of the maybe / radish change-aware command runner

The runner finds which configured projects of a repository changed between two commits.
It runs a named shell command in each of them and reports whether all succeeded. It exists
twice: the older package `maybe` and its successor `radish`. This project models the
sequential core of both packages in Dafny and proves what that core promises.

- **Shard splitter** (`splitter.dfy`, radish/splitter.py).
  - `split` coerces its two arguments with `_default_int`. One split returns the input itself.
  - `split_consistently` deals the items round-robin into buckets. It is a method with a loop,
    proved against the function `RoundRobin`.
  - The lemmas cover:
    - bucket placement (`i % n`, position `i / n`), sizes and balance;
    - that every item lands in exactly one bucket;
    - string coercion and the error cases (ZeroDivisionError, IndexError, ValueError).
- **Results** (`results.dfy`, maybe/command.py).
  - `CommandResult` is a value.
  - `CommandResults` is a class whose `seq` field is only ever appended to. Its `success`,
    `run_time` and `paths` are folds.
  - The lemmas cover: empty is not success, a failure persists, and success and run time do
    not depend on the order results were added in.
- **Command resolution** (`commands.dfy`, maybe/command.py).
  - `_get_command` and `_default_command`.
  - `Command.run` as a loop over the paths with the null executioner.
  - `find_command`.
- **Matching** (`matching.dfy`). `match` appears three times, in radish/__init__.py,
  maybe/__init__.py and radish/cli.py. It is modelled once, as nested loops that grow a set,
  proved against the set comprehension `MatchSet`. Its membership, order independence,
  collapsing and filtering are lemmas.
- **Null executioners** (`executioners.dfy`, `executioner.dfy`).
  - `NullExecutioner` of both modules is a class. Each records the last command and writes its
    canned output to a stream (`output.dfy`).
  - `Executioner.run` is modelled up to the process spawn: the short-circuit for a `None`
    command and the working directory (`_make_absolute_path`).
- **Orchestration**.
  - `maybe_cli.dfy` models the `CLI` of maybe/cli.py: `run` with its log, `successful`,
    `changed_projects`, `_matched_paths` and `_command_for`.
  - `radish_cli.dfy` models the `CLI` of radish/cli.py:
    - `run` over one shared result collection, and `_schedule_command` (skips a `None` command).
    - `_resolve_futures`: completion in any order, and an `Exception` becomes `(99, 0, path)`.
      Anything outside `Exception` (KeyboardInterrupt, SystemExit, radish's `DiffError`) stops
      the loop and leaves `run`, keeping the results added before it.
    - `changed_projects`, and the jobs and exit-code rules of `main`.
- **Durations** (`durations.dfy`, radish/utils.py). `TimeTaken` is a whole number of
  microseconds, as `timedelta` holds it.
  - `+`, `-` and `==` take another duration, a number of seconds or anything else.
  - `__str__` is built from the `divmod` decomposition, `_pluralize`, the truthiness filter
    and `_join_output`.
  - The `__str__`, arithmetic and equality test cases of tests/test_utils.py are proved as
    lemmas. Its `timer`, `__repr__` and `__unicode__` tests are outside the model.
- **Diff listing** (`differs.dfy`, radish/differs.py). `_list_of_files`: strip, split at
  newlines, drop empty pieces.
- **Python built-ins** (`text.dfy`): `str.strip`, `str.join`, `str.find`, `str(int)` and `int(str)`.
  `int(str(i)) == i` is proved.

Entities the code keeps in files outside this model are inputs:
- `Path` and `path.match` become the parameters `m` and `truthy`.
- `Command.items` becomes the parameter `items`.
- radish's executor becomes the function `execute`, which returns a result, raises an
  `Exception`, or raises something outside `Exception`.
- The thread pool's completion order becomes `completion`, which may be any permutation.
- The outputter becomes a pair of append-only streams.

Equality of `CommandResult` and `Command` (`__eq__` compares the instances' attribute
dictionaries) is Dafny's structural equality of the datatypes.

The description of `split` says that a given index selects its bucket, counted from 0. The
description of the null response says that it exists and succeeds. The code differs on both
points. The model follows the code (`Splitter.Split`, `Executioners.NullRunAsWritten`) and
records each difference under "Findings", next to the corrected definition that the rest of
the model uses.

## Model

| member | source | states |
|---|---|---|
| Splitter.DefaultInt | radish/splitter.py:43-47 | a falsy argument (None, 0, "") gives the default; a nonzero int is kept; a non-empty string fails iff `int()` cannot parse it, with ValueError naming the string, and otherwise gives the parsed int; a truthy argument or a default always yields a number |
| Splitter.DefaultIntCoerces | radish/splitter.py:43-47 | the decimal string of any int coerces to that int; a nonzero int and its string coerce alike; int 0 is falsy and takes the default |
| Splitter.BucketOf | radish/splitter.py:36-38 | a bucket is no longer than the input; `BucketAt` and `InBucket` state which items it holds |
| Splitter.RoundRobin | radish/splitter.py:33-40 | exactly n buckets; `InBucket` and `RoundRobinGathered` state what each holds |
| Splitter.Partition | radish/splitter.py:33-40 | fails iff n <= 0 and the input is non-empty, with ZeroDivisionError for n = 0 and IndexError below; otherwise n buckets (none for n <= 0) |
| Splitter.PyIndex | radish/splitter.py:28 | succeeds iff -len <= index < len, a negative index counting from the end; IndexError otherwise |
| Splitter.Split | radish/splitter.py:19-30 | as written only a truthy index selects a bucket; an unsplit result is the input itself; a falsy `splits` returns the input whenever the index coerces |
| Splitter.SplitConsistently | radish/splitter.py:33-40 | the loop result equals `Partition`: round-robin buckets for n > 0; for n <= 0, [] on empty input, otherwise ZeroDivisionError (n = 0) or IndexError (n < 0) |
| Splitter.BucketLength | radish/splitter.py:36-38 | bucket j holds len // n items, plus one when j < len % n |
| Splitter.BucketsBalanced | radish/splitter.py:36-38 | any two buckets differ in length by at most one |
| Splitter.BucketAt | radish/splitter.py:36-38 | the k-th element of bucket j is input item j + k*n |
| Splitter.InBucket | radish/splitter.py:36-38 | input item i sits in bucket i % n at position i / n, so relative order is kept |
| Splitter.RoundRobinGathered | radish/splitter.py:33-40 | the buckets together hold exactly the input as a multiset, and their lengths sum to the input length |
| Splitter.SplitDefaultsToOne | radish/splitter.py:19-23 | a missing or falsy `splits` (or 1) returns the input itself, for a missing or int index |
| Splitter.SplitAllBuckets | radish/splitter.py:25-30 | n > 1 splits with a missing or 0 index returns all n round-robin buckets, also for empty input |
| Splitter.SplitOneBucket | radish/splitter.py:27-28 | a truthy in-range index returns just that bucket, a negative index counting from the end |
| Splitter.SplitIndexOutOfRange | radish/splitter.py:27-28 | an index outside the n buckets raises IndexError |
| Splitter.SplitCoercesStrings | radish/splitter.py:19-20 | numeric-string splits and index give the same result as the ints they spell |
| Splitter.SplitSeesCoercedArgs | radish/splitter.py:19-20 | `split` depends on its arguments only through their coerced values |
| Splitter.SplitZeroString | radish/splitter.py:43-47 | the string "0" is truthy, so splits="0" raises ZeroDivisionError on non-empty input while splits=0 returns the input |
| Splitter.SplitRejectsNonNumbers | radish/splitter.py:43-47 | a non-numeric splits string raises ValueError |
| Splitter.SplitThreeInTwo | tests/test_splitter.py:8-16 | [1,2,3] over 2 gives [[1,3],[2]], index 1 gives [2], and [] over 2 gives [[],[]] |
| Splitter.SplitIndexZeroAsWritten | radish/splitter.py:27-30 | as written, index 0 of two jobs returns every bucket; the intended split returns bucket 0 |
| Splitter.IndexArg | radish/splitter.py:20 | the corrected index coercion keeps every int, 0 included, and agrees with `_default_int` on truthy arguments |
| Splitter.SplitIntended | radish/splitter.py:11-13 | the corrected split returns all buckets only for a missing index (None or ""); an unsplit result is the input itself; a falsy `splits` returns the input whenever the index coerces |
| Splitter.SplitIntendedSelects | radish/splitter.py:11-13 | the corrected split returns exactly bucket i for every index 0 <= i < n, and agrees with `split` when no index is given |
| Results.AllSucceed | maybe/command.py:11-12 | `all(results)` holds iff every result's exit code is 0 |
| Results.SuccessOf | maybe/command.py:33-38 | success iff at least one result and all results have exit code 0 |
| Results.PathsOf | maybe/command.py:44-46 | one path per result, in insertion order, None paths included |
| Results.TotalRunTime | maybe/command.py:40-42 | no contract of its own; `RunTimeAppend`, `RunTimeOfPermutation` and `RunTimeNonNegative` state the fold |
| Results.RunTimeNonNegative | maybe/command.py:40-42 | run times that are never negative add up to a total that is not negative |
| Results.NoneResult | maybe/executioners.py:20-21 | the null response succeeds and carries no path |
| Results.NoneResultAsWritten | maybe/executioners.py:20-21 | as written, asking for the null response raises AttributeError |
| Results.CommandResults.constructor | maybe/command.py:22-23 | a new collection is empty |
| Results.CommandResults.Add | maybe/command.py:25-31 | exactly one result is appended at the end and nothing else changes |
| Results.CommandResults.Success | maybe/command.py:33-38 | success iff non-empty and every stored result succeeded |
| Results.CommandResults.RunTime | maybe/command.py:40-42 | the run time of an empty collection is 0.0 |
| Results.CommandResults.Paths | maybe/command.py:44-46 | the stored results' paths, one each, in order |
| Results.NoResultsNoSuccess | maybe/command.py:35-38 | an empty collection is not a success |
| Results.SuccessAfterAdd | maybe/command.py:25-38 | after an add, success iff (empty before or successful before) and the new result succeeds |
| Results.FailurePersists | maybe/command.py:33-38 | once a failing result is added, no later additions make the collection succeed |
| Results.RunTimeAppend | maybe/command.py:40-42 | run times add up over a concatenation of results |
| Results.RunTimeOfPermutation | maybe/command.py:40-42 | the total run time is the same for any order of the same results |
| Results.SuccessOfPermutation | maybe/command.py:33-38 | success is the same for any order of the same results |
| Results.NoneResultNeutral | maybe/executioners.py:20-21 | adding the null response keeps a non-empty run's success and run time and adds a None path |
| Commands.DefaultCommand | maybe/command.py:80-81 | the `default` entry, or None when there is none |
| Commands.GetCommand | maybe/command.py:77-78 | a truthy entry for the path wins; otherwise the default entry |
| Commands.GetCommandResolution | maybe/command.py:77-81 | None iff the path has no truthy entry and `default` is missing or None; a found command is the path's entry or the default entry |
| Commands.NullRuns | maybe/command.py:72-73 | one result per path, in path order, each the null executioner's answer for `_get_command(path)` |
| Commands.NullOutputs | maybe/command.py:72-73 | at most one write per path, each the canned output; `RunOutputCount` gives the exact count |
| Commands.Run | maybe/command.py:62-75 | a fresh collection holding exactly `NullRuns`; the executioner writes once per resolved path and ends recording the last path's command |
| Commands.RunPaths | maybe/command.py:62-75 | the i-th path of a run is paths[i] when it resolved to a command, None otherwise |
| Commands.RunSuccess | maybe/command.py:62-75 | a run succeeds iff there was a path and the stub's exit code is 0 or no path resolved |
| Commands.RunOutputCount | maybe/command.py:72-73 | the executioner writes exactly as many times as there are paths that resolved |
| Commands.FindCommand | radish/cli.py:55-56 | the first command with that name, or None iff no command has it |
| Matching.Match | radish/cli.py:95-110 | the nested loops followed by the filter give exactly the truthy matches of some line under some path |
| Matching.MatchSet | radish/__init__.py:25-30 | only truthy matches; no lines or no paths give the empty set; `MatchMembers` states membership both ways |
| Matching.RawThenFilter | radish/__init__.py:25-30 | filtering the set of all raw matches gives the promised set |
| Matching.MatchMembers | radish/__init__.py:25-30 | x is in the result iff x is truthy and x = path.match(line) for some line and some configured path |
| Matching.MatchNothing | maybe/__init__.py:22-27 | no lines or no paths give the empty set |
| Matching.MatchOrderIndependent | radish/__init__.py:26-28 | the result depends only on which lines and paths occur, not on order or repeats |
| Matching.MatchSplitsOverLines | maybe/__init__.py:23-25 | matching a concatenation of line lists gives the union of the results |
| Matching.MatchCollapses | radish/__init__.py:25-28 | several lines matching one path as itself give that path once |
| Matching.MatchDropsFalsy | radish/__init__.py:30 | a falsy match (or None) never appears in the result |
| Executioners.NullRun | maybe/executioners.py:43-49 | a None command gives the null response; otherwise (exit_code, run_time, caller's path) |
| Executioners.NullOutput | maybe/executioners.py:45-48 | at most one write, and none iff the command is None |
| Executioners.NullRunAsWritten | maybe/executioners.py:43-49 | as written, the run raises iff the command is None; otherwise the canned exit code with the caller's path |
| Executioners.NoneCommandAsWritten | maybe/executioners.py:20-21 | as written, a None command raises AttributeError; corrected, it returns (0, 0, None) |
| Executioners.RunsAgreeOnCommands | maybe/executioners.py:43-49 | for a given command the as-written and corrected runs return the same result |
| Executioners.NullExecutioner.constructor | maybe/executioners.py:33-41 | the canned exit code, run time, output and outputter are stored, and no command is recorded |
| Executioners.NullExecutioner.Run | maybe/executioners.py:43-49 | records the command (None included), returns `NullRun` and writes the output once to info iff the command is given |
| Executioners.MakeAbsolutePath | maybe/executioners.py:97-101 | an absolute path is returned unchanged; a relative one is joined to the base path |
| Executioners.MakeAbsolutePathIdempotent | maybe/executioners.py:97-101 | when the join yields absolute paths, the result is absolute and a second application changes nothing |
| Executioners.RunStep | maybe/executioners.py:60-88 | a None command responds with the null response without spawning; otherwise the command is spawned in the absolute path |
| Executioner.NullExecutioner.constructor | maybe/executioner.py:18-26 | the canned values and the two streams are stored, and no command is recorded |
| Executioner.NullExecutioner.Run | maybe/executioner.py:28-34 | records the command; None gives the null response with no write; otherwise the output goes once to stdout with the caller's path in the result |
| Executioner.RunStep | maybe/executioner.py:42-70 | a None command short-circuits to the null response; otherwise the command is spawned in the path as given |
| Executioner.RunStepsAgreeOnAbsolutePaths | maybe/executioner.py:64-70 | the two modules take the same step whenever the path is already absolute |
| Commands.RunningLine | maybe/cli.py:27 | the line starts with "Running ", ends with ":\n" and is 15 characters longer than name and path; radish/cli.py:64 writes the same line |
| MaybeCli.ItemRuns | maybe/cli.py:26-29 | no contract of its own; `ItemRunsAt` states one result per pair, in order |
| MaybeCli.ItemOutputs | maybe/cli.py:26-29 | at most one executioner write per pair, each the canned output |
| MaybeCli.SharedRunLog | maybe/cli.py:26-31 | two CLI lines per pair plus the executioner's writes in between |
| MaybeCli.ItemRunsAt | maybe/cli.py:26-29 | one result per pair, in pair order, each the executioner's answer for that pair, None commands included |
| MaybeCli.RunLog | maybe/cli.py:26-31 | two log lines per pair |
| MaybeCli.RunLogMatchesResults | maybe/cli.py:26-31 | the log has two lines per result: the running line of pair i, then a blank line |
| MaybeCli.Cli.constructor | maybe/cli.py:14-20 | config, outputter and executioner are stored; no results before a run |
| MaybeCli.Cli.Run | maybe/cli.py:22-33 | every call starts a fresh collection; an unknown name raises AttributeError with nothing written and the executioner untouched; otherwise one result per pair and the log, shared or separate from the executioner's stream, and the executioner holds the last pair's command |
| MaybeCli.Cli.RunPairs | maybe/cli.py:26-31 | the loop appends `ItemRuns` and writes the running line, the executioner's output and a blank line per pair |
| MaybeCli.Cli.RunPairsShared | maybe/cli.py:26-31 | with one shared stream, the executioner's output sits between the running line and the blank line of each pair |
| MaybeCli.Cli.RunPairsSeparate | maybe/cli.py:26-31 | with separate streams, the CLI's stream gets `RunLog` and the executioner's stream its outputs |
| MaybeCli.Cli.RunPair | maybe/cli.py:27-31 | one pass: running line, one result appended, blank line; the executioner records the pair's command |
| MaybeCli.Cli.Successful | maybe/cli.py:35-36 | the results of the most recent run, or none before any |
| MaybeCli.Cli.ChangedProjects | maybe/cli.py:38-48 | no starting commit gives every configured path; otherwise the paths the changed files match |
| MaybeCli.Cli.MatchedPaths | maybe/cli.py:50-51 | no paths give every configured path; otherwise the paths they match |
| MaybeCli.CommandFor | maybe/cli.py:53-59 | the first command with that name whose mapping has the path; KeyError with its message iff there is none |
| MaybeCli.CommandForImpliesFound | maybe/cli.py:53-59 | whenever `_command_for` finds a command, a command with that name exists |
| RadishCli.Scheduled | radish/cli.py:58-70 | at most one future per pair, each from a pair with that command |
| RadishCli.ScheduleLog | radish/cli.py:64-68 | two log lines per submitted future |
| RadishCli.ScheduledPairs | radish/cli.py:58-70 | a pair is submitted iff it has a command; two log lines per submission |
| RadishCli.ResultOf | radish/cli.py:75-78 | for an execution caught by `except Exception`: a returned result is added as it is; a raised exception adds the failing (99, 0, path) |
| RadishCli.ErrorsOf | radish/cli.py:77-84 | one error line for an execution that raised, none for one that returned |
| RadishCli.PermutationBounds | radish/cli.py:73 | a completion order names each of the n futures, so it has n positions, all in range |
| RadishCli.Stop | radish/cli.py:73-77 | the loop handles exactly the completions before the first one that escapes `except Exception`, all of them when none does |
| RadishCli.StopAt | radish/cli.py:73-77 | the stopping point is unique: any k with only caught completions before it and an escape (or the end) at it is the one |
| RadishCli.StopAtEnd | radish/cli.py:73-77 | with no escaping execution every completion is handled |
| RadishCli.Gather | radish/cli.py:72-84 | no contract of its own; `GatherLength`, `GatherAppend` and `GatherPermutation` state it |
| RadishCli.ErrorLog | radish/cli.py:77-84 | at most one error line per handled completion; `ExitCodeFailures` and `ResolveFutures` state which |
| RadishCli.GatherLength | radish/cli.py:72-84 | one result per completed future |
| RadishCli.GatherAppend | radish/cli.py:72-84 | gathering splits over a concatenation of completion orders |
| RadishCli.GatherPermutation | radish/cli.py:72-84 | two completion orders of the same futures gather the same multiset of results |
| RadishCli.CompletionOrderIrrelevant | radish/cli.py:72-84 | when nothing escapes `except Exception`, any completion order gives the same results (as a multiset), success and run time as submission order |
| RadishCli.RaisedFailsRun | radish/cli.py:77-78 | an execution that raised makes the run fail, in any completion order |
| RadishCli.Cli.constructor | radish/cli.py:23-29 | one empty result collection for the lifetime of the CLI |
| RadishCli.Cli.Run | radish/cli.py:31-41 | a given command is used as it is, a name is looked up; jobs <= 0 raises ValueError and an unknown command AttributeError, with nothing written; otherwise the results are appended to the shared collection, which is returned; an execution that escapes `except Exception` ends the run with that exception, keeping the results and error lines before it |
| RadishCli.Cli.ScheduleCommand | radish/cli.py:58-70 | submits exactly the pairs with a command, in order, and logs a running line and a blank line for each |
| RadishCli.Cli.ResolveFutures | radish/cli.py:72-84 | appends one result per future in completion order and writes one error line per execution that raised, up to the first execution that escapes `except Exception`, which stops the loop and is handed back |
| RadishCli.Cli.ChangedProjects | radish/cli.py:43-53 | no starting commit gives every configured path; otherwise the paths the changed files match |
| RadishCli.Jobs | radish/cli.py:194-203 | workers = int(--jobs) only when --jobs is given without --job, otherwise 1; a non-numeric argument that is evaluated raises ValueError |
| RadishCli.JobsFromNumber | radish/cli.py:194-203 | --jobs given as a number's decimal form runs that many workers |
| RadishCli.ExitCode | radish/cli.py:236 | exit code 0 iff the results are non-empty and all succeeded, otherwise 10 |
| RadishCli.ExitCodeFailures | radish/cli.py:236 | no results, or one execution that raised, exits with 10 |
| Differs.SplitLines | radish/differs.py:67 | at least one piece, none containing a newline |
| Differs.SplitLinesJoin | radish/differs.py:67 | joining the pieces with newlines gives back the text |
| Differs.NonEmpty | radish/differs.py:67 | keeps exactly the non-empty pieces |
| Differs.NonEmptySingle | radish/differs.py:67 | one piece is kept iff it is not empty |
| Differs.NonEmptyAppend | radish/differs.py:67 | the filter distributes over concatenation, so the kept pieces stay in order |
| Differs.ListOfFiles | radish/differs.py:66-67 | no listed file is empty or holds a newline; the files are exactly the non-empty newline-separated pieces of the stripped output |
| Differs.NoChanges | radish/differs.py:66-67 | empty or whitespace-only output lists no files |
| Differs.ListOfFilesRoundTrip | radish/differs.py:66-67 | without blank lines inside, the files joined by newlines are the stripped output, in order, nothing lost or added |
| Text.Strip | radish/differs.py:67 | empty iff the text is all whitespace; otherwise it neither starts nor ends with whitespace |
| Text.StripIsSlice | radish/differs.py:67 | `strip()` keeps one contiguous slice of the text |
| Text.StripCutsSpace | radish/differs.py:67 | everything `strip()` cuts off on either side is whitespace |
| Text.ParseInt | radish/splitter.py:47 | no contract of its own; `ParseIntToString` and `ParseNotANumber` state what it accepts |
| Text.IntToString | radish/utils.py:108-109 | never empty; `ParseIntToString` reads it back |
| Text.JoinWith | radish/utils.py:116 | no contract of its own; `JoinWithLength` and `JoinWithStartsWithFirst` state its length and start |
| Text.ParseIntToString | radish/splitter.py:47 | `int(str(i)) == i` for every int |
| Durations.RoundHalfEven | radish/utils.py:32-33 | the nearest integer, a tie to the even one, and integers unchanged |
| Durations.FromSeconds | radish/utils.py:32-33 | seconds become microseconds within half a microsecond |
| Durations.Sub | radish/utils.py:77-95 | the difference of the durations, a number taken as seconds, a `timedelta` as itself; TypeError iff the operand is none of these |
| Durations.Add | radish/utils.py:57-75 | the sum, a number taken as seconds, a `timedelta` as itself; TypeError iff the operand is none of these; (a + b) - b == a |
| Durations.Eq | radish/utils.py:97-104 | equal elapsed times, numbers as seconds; never equal to anything else; equal iff the difference is zero |
| Durations.AddCommutes | radish/utils.py:57-75 | adding durations commutes; a number adds and compares as its duration |
| Durations.ArithmeticExamples | tests/test_utils.py:50-83 | the sums and differences with a duration, an int or a float, the TypeErrors for a string operand, and the equalities with a duration, an int, a float and a string |
| Durations.Decompose | radish/utils.py:43-44 | total = 3600 h + 60 m + s with 0 <= m < 60 and 0 <= s < 60, and h >= 0 for a non-negative total |
| Durations.Fraction | radish/utils.py:49 | one to three digits after the point, no trailing zero except a lone "0" |
| Durations.MillisText | radish/utils.py:49 | no contract of its own; `MillisTextReadsBack` states that it reads back to its milliseconds |
| Durations.MillisTextReadsBack | radish/utils.py:49 | the printed seconds read back to the milliseconds they were printed from |
| Durations.Pluralize | radish/utils.py:106-111 | nothing iff the value is zero |
| Durations.PluralizeWord | radish/utils.py:110 | singular iff the value is 1 or negative; plural iff above 1 or strictly between 0 and 1 |
| Durations.Present | radish/utils.py:46 | keeps exactly the given, non-empty parts |
| Durations.PresentThree | radish/utils.py:46-50 | the filter keeps the given parts among hours, minutes and seconds, in that order |
| Durations.JoinTwo | radish/utils.py:119-120 | two parts are joined with " and " |
| Durations.JoinThree | radish/utils.py:114-118 | three parts are "a, b, and c" |
| Durations.JoinOutputIsSerialList | radish/utils.py:114-118 | three or more parts form an English list with the serial comma |
| Durations.JoinOutputLength | radish/utils.py:113-122 | the join starts with the first part and adds only its connectives' length |
| Durations.JoinOutput | radish/utils.py:113-122 | no contract of its own; `JoinTwo`, `JoinThree`, `JoinOutputIsSerialList` and `JoinOutputLength` state it |
| Durations.RoundMillis | radish/utils.py:49 | the seconds rounded to milliseconds, within half a millisecond |
| Durations.StrEmpty | radish/utils.py:43-50 | a duration prints as "" iff its hours, minutes and rounded seconds are all zero |
| Durations.Str | radish/utils.py:37-50 | no contract of its own; `StrEmpty` and the test-case lemmas below state what it prints |
| Durations.StrWholeHours | tests/test_utils.py:25-27 | 3600 s prints "1 hour" and 7200 s "2 hours" |
| Durations.StrWholeMinute | tests/test_utils.py:32-33 | 60 s prints "1 minute" |
| Durations.StrOneSecond | tests/test_utils.py:38 | 1 s prints "1.0 second" |
| Durations.StrTenthOfASecond | tests/test_utils.py:39 | 0.1 s prints "0.1 seconds" |
| Durations.StrTwoMinutes | tests/test_utils.py:34 | 120 s prints "2 minutes" |
| Durations.StrHalfMinute | tests/test_utils.py:37 | 30.5 s prints "30.5 seconds" |
| Durations.StrTwoParts | tests/test_utils.py:29-30 | 150.4 s prints "2 minutes and 30.4 seconds" |
| Durations.StrThreeParts | tests/test_utils.py:22-23 | 3662.19 s prints "1 hour, 1 minute, and 2.19 seconds" |
| Durations.StrSixtySeconds | radish/utils.py:43-49 | as written, 119.9996 s prints "1 minute and 60.0 seconds" |
| Durations.RoundToMillis | radish/utils.py:49 | a whole number of milliseconds within half a millisecond of the duration |
| Durations.StrRounded | radish/utils.py:37-50 | the corrected `__str__`: no contract of its own; `StrRoundedBelowMinute`, `StrRoundedAgrees` and `StrRoundedCarries` state it |
| Durations.StrRoundedBelowMinute | radish/utils.py:37-50 | rounded first, the printed seconds are exact and below 60 |
| Durations.StrRoundedAgrees | radish/utils.py:43-50 | on whole milliseconds the corrected print is the written one |
| Durations.StrRoundedCarries | radish/utils.py:43-50 | the corrected print of 119.9996 s is "2 minutes" |

## Left out

- RadishCli.Cli.Run, RadishCli.Cli.ScheduleCommand, RadishCli.Cli.ResolveFutures: the executor's own writes are not modelled. radish's default executor is built on the CLI's outputter (radish/cli.py:26) and writes each command's output to `outputter.info` and `outputter.error` from the pool's threads, from `submit` on, interleaved with the CLI's lines. `execute` is a pure function here, so the stated contents of the info and error streams are those of an executor that writes elsewhere.
- Process spawning, pipes and timing. `Executioner._run`, the rest of `Executioner.run` and `timer` are operating-system I/O. The model stops at the spawn decision (`RunStep`).
- Concurrency. The thread pool and `as_completed` are kept only as a completion order, which may be any permutation of the submitted executions. Locking is not modelled.
- Configuration loading (YAML, `glob`, file lookup), docopt parsing and the report printing in `main` are foreign library calls and I/O. Of `main`, only the jobs rule and the exit-code rule are modelled.
- The GitPython diff call and its `DiffError` wrapping are not part of this model. The diff text is a parameter of `_list_of_files`.
- The `base_path` setters use `os.path.abspath`. The join used by `_make_absolute_path` is a parameter `absJoin`.
- `Path` glob matching, truthiness and equality (path.py), `Command.items` (radish/command.py), radish's executor and result collection, and the outputter are not part of this model. They appear as parameters. radish's `ExecutionResults` is stood in for by the same append-only `CommandResults`. The set in `match` deduplicates paths by Dafny's structural equality, where Python uses `Path.__eq__` and `__hash__`.
- `TimeTaken.__repr__` and `__unicode__` (an alias of `__str__`), the `timer` helper (a clock), and `Command.__hash__`, `__repr__`, `__unicode__` and the default-object construction in the constructors (default outputter, default executioner, default differ) are left out. The constructors take these objects as arguments.
- maybe/cli.py `_default_command` calls `.get` on the list of commands. That call is not part of this model.
- Python floats. Run times and numbers of seconds are exact reals. `timedelta(seconds=x)` rounds the exact value, not its binary float, to microseconds.
- `timedelta` range limits. A duration beyond about 10^9 days raises OverflowError in Python; durations here are unbounded.
- Durations.MillisText: the float `repr` of `round(seconds, 3)` is modelled for non-negative milliseconds only. Exponent notation for very large or very small values is not modelled.
- Text.ParseInt: Python's `int()` also accepts underscores between digits and non-ASCII decimal digits. Only ASCII digits with an optional sign are modelled.
- Splitter.Split: arguments are None, an int or a string. A float `splits` (`int(2.5)`) or a non-list `splittable` is not modelled.
- Results.CommandResults.RunTime: its own contract states only the empty case. The value is the fold `TotalRunTime`, whose behaviour `RunTimeAppend` and `RunTimeOfPermutation` state.
- Results.CommandResult.Success is a predicate (`exit_code == 0`). It has no contract of its own, and `AllSucceed`, `SuccessOf` and `ExitCode` state what it decides.

## Findings

| source | as written | input that shows it | evidently intended | confidence | as-written member | corrected member |
|---|---|---|---|---|---|---|
| radish/splitter.py:27-30 | `if index:` treats index 0 as missing, so job 0 of a parallel run gets the whole list of buckets | `split(['1','2','3'], splits=2, index=0)` gives `[['1','3'],['2']]` | bucket 0, `['1','3']`, since the index is documented as 0-indexed | not executed | Splitter.SplitIndexZeroAsWritten | Splitter.SplitIntendedSelects |
| maybe/executioners.py:20-21 | `_null_response` calls `CommandResult.none()`, which maybe/command.py does not define; maybe/executioner.py:13-14 does the same | `NullExecutioner(0).run('/p', None)` raises AttributeError | the null response `(0, 0, None)` that tests/test_executor.py:201-202 expect of radish's counterpart | not executed | Executioners.NoneCommandAsWritten | Results.NoneResultNeutral |
| radish/utils.py:43-49 | the seconds are rounded to milliseconds after the minutes are taken out, so a carry is never moved into the minutes | `str(TimeTaken(119.9996))` gives `'1 minute and 60.0 seconds'` | `'2 minutes'`: never 60 seconds or more | not executed | Durations.StrSixtySeconds | Durations.StrRoundedBelowMinute |
