/**
  * radish/cli.py: the command-line object of the newer runner. It schedules one execution
  * per `(path, cmd)` pair on a thread pool, collects the results as the executions complete,
  * and turns a failed execution into a failing result.
  *
  * The executor (radish/executor.py) is not part of this model: what an execution returns,
  * or the exception it raises, is the parameter `execute`. The thread pool's only effect the
  * model keeps is the order executions complete in: `completion(n)` is that order for `n`
  * submitted executions, any permutation of them. `_resolve_futures` catches only
  * `Exception`: an execution that raised anything else stops the loop and leaves `run`,
  * keeping the results added before it. radish's own result collection is not part
  * of this model either; the append-only `CommandResults` stands in for it.
  */
module RadishCli {
  import opened Wrappers
  import opened Results
  import opened Output
  import opened Commands
  import Matching
  import Text

  /**
    * What one execution comes to: the result it returned, the `repr` of the `Exception` it
    * raised, or the `repr` of an exception outside `Exception` (KeyboardInterrupt,
    * SystemExit, radish's own `DiffError`), which `except Exception` lets through.
    */
  datatype Outcome = Returned(result: CommandResult) | Raised(repr: string) | Escaped(repr: string)

  /** One submitted execution: the future's path and the command it runs. */
  datatype Future = Future(path: string, cmd: string)

  /** The `command_name` argument of `run`: a name to look up, or a command object used as it is. */
  datatype CommandRef = ByName(name: string) | Given(command: Command)

  /** The pairs `_schedule_command` submits, in order: those with a command. */
  function Scheduled(items: seq<Item>): (fs: seq<Future>)
    ensures |fs| <= |items|
    ensures forall f :: f in fs ==> Item(f.path, Some(f.cmd)) in items
  {
    if items == [] then []
    else
      var last := |items| - 1;
      Scheduled(items[..last]) + (if items[last].cmd.None? then [] else [Future(items[last].path, items[last].cmd.value)])
  }

  /** What `_schedule_command` writes: the running line and a blank line per submitted pair. */
  function ScheduleLog(name: string, items: seq<Item>): (log: seq<string>)
    ensures |log| == 2 * |Scheduled(items)|
  {
    if items == [] then []
    else
      var last := |items| - 1;
      ScheduleLog(name, items[..last])
        + (if items[last].cmd.None? then [] else [RunningLine(name, items[last].path), "\n"])
  }

  /** Every submitted future is a pair that had a command, and every such pair is submitted. */
  lemma {:induction false} ScheduledPairs(items: seq<Item>)
    ensures |Scheduled(items)| <= |items|
    ensures |ScheduleLog("", items)| == 2 * |Scheduled(items)|
    ensures forall f :: f in Scheduled(items) <==> Item(f.path, Some(f.cmd)) in items
  {
    if items != [] {
      var last := |items| - 1;
      ScheduledPairs(items[..last]);
      assert items == items[..last] + [items[last]];
      forall f ensures f in Scheduled(items) <==> Item(f.path, Some(f.cmd)) in items {
        assert Item(f.path, Some(f.cmd)) in items <==>
               Item(f.path, Some(f.cmd)) in items[..last] || Item(f.path, Some(f.cmd)) == items[last];
      }
    }
  }

  /** The log holds the same lines whatever the name, so its length only depends on the pairs. */
  lemma {:induction false} ScheduleLogLength(name: string, items: seq<Item>)
    ensures |ScheduleLog(name, items)| == |ScheduleLog("", items)|
  {
    if items != [] {
      ScheduleLogLength(name, items[..|items| - 1]);
    }
  }

  /** The result a completed execution adds: what it returned, or `(99, 0, path)` if it raised. */
  function ResultOf(f: Future, execute: (string, string) -> Outcome): (r: CommandResult)
    requires !execute(f.path, f.cmd).Escaped?
    ensures execute(f.path, f.cmd).Raised? ==> r == CommandResult(99, 0.0, Some(f.path)) && !r.Success()
    ensures execute(f.path, f.cmd).Returned? ==> r == execute(f.path, f.cmd).result
  {
    match execute(f.path, f.cmd)
    case Returned(result) => result
    case Raised(_) => CommandResult(99, 0.0, Some(f.path))
  }

  /** The error line for an execution that raised. */
  function ErrorLine(path: string, repr: string): string
  {
    "Command for path \"" + path + "\" generated an exception: " + repr + "\n"
  }

  /** `0, 1, ..., n - 1`: the futures in submission order. */
  function Range(n: nat): (r: seq<nat>)
    ensures |r| == n && forall i :: 0 <= i < n ==> r[i] == i
  {
    seq(n, i => i)
  }

  /** A completion order of `n` futures: each of them exactly once. */
  predicate IsPermutation(order: seq<nat>, n: nat) {
    multiset(order) == multiset(Range(n))
  }

  /** Every position in a completion order names a submitted future. */
  lemma PermutationBounds(order: seq<nat>, n: nat)
    requires IsPermutation(order, n)
    ensures |order| == n
    ensures forall k :: 0 <= k < |order| ==> order[k] < n
  {
    assert |order| == |multiset(order)| == |multiset(Range(n))| == n;
    forall k | 0 <= k < |order| ensures order[k] < n {
      assert order[k] in multiset(Range(n));
    }
  }

  /** Every position in `order` names one of `n` futures. */
  predicate Bounded(order: seq<nat>, n: nat) {
    forall k :: 0 <= k < |order| ==> order[k] < n
  }

  /** Every position in `order` names a submitted future, and none of them escapes `except Exception`. */
  predicate Caught(futures: seq<Future>, order: seq<nat>, execute: (string, string) -> Outcome) {
    forall k :: 0 <= k < |order| ==>
      order[k] < |futures| && !execute(futures[order[k]].path, futures[order[k]].cmd).Escaped?
  }

  /** The first position from `i` on whose execution escapes, or the end of the order. */
  function StopFrom(futures: seq<Future>, order: seq<nat>, execute: (string, string) -> Outcome, i: nat): (k: nat)
    requires Bounded(order, |futures|) && i <= |order|
    ensures i <= k <= |order|
    ensures forall j :: i <= j < k ==> !execute(futures[order[j]].path, futures[order[j]].cmd).Escaped?
    ensures k < |order| ==> execute(futures[order[k]].path, futures[order[k]].cmd).Escaped?
    decreases |order| - i
  {
    if i == |order| then i
    else if execute(futures[order[i]].path, futures[order[i]].cmd).Escaped? then i
    else StopFrom(futures, order, execute, i + 1)
  }

  /**
    * How many completions `_resolve_futures` handles: all of them when no execution escapes,
    * otherwise those before the first one that does.
    */
  function Stop(futures: seq<Future>, order: seq<nat>, execute: (string, string) -> Outcome): (k: nat)
    requires Bounded(order, |futures|)
    ensures k <= |order| && Caught(futures, order[..k], execute)
    ensures k < |order| ==> execute(futures[order[k]].path, futures[order[k]].cmd).Escaped?
  {
    var k := StopFrom(futures, order, execute, 0);
    assert forall j :: 0 <= j < k ==> order[..k][j] == order[j];
    k
  }

  /** Scanning from `i` stops at `k` when nothing in between escapes and `k` escapes or ends the order. */
  lemma {:induction false} StopFromAt(futures: seq<Future>, order: seq<nat>, execute: (string, string) -> Outcome, i: nat, k: nat)
    requires Bounded(order, |futures|) && i <= k <= |order|
    requires forall j :: i <= j < k ==> !execute(futures[order[j]].path, futures[order[j]].cmd).Escaped?
    requires k < |order| ==> execute(futures[order[k]].path, futures[order[k]].cmd).Escaped?
    ensures StopFrom(futures, order, execute, i) == k
    decreases k - i
  {
    if i < k {
      StopFromAt(futures, order, execute, i + 1, k);
    }
  }

  /** The loop stops at `k` exactly when everything before `k` was caught and `k` escapes or ends the order. */
  lemma StopAt(futures: seq<Future>, order: seq<nat>, execute: (string, string) -> Outcome, k: nat)
    requires Bounded(order, |futures|) && k <= |order| && Caught(futures, order[..k], execute)
    requires k < |order| ==> execute(futures[order[k]].path, futures[order[k]].cmd).Escaped?
    ensures Stop(futures, order, execute) == k
  {
    forall j | 0 <= j < k
      ensures !execute(futures[order[j]].path, futures[order[j]].cmd).Escaped?
    {
      assert order[..k][j] == order[j];
    }
    StopFromAt(futures, order, execute, 0, k);
  }

  /** With no escaping execution, the loop handles every completion. */
  lemma StopAtEnd(futures: seq<Future>, order: seq<nat>, execute: (string, string) -> Outcome)
    requires Caught(futures, order, execute)
    ensures Bounded(order, |futures|) && Stop(futures, order, execute) == |order|
  {
    assert order[..|order|] == order;
    StopAt(futures, order, execute, |order|);
  }

  /** The results `_resolve_futures` adds, in completion order. */
  function Gather(futures: seq<Future>, order: seq<nat>, execute: (string, string) -> Outcome): seq<CommandResult>
    requires Caught(futures, order, execute)
  {
    if order == [] then []
    else
      var last := |order| - 1;
      Gather(futures, order[..last], execute) + [ResultOf(futures[order[last]], execute)]
  }

  /** The error lines `_resolve_futures` writes, in completion order: one per execution that raised. */
  function ErrorLog(futures: seq<Future>, order: seq<nat>, execute: (string, string) -> Outcome): (log: seq<string>)
    requires Caught(futures, order, execute)
    ensures |log| <= |order|
  {
    if order == [] then []
    else
      var last := |order| - 1;
      ErrorLog(futures, order[..last], execute) + ErrorsOf(futures[order[last]], execute)
  }

  /** The error line one execution writes: one if it raised, none if it returned. */
  function ErrorsOf(f: Future, execute: (string, string) -> Outcome): (lines: seq<string>)
    requires !execute(f.path, f.cmd).Escaped?
    ensures execute(f.path, f.cmd).Raised? ==> lines == [ErrorLine(f.path, execute(f.path, f.cmd).repr)]
    ensures execute(f.path, f.cmd).Returned? ==> lines == []
  {
    match execute(f.path, f.cmd)
    case Raised(repr) => [ErrorLine(f.path, repr)]
    case Returned(_) => []
  }

  /** One more caught completion keeps the handled prefix caught. */
  lemma CaughtStep(futures: seq<Future>, order: seq<nat>, k: nat, execute: (string, string) -> Outcome)
    requires k < |order| && Caught(futures, order[..k], execute)
    requires order[k] < |futures| && !execute(futures[order[k]].path, futures[order[k]].cmd).Escaped?
    ensures Caught(futures, order[..k + 1], execute)
  {
    var next := order[..k + 1];
    forall j | 0 <= j < |next|
      ensures next[j] < |futures| && !execute(futures[next[j]].path, futures[next[j]].cmd).Escaped?
    {
      if j < k {
        assert next[j] == order[..k][j];
      }
    }
  }

  /** The results and error lines after one more caught completion extend those before it. */
  lemma CompletionStep(futures: seq<Future>, order: seq<nat>, k: nat, execute: (string, string) -> Outcome)
    requires k < |order| && Caught(futures, order[..k], execute)
    requires order[k] < |futures| && !execute(futures[order[k]].path, futures[order[k]].cmd).Escaped?
    ensures Caught(futures, order[..k + 1], execute)
    ensures Gather(futures, order[..k + 1], execute) == Gather(futures, order[..k], execute) + [ResultOf(futures[order[k]], execute)]
    ensures ErrorLog(futures, order[..k + 1], execute) == ErrorLog(futures, order[..k], execute) + ErrorsOf(futures[order[k]], execute)
  {
    CaughtStep(futures, order, k, execute);
    assert order[..k + 1][..k] == order[..k] && order[..k + 1][k] == order[k];
  }

  /** One result per completed future. */
  lemma {:induction false} GatherLength(futures: seq<Future>, order: seq<nat>, execute: (string, string) -> Outcome)
    requires Caught(futures, order, execute)
    ensures |Gather(futures, order, execute)| == |order|
  {
    if order != [] {
      GatherLength(futures, order[..|order| - 1], execute);
    }
  }

  /** Gathering splits over a concatenation of completion orders. */
  lemma {:induction false} GatherAppend(futures: seq<Future>, a: seq<nat>, b: seq<nat>, execute: (string, string) -> Outcome)
    requires Caught(futures, a, execute) && Caught(futures, b, execute)
    ensures Caught(futures, a + b, execute)
    ensures Gather(futures, a + b, execute) == Gather(futures, a, execute) + Gather(futures, b, execute)
  {
    if b == [] {
      assert a + b == a;
    } else {
      var ab := a + b;
      assert ab[..|ab| - 1] == a + b[..|b| - 1];
      GatherAppend(futures, a, b[..|b| - 1], execute);
    }
  }

  /** Taking one future out of a completion order takes its result out of the gathered ones. */
  lemma {:induction false} GatherWithout(futures: seq<Future>, b: seq<nat>, k: nat, execute: (string, string) -> Outcome)
    requires Caught(futures, b, execute)
    requires k < |b|
    ensures Caught(futures, b[..k] + b[k + 1..], execute)
    ensures multiset(Gather(futures, b, execute))
         == multiset(Gather(futures, b[..k] + b[k + 1..], execute)) + multiset{ResultOf(futures[b[k]], execute)}
  {
    var x := b[k];
    var b' := b[..k] + b[k + 1..];
    forall j | 0 <= j < |b'|
      ensures b'[j] < |futures| && !execute(futures[b'[j]].path, futures[b'[j]].cmd).Escaped?
    {
      if j < k {
        assert b'[j] == b[j];
      } else {
        assert b'[j] == b[j + 1];
      }
    }
    assert b == b[..k] + [x] + b[k + 1..];
    GatherAppend(futures, b[..k] + [x], b[k + 1..], execute);
    GatherAppend(futures, b[..k], [x], execute);
    GatherAppend(futures, b[..k], b[k + 1..], execute);
    assert [x][..0] == [];
  }

  /** The last element of `a` sits somewhere in its permutation `b`; without it the two still agree. */
  lemma PickLast(a: seq<nat>, b: seq<nat>) returns (k: nat)
    requires a != [] && multiset(a) == multiset(b)
    ensures k < |b| && b[k] == a[|a| - 1]
    ensures multiset(a[..|a| - 1]) == multiset(b[..k] + b[k + 1..])
  {
    var last := |a| - 1;
    var x := a[last];
    assert a == a[..last] + [x];
    assert x in multiset(b);
    k :| 0 <= k < |b| && b[k] == x;
    assert b == b[..k] + [x] + b[k + 1..];
    assert multiset(b[..k] + b[k + 1..]) == multiset(b) - multiset{x};
  }

  /** Completing the same futures in another order gathers the same results, as a multiset. */
  lemma {:induction false} GatherPermutation(futures: seq<Future>, a: seq<nat>, b: seq<nat>, execute: (string, string) -> Outcome)
    requires Caught(futures, a, execute) && Caught(futures, b, execute)
    requires multiset(a) == multiset(b)
    ensures multiset(Gather(futures, a, execute)) == multiset(Gather(futures, b, execute))
    decreases |a|
  {
    if a == [] {
      assert |b| == |multiset(b)| == 0;
    } else {
      var k := PickLast(a, b);
      GatherWithout(futures, b, k, execute);
      GatherPermutation(futures, a[..|a| - 1], b[..k] + b[k + 1..], execute);
    }
  }

  /**
    * When no execution escapes `except Exception`, whatever order the executions complete
    * in, a run adds the same results (as a multiset) as completing them in submission
    * order, so its success and its total run time are the same too.
    */
  lemma CompletionOrderIrrelevant(futures: seq<Future>, order: seq<nat>, execute: (string, string) -> Outcome)
    requires IsPermutation(order, |futures|)
    requires forall i :: 0 <= i < |futures| ==> !execute(futures[i].path, futures[i].cmd).Escaped?
    ensures Caught(futures, order, execute) && Caught(futures, Range(|futures|), execute)
    ensures multiset(Gather(futures, order, execute)) == multiset(Gather(futures, Range(|futures|), execute))
    ensures SuccessOf(Gather(futures, order, execute)) == SuccessOf(Gather(futures, Range(|futures|), execute))
    ensures TotalRunTime(Gather(futures, order, execute)) == TotalRunTime(Gather(futures, Range(|futures|), execute))
  {
    PermutationBounds(order, |futures|);
    assert Caught(futures, order, execute);
    assert Caught(futures, Range(|futures|), execute);
    GatherPermutation(futures, order, Range(|futures|), execute);
    SuccessOfPermutation(Gather(futures, order, execute), Gather(futures, Range(|futures|), execute));
    RunTimeOfPermutation(Gather(futures, order, execute), Gather(futures, Range(|futures|), execute));
  }

  /** An execution that raised makes the whole run fail, in any completion order. */
  lemma {:induction false} RaisedFailsRun(futures: seq<Future>, order: seq<nat>, execute: (string, string) -> Outcome, k: nat)
    requires Caught(futures, order, execute)
    requires k < |order| && execute(futures[order[k]].path, futures[order[k]].cmd).Raised?
    ensures !SuccessOf(Gather(futures, order, execute))
  {
    var last := |order| - 1;
    if k < last {
      RaisedFailsRun(futures, order[..last], execute, k);
      assert Gather(futures, order, execute) == Gather(futures, order[..last], execute) + [ResultOf(futures[order[last]], execute)];
      assert !SuccessOf(Gather(futures, order[..last], execute));
      GatherLength(futures, order[..last], execute);
      assert Gather(futures, order[..last], execute) != [];
      SuccessAfterAdd(Gather(futures, order[..last], execute), ResultOf(futures[order[last]], execute));
    } else {
      FailurePersists(Gather(futures, order[..last], execute), ResultOf(futures[order[last]], execute), []);
    }
  }

  /** The message `ThreadPoolExecutor` raises for a pool without workers. */
  const NoWorkers := "max_workers must be greater than 0"

  /** `CLI`: the configuration, the outputter, and one result collection for the CLI's lifetime. */
  class Cli {
    const config: Config
    const outputter: Outputter
    const results: CommandResults

    constructor(config: Config, outputter: Outputter)
      ensures this.config == config && this.outputter == outputter
      ensures fresh(results) && results.results == []
    {
      this.config := config;
      this.outputter := outputter;
      results := new CommandResults();
    }

    /**
      * `run(command_name, paths, jobs)`: a command object is used as it is, a name is looked
      * up. A pool without workers raises ValueError and an unknown command AttributeError,
      * both before anything runs. Otherwise the pairs with a command are scheduled and their
      * results added to the one collection, which is returned, so successive runs accumulate.
      * An execution that escapes `except Exception` ends the run with that exception; the
      * results added before it stay in the collection.
      */
    method Run(ref: CommandRef, paths: seq<string>, jobs: int, items: (Command, seq<string>) -> seq<Item>,
               completion: nat -> seq<nat>, execute: (string, string) -> Outcome)
        returns (r: Result<CommandResults, PyError>)
      requires outputter.Valid()
      requires forall n :: IsPermutation(completion(n), n)
      modifies results, outputter.info, outputter.error
      ensures var found := if ref.Given? then Some(ref.command) else FindCommand(config.commands, ref.name);
              jobs <= 0 || found.None? ==>
                r == Failure(if jobs <= 0 then ValueError(NoWorkers) else AttributeError(NoItems)) &&
                results.results == old(results.results) &&
                outputter.info.written == old(outputter.info.written) && outputter.error.written == old(outputter.error.written)
      ensures var found := if ref.Given? then Some(ref.command) else FindCommand(config.commands, ref.name);
              jobs > 0 && found.Some? ==>
                var futures := Scheduled(items(found.value, paths));
                var order := completion(|futures|);
                Bounded(order, |futures|) &&
                var k := Stop(futures, order, execute);
                r == (if k < |order| then Failure(BaseException(execute(futures[order[k]].path, futures[order[k]].cmd).repr))
                      else Success(results)) &&
                results.results == old(results.results) + Gather(futures, order[..k], execute) &&
                outputter.info.written == old(outputter.info.written) + ScheduleLog(found.value.name, items(found.value, paths)) &&
                outputter.error.written == old(outputter.error.written) + ErrorLog(futures, order[..k], execute)
    {
      var command := if ref.Given? then Some(ref.command) else FindCommand(config.commands, ref.name);
      if jobs <= 0 {
        return Failure(ValueError(NoWorkers));
      }
      if command.None? {
        return Failure(AttributeError(NoItems));
      }
      var futures := ScheduleCommand(command.value, items(command.value, paths));
      var order := completion(|futures|);
      var escaped := ResolveFutures(futures, order, execute);
      if escaped.Some? {
        return Failure(BaseException(escaped.value));
      }
      return Success(results);
    }

    /**
      * `_schedule_command`: pairs without a command are skipped silently; each other pair
      * is announced, submitted and followed by a blank line, in `items` order.
      */
    method ScheduleCommand(command: Command, pairs: seq<Item>) returns (futures: seq<Future>)
      modifies outputter.info
      ensures futures == Scheduled(pairs)
      ensures outputter.info.written == old(outputter.info.written) + ScheduleLog(command.name, pairs)
    {
      var info := outputter.info;
      ghost var info0 := info.written;
      futures := [];
      for i := 0 to |pairs|
        invariant futures == Scheduled(pairs[..i])
        invariant info.written == info0 + ScheduleLog(command.name, pairs[..i])
      {
        var p := pairs[i];
        assert pairs[..i + 1][..i] == pairs[..i] && pairs[..i + 1][i] == p;
        if p.cmd.None? {
          continue;
        }
        info.Write(RunningLine(command.name, p.path));
        futures := futures + [Future(p.path, p.cmd.value)];
        info.Write("\n");
      }
      assert pairs[..|pairs|] == pairs;
    }

    /**
      * `_resolve_futures`: as each execution completes, its result is added; one that raised
      * adds `(99, 0, path)` instead and writes one line to the error stream.
      */
    method ResolveFutures(futures: seq<Future>, order: seq<nat>, execute: (string, string) -> Outcome)
      returns (escaped: Option<string>)
      requires outputter.Valid()
      requires IsPermutation(order, |futures|)
      modifies results, outputter.error
      ensures Bounded(order, |futures|)
      ensures var k := Stop(futures, order, execute);
              results.results == old(results.results) + Gather(futures, order[..k], execute) &&
              outputter.error.written == old(outputter.error.written) + ErrorLog(futures, order[..k], execute) &&
              escaped == if k < |order| then Some(execute(futures[order[k]].path, futures[order[k]].cmd).repr) else None
    {
      PermutationBounds(order, |futures|);
      var error := outputter.error;
      ghost var results0, error0 := results.results, error.written;
      for k := 0 to |order|
        invariant Caught(futures, order[..k], execute)
        invariant results.results == results0 + Gather(futures, order[..k], execute)
        invariant error.written == error0 + ErrorLog(futures, order[..k], execute)
      {
        var f := futures[order[k]];
        if execute(f.path, f.cmd).Escaped? {
          StopAt(futures, order, execute, k);
          return Some(execute(f.path, f.cmd).repr);
        }
        CompletionStep(futures, order, k, execute);
        AppendAssoc(results0, Gather(futures, order[..k], execute), [ResultOf(f, execute)]);
        AppendAssoc(error0, ErrorLog(futures, order[..k], execute), ErrorsOf(f, execute));
        match execute(f.path, f.cmd)
        case Returned(result) =>
          results.Add(result);
        case Raised(repr) =>
          results.Add(CommandResult(99, 0.0, Some(f.path)));
          error.Write(ErrorLine(f.path, repr));
      }
      assert order[..|order|] == order;
      StopAt(futures, order, execute, |order|);
      return None;
    }

    /**
      * `changed_projects(from_commit, to_commit)`: every configured path when no starting
      * commit is given, otherwise the configured paths the changed files fall under.
      * `changedFiles` is what the differ reports for the two commits.
      */
    method ChangedProjects(fromCommit: Option<string>, changedFiles: seq<string>,
                           m: (string, string) -> Option<string>, truthy: string -> bool) returns (r: set<string>)
      ensures fromCommit.None? ==> r == set p | p in config.paths
      ensures fromCommit.Some? ==> r == Matching.MatchSet(changedFiles, config.paths, m, truthy)
    {
      if fromCommit.None? {
        return set p | p in config.paths;
      }
      r := Matching.Match(changedFiles, config.paths, m, truthy);
    }
  }

  /** Python truthiness of an optional command-line argument: missing and empty are falsy. */
  predicate Given(arg: Option<string>) {
    arg.Some? && arg.value != ""
  }

  /**
    * Python's message when `int(s)` fails: the literal as `repr` shows it. The single-quoted
    * form is exact for strings without quotes, backslashes or control characters; `repr`
    * switches to double quotes for a string holding `'` and escapes the others.
    */
  function NotAnInt(s: string): PyError
  {
    ValueError("invalid literal for int() with base 10: '" + s + "'")
  }

  /**
    * The worker count `main` chooses: `int(--jobs)` when `--jobs` is given without `--job`,
    * otherwise 1. With `--job` given, `int(--job)` is still evaluated for the banner and
    * raises ValueError when it is not a number.
    */
  function Jobs(jobs: Option<string>, job: Option<string>): (r: Result<int, PyError>)
    ensures Given(jobs) && !Given(job) ==>
              (r.Success? <==> Text.ParseInt(jobs.value).Some?) && (r.Success? ==> r.value == Text.ParseInt(jobs.value).value)
    ensures !Given(jobs) ==> r == Success(1)
    ensures Given(jobs) && Given(job) ==> (r.Success? <==> Text.ParseInt(job.value).Some?) && (r.Success? ==> r.value == 1)
  {
    if Given(jobs) then
      if Given(job) then
        if Text.ParseInt(job.value).Some? then Success(1) else Failure(NotAnInt(job.value))
      else
        match Text.ParseInt(jobs.value)
        case Some(n) => Success(n)
        case None => Failure(NotAnInt(jobs.value))
    else Success(1)
  }

  /** `--jobs` given as a number's decimal form, with no `--job`, runs that many workers. */
  lemma JobsFromNumber(n: int)
    ensures Jobs(Some(Text.IntToString(n)), None) == Success(n)
  {
    Text.ParseIntToString(n);
  }

  /** The exit code `main` raises: 0 when the results are successful, 10 otherwise. */
  function ExitCode(rs: seq<CommandResult>): (code: int)
    ensures code == 0 || code == 10
    ensures code == 0 <==> |rs| > 0 && forall i :: 0 <= i < |rs| ==> rs[i].Success()
  {
    if SuccessOf(rs) then 0 else 10
  }

  /** A run with nothing to do, or with one execution that raised, exits with 10. */
  lemma ExitCodeFailures(futures: seq<Future>, order: seq<nat>, execute: (string, string) -> Outcome, k: nat)
    requires Caught(futures, order, execute)
    requires k < |order| && execute(futures[order[k]].path, futures[order[k]].cmd).Raised?
    ensures ExitCode([]) == 10
    ensures ExitCode(Gather(futures, order, execute)) == 10
  {
    RaisedFailsRun(futures, order, execute, k);
  }
}
