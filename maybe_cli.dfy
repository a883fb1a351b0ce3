/**
  * maybe/cli.py: the command-line object of the older runner. It finds a command by name,
  * runs it through its executioner for every `(path, cmd)` pair, and logs what runs where.
  *
  * `Command.items` is not part of this model (maybe/command.py does not define it), so the
  * pairs a command yields for a path filter are the parameter `items`. The executioner is the
  * null executioner; the process-spawning one is operating-system I/O.
  */
module MaybeCli {
  import opened Wrappers
  import opened Results
  import opened Output
  import opened Commands
  import Executioners
  import Matching

  /** The results a run collects: one null-executioner result per pair, `None` commands included. */
  function ItemRuns(items: seq<Item>, exitCode: int, runTime: real): (rs: seq<CommandResult>)
  {
    if items == [] then []
    else
      var last := |items| - 1;
      ItemRuns(items[..last], exitCode, runTime) + [Executioners.NullRun(exitCode, runTime, items[last].path, items[last].cmd)]
  }

  /** One result per pair, in pair order, each the null executioner's answer for that pair. */
  lemma {:induction false} ItemRunsAt(items: seq<Item>, exitCode: int, runTime: real)
    ensures |ItemRuns(items, exitCode, runTime)| == |items|
    ensures forall i :: 0 <= i < |items| ==>
              ItemRuns(items, exitCode, runTime)[i] == Executioners.NullRun(exitCode, runTime, items[i].path, items[i].cmd)
  {
    if items != [] {
      var last := |items| - 1;
      ItemRunsAt(items[..last], exitCode, runTime);
      forall i | 0 <= i < last
        ensures ItemRuns(items, exitCode, runTime)[i] == Executioners.NullRun(exitCode, runTime, items[i].path, items[i].cmd)
      {
        assert items[..last][i] == items[i];
      }
    }
  }

  /** The CLI's own info log over a run: the running line, then a blank line, per pair. */
  function RunLog(name: string, items: seq<Item>): (log: seq<string>)
    ensures |log| == 2 * |items|
  {
    if items == [] then []
    else
      var last := |items| - 1;
      RunLog(name, items[..last]) + [RunningLine(name, items[last].path), "\n"]
  }

  /** What the executioner writes over a run when it has an info stream of its own. */
  function ItemOutputs(items: seq<Item>, output: string): (w: seq<string>)
    ensures |w| <= |items|
    ensures forall k :: 0 <= k < |w| ==> w[k] == output
  {
    if items == [] then []
    else
      var last := |items| - 1;
      ItemOutputs(items[..last], output) + Executioners.NullOutput(output, items[last].cmd)
  }

  /** The info log when CLI and executioner share one stream: the executioner's output sits between the two lines. */
  function SharedRunLog(name: string, items: seq<Item>, output: string): (log: seq<string>)
    ensures |log| == 2 * |items| + |ItemOutputs(items, output)|
  {
    if items == [] then []
    else
      var last := |items| - 1;
      SharedRunLog(name, items[..last], output) + [RunningLine(name, items[last].path)]
        + Executioners.NullOutput(output, items[last].cmd) + ["\n"]
  }

  /** The logs and results of a run over one more pair extend those of the run before it. */
  lemma PairStep(name: string, pairs: seq<Item>, i: nat, exitCode: int, runTime: real, output: string)
    requires i < |pairs|
    ensures ItemRuns(pairs[..i + 1], exitCode, runTime)
            == ItemRuns(pairs[..i], exitCode, runTime) + [Executioners.NullRun(exitCode, runTime, pairs[i].path, pairs[i].cmd)]
    ensures RunLog(name, pairs[..i + 1]) == RunLog(name, pairs[..i]) + [RunningLine(name, pairs[i].path), "\n"]
    ensures ItemOutputs(pairs[..i + 1], output) == ItemOutputs(pairs[..i], output) + Executioners.NullOutput(output, pairs[i].cmd)
    ensures SharedRunLog(name, pairs[..i + 1], output)
            == SharedRunLog(name, pairs[..i], output) + ([RunningLine(name, pairs[i].path)]
               + Executioners.NullOutput(output, pairs[i].cmd) + ["\n"])
  {
    assert pairs[..i + 1][..i] == pairs[..i] && pairs[..i + 1][i] == pairs[i];
  }

  /** `CLI`: the configuration, the outputter, the executioner and the results of the last run. */
  class Cli {
    const config: Config
    const outputter: Outputter
    const executioner: Executioners.NullExecutioner
    var results: CommandResults?

    constructor(config: Config, outputter: Outputter, executioner: Executioners.NullExecutioner)
      ensures this.config == config && this.outputter == outputter && this.executioner == executioner
      ensures results == null
    {
      this.config := config;
      this.outputter := outputter;
      this.executioner := executioner;
      results := null;
    }

    /**
      * `run(command_name, paths)`: every call starts a fresh result collection. An unknown
      * command leaves it empty and raises AttributeError; otherwise each pair is announced,
      * run (a `None` command too) and followed by a blank line. The executioner is left holding
      * the command of the last pair it ran.
      */
    method Run(commandName: string, paths: seq<string>, items: (Command, seq<string>) -> seq<Item>)
        returns (r: Result<CommandResults, PyError>)
      modifies this, executioner, outputter.info, executioner.outputter.info
      ensures fresh(results)
      ensures var found := FindCommand(config.commands, commandName);
              found.None? ==> r == Failure(AttributeError(NoItems)) && results.results == [] &&
                              executioner.command == old(executioner.command) &&
                              outputter.info.written == old(outputter.info.written) &&
                              executioner.outputter.info.written == old(executioner.outputter.info.written)
      ensures var found := FindCommand(config.commands, commandName);
              found.Some? ==> r == Success(results) &&
                              results.results == ItemRuns(items(found.value, paths), executioner.exitCode, executioner.runTime) &&
                              var pairs := items(found.value, paths);
                              executioner.command == if pairs == [] then old(executioner.command) else pairs[|pairs| - 1].cmd
      ensures var found := FindCommand(config.commands, commandName);
              found.Some? && executioner.outputter.info == outputter.info ==>
                outputter.info.written == old(outputter.info.written) + SharedRunLog(commandName, items(found.value, paths), executioner.output)
      ensures var found := FindCommand(config.commands, commandName);
              found.Some? && executioner.outputter.info != outputter.info ==>
                outputter.info.written == old(outputter.info.written) + RunLog(commandName, items(found.value, paths)) &&
                executioner.outputter.info.written == old(executioner.outputter.info.written) + ItemOutputs(items(found.value, paths), executioner.output)
    {
      var command := FindCommand(config.commands, commandName);
      var collected := new CommandResults();
      results := collected;
      if command.None? {
        return Failure(AttributeError(NoItems));
      }
      RunPairs(commandName, items(command.value, paths), collected);
      return Success(collected);
    }

    /**
      * The loop of `run`: for each pair, the running line, the execution (its result added
      * to `collected`), then a blank line.
      */
    method RunPairs(name: string, pairs: seq<Item>, collected: CommandResults)
      modifies collected, executioner, outputter.info, executioner.outputter.info
      ensures collected.results == old(collected.results) + ItemRuns(pairs, executioner.exitCode, executioner.runTime)
      ensures pairs == [] ==> executioner.command == old(executioner.command)
      ensures pairs != [] ==> executioner.command == pairs[|pairs| - 1].cmd
      ensures executioner.outputter.info == outputter.info ==>
                outputter.info.written == old(outputter.info.written) + SharedRunLog(name, pairs, executioner.output)
      ensures executioner.outputter.info != outputter.info ==>
                outputter.info.written == old(outputter.info.written) + RunLog(name, pairs) &&
                executioner.outputter.info.written == old(executioner.outputter.info.written) + ItemOutputs(pairs, executioner.output)
    {
      if executioner.outputter.info == outputter.info {
        RunPairsShared(name, pairs, collected);
      } else {
        RunPairsSeparate(name, pairs, collected);
      }
    }

    /** The loop of `run` when the executioner writes to the CLI's own info stream. */
    method RunPairsShared(name: string, pairs: seq<Item>, collected: CommandResults)
      requires executioner.outputter.info == outputter.info
      modifies collected, executioner, outputter.info
      ensures collected.results == old(collected.results) + ItemRuns(pairs, executioner.exitCode, executioner.runTime)
      ensures outputter.info.written == old(outputter.info.written) + SharedRunLog(name, pairs, executioner.output)
      ensures pairs == [] ==> executioner.command == old(executioner.command)
      ensures pairs != [] ==> executioner.command == pairs[|pairs| - 1].cmd
    {
      var info := outputter.info;
      ghost var results0, info0 := collected.results, info.written;
      for i := 0 to |pairs|
        invariant collected.results == results0 + ItemRuns(pairs[..i], executioner.exitCode, executioner.runTime)
        invariant info.written == info0 + SharedRunLog(name, pairs[..i], executioner.output)
        invariant i == 0 ==> executioner.command == old(executioner.command)
        invariant i > 0 ==> executioner.command == pairs[i - 1].cmd
      {
        var p := pairs[i];
        PairStep(name, pairs, i, executioner.exitCode, executioner.runTime, executioner.output);
        AppendAssoc(results0, ItemRuns(pairs[..i], executioner.exitCode, executioner.runTime),
                    [Executioners.NullRun(executioner.exitCode, executioner.runTime, p.path, p.cmd)]);
        AppendAssoc(info0, SharedRunLog(name, pairs[..i], executioner.output),
                    [RunningLine(name, p.path)] + Executioners.NullOutput(executioner.output, p.cmd) + ["\n"]);
        RunPair(name, p, collected);
      }
      assert pairs[..|pairs|] == pairs;
    }

    /** The loop of `run` when the executioner writes to a stream of its own. */
    method RunPairsSeparate(name: string, pairs: seq<Item>, collected: CommandResults)
      requires executioner.outputter.info != outputter.info
      modifies collected, executioner, outputter.info, executioner.outputter.info
      ensures collected.results == old(collected.results) + ItemRuns(pairs, executioner.exitCode, executioner.runTime)
      ensures outputter.info.written == old(outputter.info.written) + RunLog(name, pairs)
      ensures executioner.outputter.info.written == old(executioner.outputter.info.written) + ItemOutputs(pairs, executioner.output)
      ensures pairs == [] ==> executioner.command == old(executioner.command)
      ensures pairs != [] ==> executioner.command == pairs[|pairs| - 1].cmd
    {
      var info, exInfo := outputter.info, executioner.outputter.info;
      ghost var results0, info0, exInfo0 := collected.results, info.written, exInfo.written;
      for i := 0 to |pairs|
        invariant collected.results == results0 + ItemRuns(pairs[..i], executioner.exitCode, executioner.runTime)
        invariant info.written == info0 + RunLog(name, pairs[..i])
        invariant exInfo.written == exInfo0 + ItemOutputs(pairs[..i], executioner.output)
        invariant i == 0 ==> executioner.command == old(executioner.command)
        invariant i > 0 ==> executioner.command == pairs[i - 1].cmd
      {
        var p := pairs[i];
        PairStep(name, pairs, i, executioner.exitCode, executioner.runTime, executioner.output);
        AppendAssoc(results0, ItemRuns(pairs[..i], executioner.exitCode, executioner.runTime),
                    [Executioners.NullRun(executioner.exitCode, executioner.runTime, p.path, p.cmd)]);
        AppendAssoc(info0, RunLog(name, pairs[..i]), [RunningLine(name, p.path), "\n"]);
        AppendAssoc(exInfo0, ItemOutputs(pairs[..i], executioner.output), Executioners.NullOutput(executioner.output, p.cmd));
        RunPair(name, p, collected);
      }
      assert pairs[..|pairs|] == pairs;
    }

    /**
      * One pass of the loop of `run`: the running line, the execution (its result added to
      * `collected`), then a blank line.
      */
    method RunPair(name: string, p: Item, collected: CommandResults)
      modifies collected, executioner, outputter.info, executioner.outputter.info
      ensures collected.results == old(collected.results) + [Executioners.NullRun(executioner.exitCode, executioner.runTime, p.path, p.cmd)]
      ensures executioner.command == p.cmd
      ensures executioner.outputter.info == outputter.info ==>
                outputter.info.written == old(outputter.info.written) + ([RunningLine(name, p.path)]
                  + Executioners.NullOutput(executioner.output, p.cmd) + ["\n"])
      ensures executioner.outputter.info != outputter.info ==>
                outputter.info.written == old(outputter.info.written) + [RunningLine(name, p.path), "\n"] &&
                executioner.outputter.info.written == old(executioner.outputter.info.written) + Executioners.NullOutput(executioner.output, p.cmd)
    {
      outputter.info.Write(RunningLine(name, p.path));
      var result := executioner.Run(p.path, p.cmd);
      collected.Add(result);
      outputter.info.Write("\n");
    }

    /** `successful()`: the result collection of the most recent run, `None` before any. */
    function Successful(): (r: CommandResults?)
      reads this
      ensures r == results
    {
      results
    }

    /**
      * `changed_projects(from_commit, to_commit)`: every configured path when no starting
      * commit is given, otherwise the configured paths the changed files fall under.
      * `changedFiles` is what the differ reports for the two commits.
      */
    method ChangedProjects(fromCommit: Option<string>, changedFiles: seq<string>,
                           m: (string, string) -> Option<string>, truthy: string -> bool) returns (r: set<string>)
      ensures fromCommit.None? ==> r == set p | p in config.paths
      ensures fromCommit.Some? ==> r == Matching.MatchSet(changedFiles, config.paths, m, truthy)
    {
      if fromCommit.None? {
        return set p | p in config.paths;
      }
      r := Matching.Match(changedFiles, config.paths, m, truthy);
    }

    /**
      * `_matched_paths(paths)`: every configured path for no paths (empty, or `None`),
      * otherwise the configured paths the given ones fall under.
      */
    method MatchedPaths(paths: seq<string>, m: (string, string) -> Option<string>, truthy: string -> bool) returns (r: set<string>)
      ensures paths == [] ==> r == set p | p in config.paths
      ensures paths != [] ==> r == Matching.MatchSet(paths, config.paths, m, truthy)
    {
      if paths == [] {
        return set p | p in config.paths;
      }
      r := Matching.Match(paths, config.paths, m, truthy);
    }
  }

  /**
    * `_command_for(path, command)`: the first command with that name whose mapping has the
    * path as a key; KeyError when there is none.
    */
  function CommandFor(commands: seq<Command>, path: string, name: string): (r: Result<Command, PyError>)
    ensures r.Failure? <==> forall i :: 0 <= i < |commands| ==> !(commands[i].name == name && path in commands[i].mapping)
    ensures r.Failure? ==> r.error == KeyError("No command \"" + name + "\" found for path \"" + path + "\"")
    ensures r.Success? ==> exists i :: 0 <= i < |commands| && commands[i] == r.value &&
                                       r.value.name == name && path in r.value.mapping &&
                                       forall j :: 0 <= j < i ==> !(commands[j].name == name && path in commands[j].mapping)
  {
    match FirstWhere(commands, (c: Command) => c.name == name && path in c.mapping)
    case Some(c) => Success(c)
    case None => Failure(KeyError("No command \"" + name + "\" found for path \"" + path + "\""))
  }

  /** Whenever `_command_for` finds a command, `find_command` finds one by that name too. */
  lemma {:induction false} CommandForImpliesFound(commands: seq<Command>, path: string, name: string)
    requires CommandFor(commands, path, name).Success?
    ensures FindCommand(commands, name).Some? && FindCommand(commands, name).value.name == name
  {
    var c := CommandFor(commands, path, name).value;
    var i :| 0 <= i < |commands| && commands[i] == c && c.name == name;
    assert commands[i].name == name;
  }

  /** A run announces every pair in order and adds one result per pair: the log has two lines per result. */
  lemma {:induction false} RunLogMatchesResults(name: string, items: seq<Item>, exitCode: int, runTime: real)
    ensures |RunLog(name, items)| == 2 * |ItemRuns(items, exitCode, runTime)|
    ensures forall i :: 0 <= i < |items| ==> RunLog(name, items)[2 * i] == RunningLine(name, items[i].path) && RunLog(name, items)[2 * i + 1] == "\n"
  {
    if items != [] {
      var last := |items| - 1;
      RunLogMatchesResults(name, items[..last], exitCode, runTime);
      var prev := RunLog(name, items[..last]);
      assert RunLog(name, items) == prev + [RunningLine(name, items[last].path), "\n"];
      forall i | 0 <= i < |items|
        ensures RunLog(name, items)[2 * i] == RunningLine(name, items[i].path) && RunLog(name, items)[2 * i + 1] == "\n"
      {
        if i < last {
          assert items[..last][i] == items[i];
        }
      }
    }
  }
}
