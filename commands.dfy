/**
  * maybe/command.py: a named command with its per-path shell commands, how a path is
  * resolved to a shell command, and running a command over a list of paths.
  */
module Commands {
  import opened Wrappers
  import opened Results
  import opened Output
  import Executioners

  /**
    * `Command(name, mapping)`: the mapping goes from a path's string form (or `default`) to a
    * shell command, which the configuration may leave empty (`None`). Equality compares name
    * and mapping, as `__eq__` compares the instances' dictionaries.
    */
  datatype Command = Command(name: string, mapping: map<string, Option<string>>)

  /** `config`: the configured paths and the registered commands. */
  datatype Config = Config(paths: seq<string>, commands: seq<Command>)

  /**
    * One `(path, cmd)` pair of `command.items(filter=paths)`; `cmd` may be `None`. How
    * `items` picks and orders its pairs (radish/command.py) is not part of this model.
    */
  datatype Item = Item(path: string, cmd: Option<string>)

  /** The line both CLIs write before running a command for a path: `Running {name} for {path}:` and a newline. */
  function RunningLine(name: string, path: string): (line: string)
    ensures |line| == |name| + |path| + 15
    ensures line[..8] == "Running " && line[|line| - 2..] == ":\n"
  {
    "Running " + name + " for " + path + ":\n"
  }

  /** The message Python gives when a command was not found and its `items` is looked up. */
  const NoItems := "'NoneType' object has no attribute 'items'"

  /** Python truthiness of a mapping value: `None` and the empty string are falsy. */
  predicate Truthy(v: Option<string>) {
    v.Some? && v.value != ""
  }

  /** `mapping.get(key)`: `None` for a missing key. */
  function Lookup(c: Command, key: string): Option<string>
  {
    if key in c.mapping then c.mapping[key] else None
  }

  /** `_default_command()`: the entry under `default`, or `None`. */
  function DefaultCommand(c: Command): (cmd: Option<string>)
    ensures "default" in c.mapping ==> cmd == c.mapping["default"]
    ensures "default" !in c.mapping ==> cmd == None
  {
    Lookup(c, "default")
  }

  /**
    * `_get_command(path)`: the path's own entry when it is truthy, otherwise the default
    * entry (itself possibly empty or missing).
    */
  function GetCommand(c: Command, path: string): (cmd: Option<string>)
    ensures path in c.mapping && Truthy(c.mapping[path]) ==> cmd == c.mapping[path]
    ensures !(path in c.mapping && Truthy(c.mapping[path])) ==> cmd == DefaultCommand(c)
  {
    if Truthy(Lookup(c, path)) then Lookup(c, path) else DefaultCommand(c)
  }

  /**
    * How a path resolves, case by case: a truthy own entry wins; a missing, `None` or empty
    * own entry falls through to `default`; nothing is found only when neither gives a value.
    */
  lemma {:induction false} GetCommandResolution(c: Command, path: string)
    ensures GetCommand(c, path) == None <==>
              !(path in c.mapping && Truthy(c.mapping[path])) && ("default" !in c.mapping || c.mapping["default"] == None)
    ensures GetCommand(c, path).Some? ==>
              (path in c.mapping && GetCommand(c, path) == c.mapping[path]) || ("default" in c.mapping && GetCommand(c, path) == c.mapping["default"])
    ensures GetCommand(c, "default") == DefaultCommand(c)
  {
  }

  /** The results `Command.run` collects from a null executioner, one per path, in path order. */
  function NullRuns(c: Command, paths: seq<string>, exitCode: int, runTime: real): (rs: seq<CommandResult>)
    ensures |rs| == |paths|
    ensures forall i :: 0 <= i < |paths| ==> rs[i] == Executioners.NullRun(exitCode, runTime, paths[i], GetCommand(c, paths[i]))
  {
    if paths == [] then []
    else
      var last := |paths| - 1;
      NullRuns(c, paths[..last], exitCode, runTime) + [Executioners.NullRun(exitCode, runTime, paths[last], GetCommand(c, paths[last]))]
  }

  /** What a null executioner writes over `Command.run`: its output once per resolved path. */
  function NullOutputs(c: Command, paths: seq<string>, output: string): (w: seq<string>)
    ensures |w| <= |paths|
    ensures forall k :: 0 <= k < |w| ==> w[k] == output
  {
    if paths == [] then []
    else
      var last := |paths| - 1;
      NullOutputs(c, paths[..last], output) + Executioners.NullOutput(output, GetCommand(c, paths[last]))
  }

  /**
    * `Command.run(paths)` with the null executioner as `Command.executioner`: a fresh result
    * collection with one result per path, each from that path's resolved command.
    */
  method Run(c: Command, paths: seq<string>, executioner: Executioners.NullExecutioner) returns (result: CommandResults)
    modifies executioner, executioner.outputter.info
    ensures fresh(result)
    ensures result.results == NullRuns(c, paths, executioner.exitCode, executioner.runTime)
    ensures executioner.outputter.info.written == old(executioner.outputter.info.written) + NullOutputs(c, paths, executioner.output)
    ensures executioner.command == if paths == [] then old(executioner.command) else GetCommand(c, paths[|paths| - 1])
  {
    result := new CommandResults();
    var info := executioner.outputter.info;
    ghost var info0 := info.written;
    for i := 0 to |paths|
      invariant fresh(result)
      invariant result.results == NullRuns(c, paths[..i], executioner.exitCode, executioner.runTime)
      invariant info.written == info0 + NullOutputs(c, paths[..i], executioner.output)
      invariant executioner.command == if i == 0 then old(executioner.command) else GetCommand(c, paths[i - 1])
    {
      PathStep(c, paths, i, executioner.exitCode, executioner.runTime, executioner.output);
      AppendAssoc(info0, NullOutputs(c, paths[..i], executioner.output), Executioners.NullOutput(executioner.output, GetCommand(c, paths[i])));
      var r := executioner.Run(paths[i], GetCommand(c, paths[i]));
      result.Add(r);
    }
    assert paths[..|paths|] == paths;
  }

  /** Concatenation is associative. */
  lemma AppendAssoc<T>(a: seq<T>, b: seq<T>, c: seq<T>)
    ensures a + b + c == a + (b + c)
  {
  }

  /** The results and output of a run over one more path extend those of the run before it. */
  lemma PathStep(c: Command, paths: seq<string>, i: nat, exitCode: int, runTime: real, output: string)
    requires i < |paths|
    ensures NullRuns(c, paths[..i + 1], exitCode, runTime)
            == NullRuns(c, paths[..i], exitCode, runTime) + [Executioners.NullRun(exitCode, runTime, paths[i], GetCommand(c, paths[i]))]
    ensures NullOutputs(c, paths[..i + 1], output)
            == NullOutputs(c, paths[..i], output) + Executioners.NullOutput(output, GetCommand(c, paths[i]))
  {
    assert paths[..i + 1][..i] == paths[..i];
  }

  /**
    * A run's paths: each path whose command resolved, and `None` where none did, in order.
    */
  lemma RunPaths(c: Command, paths: seq<string>, exitCode: int, runTime: real, i: int)
    requires 0 <= i < |paths|
    ensures PathsOf(NullRuns(c, paths, exitCode, runTime))[i] == if GetCommand(c, paths[i]).Some? then Some(paths[i]) else None
  {
  }

  /**
    * A run succeeds exactly when there was a path and every result has exit code 0: the
    * stub's exit code is 0, or no path resolved to a command.
    */
  lemma {:induction false} RunSuccess(c: Command, paths: seq<string>, exitCode: int, runTime: real)
    ensures SuccessOf(NullRuns(c, paths, exitCode, runTime)) <==>
              paths != [] && (exitCode == 0 || forall i :: 0 <= i < |paths| ==> GetCommand(c, paths[i]) == None)
  {
    var rs := NullRuns(c, paths, exitCode, runTime);
    if exitCode != 0 && SuccessOf(rs) {
      forall i | 0 <= i < |paths| ensures GetCommand(c, paths[i]) == None {
        assert rs[i].Success();
      }
    }
  }

  /** The null executioner writes its output exactly once per path that resolved to a command. */
  lemma {:induction false} RunOutputCount(c: Command, paths: seq<string>, output: string)
    ensures |NullOutputs(c, paths, output)| == |Resolved(c, paths)|
  {
    if paths != [] {
      var last := |paths| - 1;
      RunOutputCount(c, paths[..last], output);
      ResolvedSnoc(c, paths);
    }
  }

  /** The positions of the paths that resolved to a command. */
  function Resolved(c: Command, paths: seq<string>): (s: set<int>)
    ensures forall i :: i in s <==> 0 <= i < |paths| && GetCommand(c, paths[i]).Some?
  {
    if paths == [] then {}
    else
      var last := |paths| - 1;
      var before := Resolved(c, paths[..last]);
      assert forall i :: 0 <= i < last ==> paths[..last][i] == paths[i];
      before + (if GetCommand(c, paths[last]).Some? then {last} else {})
  }

  /** The resolved positions of a longer list: those of the shorter one, and the last if it resolved. */
  lemma ResolvedSnoc(c: Command, paths: seq<string>)
    requires paths != []
    ensures var last := |paths| - 1;
            |Resolved(c, paths)| == |Resolved(c, paths[..last])| + (if GetCommand(c, paths[last]).Some? then 1 else 0)
  {
    var last := |paths| - 1;
    assert last !in Resolved(c, paths[..last]);
  }

  /** The first command satisfying `p`: what `next(...)` over a filter, or a `for` that returns early, finds. */
  function FirstWhere(commands: seq<Command>, p: Command -> bool): (r: Option<Command>)
    ensures r.None? <==> forall i :: 0 <= i < |commands| ==> !p(commands[i])
    ensures r.Some? ==> exists i :: 0 <= i < |commands| && commands[i] == r.value && p(r.value) &&
                                    forall j :: 0 <= j < i ==> !p(commands[j])
  {
    if commands == [] then None
    else if p(commands[0]) then Some(commands[0])
    else
      var r := FirstWhere(commands[1..], p);
      if r.Some? then FirstAfterHead(commands, p, r.value); r else r
  }

  /** A first match in the tail is the first match overall when the head does not match. */
  lemma FirstAfterHead(commands: seq<Command>, p: Command -> bool, c: Command)
    requires commands != [] && !p(commands[0])
    requires exists i :: 0 <= i < |commands[1..]| && commands[1..][i] == c && p(c) &&
                         forall j :: 0 <= j < i ==> !p(commands[1..][j])
    ensures exists i :: 0 <= i < |commands| && commands[i] == c && p(c) && forall j :: 0 <= j < i ==> !p(commands[j])
  {
    var i :| 0 <= i < |commands[1..]| && commands[1..][i] == c && p(c) &&
            forall j :: 0 <= j < i ==> !p(commands[1..][j]);
    assert commands[i + 1] == c;
    forall j | 0 <= j < i + 1 ensures !p(commands[j]) {
      if j > 0 {
        assert commands[j] == commands[1..][j - 1];
      }
    }
  }

  /**
    * `next((c for c in commands if c.name == name), None)` (`find_command`): the first
    * command with that name, or `None` when no command has it.
    */
  function FindCommand(commands: seq<Command>, name: string): (r: Option<Command>)
    ensures r.None? <==> forall i :: 0 <= i < |commands| ==> commands[i].name != name
    ensures r.Some? ==> exists i :: 0 <= i < |commands| && commands[i] == r.value && r.value.name == name &&
                                    forall j :: 0 <= j < i ==> commands[j].name != name
  {
    FirstWhere(commands, (c: Command) => c.name == name)
  }
}
