/**
  * maybe/executioners.py: the stub executioner that the tests wire in, and the decision
  * the real executioner takes before it spawns a shell process.
  */
module Executioners {
  import opened Wrappers
  import opened Results
  import opened Output

  /**
    * The result a null executioner configured with `exitCode` and `runTime` returns for
    * `path`: the null response for a missing command, otherwise its canned result carrying
    * the caller's path.
    */
  function NullRun(exitCode: int, runTime: real, path: string, command: Option<string>): (r: CommandResult)
    ensures command.None? ==> r == NoneResult()
    ensures command.Some? ==> r == CommandResult(exitCode, runTime, Some(path))
  {
    if command.None? then NoneResult() else CommandResult(exitCode, runTime, Some(path))
  }

  /** `NullExecutioner.run` as written: for a missing command the null-response lookup raises. */
  function NullRunAsWritten(exitCode: int, runTime: real, path: string, command: Option<string>): (r: Result<CommandResult, PyError>)
    ensures r.Failure? <==> command.None?
    ensures r.Success? ==> r.value.path == Some(path) && r.value.exitCode == exitCode
  {
    if command.None? then NoneResultAsWritten()
    else Success(CommandResult(exitCode, runTime, Some(path)))
  }

  /** What a null executioner writes for one call: its canned output once, or nothing. */
  function NullOutput(output: string, command: Option<string>): (w: seq<string>)
    ensures |w| <= 1
    ensures w == [] <==> command.None?
  {
    if command.None? then [] else [output]
  }

  /**
    * As written, a missing command raises AttributeError where a null response is expected;
    * with the null response defined, the run returns it and the run's aggregate is unaffected.
    */
  lemma NoneCommandAsWritten(exitCode: int, runTime: real, path: string)
    ensures NullRunAsWritten(exitCode, runTime, path, None).Failure?
    ensures NullRun(exitCode, runTime, path, None) == CommandResult(0, 0.0, None)
  {
  }

  /** For a given command the as-written and the corrected run agree. */
  lemma RunsAgreeOnCommands(exitCode: int, runTime: real, path: string, command: Option<string>)
    requires command.Some?
    ensures NullRunAsWritten(exitCode, runTime, path, command) == Success(NullRun(exitCode, runTime, path, command))
  {
  }

  /**
    * `NullExecutioner`: a stub that records the last command it was asked to run and answers
    * with a canned result. Its exit code, run time and output never change after construction.
    */
  class NullExecutioner {
    const exitCode: int
    const runTime: real
    const output: string
    const outputter: Outputter
    var command: Option<string>

    constructor(exitCode: int, runTime: real, output: string, outputter: Outputter)
      ensures this.exitCode == exitCode && this.runTime == runTime && this.output == output
      ensures this.outputter == outputter && command == None
    {
      this.exitCode := exitCode;
      this.runTime := runTime;
      this.output := output;
      this.outputter := outputter;
      command := None;
    }

    /**
      * `run(path, command)`: the command is recorded, `None` included; a missing command
      * returns the null response and writes nothing; otherwise the canned output is written
      * once to the info stream and the canned result carries the caller's path.
      */
    method Run(path: string, cmd: Option<string>) returns (r: CommandResult)
      modifies this, outputter.info
      ensures command == cmd
      ensures r == NullRun(exitCode, runTime, path, cmd)
      ensures outputter.info.written == old(outputter.info.written) + NullOutput(output, cmd)
    {
      command := cmd;
      if cmd.None? {
        return NoneResult();
      }
      outputter.info.Write(output);
      return CommandResult(exitCode, runTime, Some(path));
    }
  }

  /** `os.path.isabs` on POSIX: the path starts with a slash. */
  predicate IsAbsolute(path: string) {
    |path| > 0 && path[0] == '/'
  }

  /**
    * `_make_absolute_path(path)`: an absolute path is returned as it is; a relative one is
    * joined to the base path and normalised by `absJoin` (`os.path.abspath(os.path.join(...))`).
    */
  function MakeAbsolutePath(basePath: string, path: string, absJoin: (string, string) -> string): (r: string)
    ensures IsAbsolute(path) ==> r == path
    ensures !IsAbsolute(path) ==> r == absJoin(basePath, path)
  {
    if !IsAbsolute(path) then absJoin(basePath, path) else path
  }

  /**
    * When the join always gives an absolute path, so does `_make_absolute_path`, and applying
    * it again changes nothing.
    */
  lemma MakeAbsolutePathIdempotent(basePath: string, path: string, absJoin: (string, string) -> string)
    requires forall b, p :: IsAbsolute(absJoin(b, p))
    ensures IsAbsolute(MakeAbsolutePath(basePath, path, absJoin))
    ensures MakeAbsolutePath(basePath, MakeAbsolutePath(basePath, path, absJoin), absJoin) == MakeAbsolutePath(basePath, path, absJoin)
  {
  }

  /**
    * What `Executioner.run` does first: answer a missing command at once, or spawn a shell
    * process running the command in a working directory.
    */
  datatype Step = Respond(result: CommandResult) | Spawn(command: string, cwd: string)

  /**
    * `Executioner.run` up to the process spawn: a missing command short-circuits to the null
    * response, and otherwise the command runs in the absolute form of the path.
    */
  function RunStep(basePath: string, path: string, command: Option<string>, absJoin: (string, string) -> string): (s: Step)
    ensures s.Respond? <==> command.None?
    ensures s.Respond? ==> s.result == NoneResult()
    ensures s.Spawn? ==> s.command == command.value && s.cwd == MakeAbsolutePath(basePath, path, absJoin)
  {
    if command.None? then Respond(NoneResult())
    else Spawn(command.value, MakeAbsolutePath(basePath, path, absJoin))
  }
}
