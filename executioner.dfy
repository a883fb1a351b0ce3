/**
  * maybe/executioner.py: the earlier executioner module, which writes to plain `stdout` and
  * `stderr` streams instead of an outputter and runs commands in the path as given.
  */
module Executioner {
  import opened Wrappers
  import opened Results
  import opened Output
  import Executioners

  /** `NullExecutioner` of the earlier module: the same stub, writing to its own `stdout`. */
  class NullExecutioner {
    const exitCode: int
    const runTime: real
    const output: string
    const stdout: Stream
    const stderr: Stream
    var command: Option<string>

    constructor(exitCode: int, runTime: real, output: string, stdout: Stream, stderr: Stream)
      ensures this.exitCode == exitCode && this.runTime == runTime && this.output == output
      ensures this.stdout == stdout && this.stderr == stderr && command == None
    {
      this.exitCode := exitCode;
      this.runTime := runTime;
      this.output := output;
      this.stdout := stdout;
      this.stderr := stderr;
      command := None;
    }

    /**
      * `run(path, command)`: records the command; a missing command returns the null
      * response with no write, otherwise the output goes once to `stdout` and the canned
      * result carries the caller's path.
      */
    method Run(path: string, cmd: Option<string>) returns (r: CommandResult)
      modifies this, stdout
      ensures command == cmd
      ensures r == Executioners.NullRun(exitCode, runTime, path, cmd)
      ensures stdout.written == old(stdout.written) + Executioners.NullOutput(output, cmd)
    {
      command := cmd;
      if cmd.None? {
        return NoneResult();
      }
      stdout.Write(output);
      return CommandResult(exitCode, runTime, Some(path));
    }
  }

  /**
    * `Executioner.run` of the earlier module up to the process spawn: a missing command
    * short-circuits to the null response; otherwise the command runs with the path itself
    * as its working directory.
    */
  function RunStep(path: string, command: Option<string>): (s: Executioners.Step)
    ensures s.Respond? <==> command.None?
    ensures s.Respond? ==> s.result == NoneResult()
    ensures s.Spawn? ==> s.command == command.value && s.cwd == path
  {
    if command.None? then Executioners.Respond(NoneResult())
    else Executioners.Spawn(command.value, path)
  }

  /**
    * The two modules spawn the same command; they differ only in the working directory, and
    * agree whenever the path is already absolute.
    */
  lemma RunStepsAgreeOnAbsolutePaths(basePath: string, path: string, command: Option<string>, absJoin: (string, string) -> string)
    requires Executioners.IsAbsolute(path)
    ensures RunStep(path, command) == Executioners.RunStep(basePath, path, command, absJoin)
  {
  }
}
