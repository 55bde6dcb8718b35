/**
 * The process runner (internal/command). A call is described by the invocation it
 * starts; what the process does is outside the model and reaches the checks as a
 * `Captured` value: whether the run succeeded and what it wrote to the capture buffer.
 */
module Command {

  /** What a standard stream of the child process is connected to. */
  datatype Stream =
    | Nothing        // a nil reader or writer: the null device
    | ParentStdin    // os.Stdin of this process
    | ParentStdout   // os.Stdout of this process
    | ParentStderr   // os.Stderr of this process
    | Buffer         // a strings.Builder the caller reads afterwards
    | Pipe           // an exec.Cmd stdout pipe read line by line

  /** One exec.Cmd: working directory, stdin, stdout, stderr, program and arguments. */
  datatype Invocation = Invocation(dir: string, stdin: Stream, stdout: Stream, stderr: Stream, program: string, args: seq<string>)
  {
    /** The argument vector as given to exec.Command. */
    function Argv(): seq<string> {
      [program] + args
    }
  }

  /** The result of a finished subprocess as a check sees it. */
  datatype Captured = Captured(ok: bool, output: string)

  /** A bare exec.Command, as a caller that bypasses the runner builds it: current
      directory, and every stream left nil, so the null device. */
  function NewCommand(params: seq<string>): (inv: Invocation)
    requires |params| >= 1
    ensures inv.Argv() == params
    ensures inv.dir == "" && inv.stdin == Nothing && inv.stdout == Nothing && inv.stderr == Nothing
  {
    Invocation("", Nothing, Nothing, Nothing, params[0], params[1..])
  }

  /** ExecuteWith: `params[0]` is the program, the rest its arguments. Go indexes
      `params[0]` unguarded, so an empty parameter list is the caller's fault. Standard
      error always goes to the parent's. */
  function ExecuteWith(dir: string, stdin: Stream, stdout: Stream, params: seq<string>): (inv: Invocation)
    requires |params| >= 1
    ensures inv.Argv() == params
    ensures inv.dir == dir && inv.stdin == stdin && inv.stdout == stdout && inv.stderr == ParentStderr
  {
    NewCommand(params).(dir := dir, stdin := stdin, stdout := stdout, stderr := ParentStderr)
  }

  /** Execute AS WRITTEN: the parent's stdout is handed over as the child's stdin
      and the parent's stdin as the child's stdout. */
  function Execute(dir: string, params: seq<string>): (inv: Invocation)
    requires |params| >= 1
    ensures inv.dir == dir && inv.Argv() == params
  {
    ExecuteWith(dir, ParentStdout, ParentStdin, params)
  }

  /** The streams of an `Execute` call are crossed for every call. */
  lemma ExecuteCrossesStreams(dir: string, params: seq<string>)
    requires |params| >= 1
    ensures Execute(dir, params).stdin == ParentStdout
    ensures Execute(dir, params).stdout == ParentStdin
  {
  }

  /** Execute as evidently intended: the child reads the parent's stdin and writes
      to the parent's stdout; directory and argument vector are passed through. */
  function ExecuteIntended(dir: string, params: seq<string>): (inv: Invocation)
    requires |params| >= 1
    ensures inv.stdin == ParentStdin && inv.stdout == ParentStdout
    ensures inv.dir == dir && inv.Argv() == params
  {
    ExecuteWith(dir, ParentStdin, ParentStdout, params)
  }
}
