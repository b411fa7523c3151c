/** `StepOutput`, the uniform result of running a step, and its conversion from a finished
    process (src/step.rs:16-35). It lives apart from `Step` because builtins produce it too
    and `Step` depends on `Builtin`. */
module StepOutput {
  import opened Io

  /** `process::ExitStatus`: a process either exited with a code or was killed by a
      signal, in which case there is no code. */
  datatype ExitStatus = Exited(code: int32) | Signaled

  /** `ExitStatus::code`. */
  function Code(s: ExitStatus): Option<int32> {
    match s
    case Exited(c) => Some(c)
    case Signaled => None
  }

  /** `ExitStatus::success`: exited with status 0. */
  predicate Success(s: ExitStatus) {
    s == Exited(0)
  }

  /** `process::Output`: the status and everything the process wrote. */
  datatype ProcessOutput = ProcessOutput(status: ExitStatus, stdout: seq<byte>, stderr: seq<byte>)

  datatype StepOutput = StepOutput(success: bool, code: Option<int32>, stdout: seq<byte>, stderr: seq<byte>)

  /** `impl From<Output> for StepOutput`: the streams are copied unchanged, and the
      process succeeded exactly when it reports code 0; a signal leaves no code. */
  function FromOutput(o: ProcessOutput): (r: StepOutput)
    ensures r.stdout == o.stdout && r.stderr == o.stderr
    ensures r.success <==> r.code == Some(0)
    ensures r.code.None? <==> o.status.Signaled?
    ensures o.status.Exited? ==> r.code == Some(o.status.code)
  {
    StepOutput(Success(o.status), Code(o.status), o.stdout, o.stderr)
  }
}
