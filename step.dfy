/** Steps (src/step.rs): one unit of a pipeline, parsed from the text between two pipes
    into a program (or builtin) name and its arguments, and run on stdin bytes. Spawning a
    process is left to a `Runtime` oracle. */
module Step {
  import opened Io
  import Text
  import R = Redirection
  import B = Builtin
  import opened StepOutput

  /** `process::Command` as the shell configures it: the program and its arguments. */
  datatype Command = Command(program: string, args: seq<string>)

  /** `Step::Command` or `Step::Builtin`. */
  datatype Step = CommandStep(command: Command) | BuiltinStep(builtin: B.Builtin)

  /** `args` is the run of words at the head of `rest` up to, and not including, the first
      redirection operator: nothing from the operator on is an argument. */
  predicate ArgsStopAtRedirection(rest: seq<string>, args: seq<string>) {
    |args| <= |rest| && args == rest[..|args|]
    && (forall k :: 0 <= k < |args| ==> !R.IsRedirection(args[k]))
    && (|args| < |rest| ==> R.IsRedirection(rest[|args|]))
  }

  /** The argument list is determined by the words: at most one list stops at the first
      redirection operator. */
  lemma ArgsStopAtRedirectionUnique(rest: seq<string>, a1: seq<string>, a2: seq<string>)
    requires ArgsStopAtRedirection(rest, a1) && ArgsStopAtRedirection(rest, a2)
    ensures a1 == a2
  {
  }

  /** The arguments a step takes from the words after its name. */
  function ArgsBefore(rest: seq<string>): (args: seq<string>)
    ensures ArgsStopAtRedirection(rest, args)
    decreases |rest|
  {
    if rest == [] || R.IsRedirection(rest[0]) then []
    else [rest[0]] + ArgsBefore(rest[1..])
  }

  /** What `Step::parse_command` yields: the first word is the program, the following
      words up to the first redirection operator are its arguments, and a text with no
      word at all is the `InvalidInput` error "Empty Program". */
  function CommandOf(raw: string): (r: Result<Command>)
    ensures r.Fail? <==> Text.Words(raw) == []
    ensures r.Fail? ==> r.error == IoError(InvalidInput, "Empty Program")
    ensures r.Ok? ==> r.value.program == Text.Words(raw)[0]
                      && ArgsStopAtRedirection(Text.Words(raw)[1..], r.value.args)
  {
    var words := Text.Words(raw);
    if words == [] then Fail(InvalidInputError("Empty Program"))
    else Ok(Command(words[0], ArgsBefore(words[1..])))
  }

  /** `Step::parse_command`: walks the words, adding each as an argument until the first
      redirection operator. */
  method ParseCommand(raw: string) returns (r: Result<Command>)
    ensures r == CommandOf(raw)
  {
    var words := Text.Words(raw);
    if |words| == 0 {
      return Fail(InvalidInputError("Empty Program"));
    }
    var command := Command(words[0], []);
    for i := 1 to |words|
      invariant command.program == words[0]
      invariant command.args == words[1..i]
      invariant forall k :: 1 <= k < i ==> !R.IsRedirection(words[k])
    {
      if R.IsRedirection(words[i]) {
        // There can be no arguments after the beginning of a redirection.
        break;
      }
      command := command.(args := command.args + [words[i]]);
    }
    ArgsStopAtRedirectionUnique(words[1..], command.args, ArgsBefore(words[1..]));
    return Ok(command);
  }

  /** What `Step::parse_builtin` yields: the same split as `CommandOf`, with the first word
      as the builtin's name, and "Empty Builtin" for a text with no word. */
  function BuiltinOf(raw: string): (r: Result<B.Builtin>)
    ensures r.Fail? <==> Text.Words(raw) == []
    ensures r.Fail? ==> r.error == IoError(InvalidInput, "Empty Builtin")
    ensures r.Ok? ==> r.value.name == Text.Words(raw)[0]
                      && ArgsStopAtRedirection(Text.Words(raw)[1..], r.value.args)
  {
    var words := Text.Words(raw);
    if words == [] then Fail(InvalidInputError("Empty Builtin"))
    else Ok(B.Builtin(words[0], ArgsBefore(words[1..])))
  }

  /** `Step::parse_builtin`: starts a builder with `Builtin::new` and feeds it one
      `Builtin::arg` per word until the first redirection operator. */
  method ParseBuiltin(raw: string) returns (r: Result<B.Builtin>)
    ensures r == BuiltinOf(raw)
  {
    var words := Text.Words(raw);
    if |words| == 0 {
      return Fail(InvalidInputError("Empty Builtin"));
    }
    var bIn := B.New(words[0]);
    for i := 1 to |words|
      invariant bIn == B.Builtin(words[0], words[1..i])
      invariant forall k :: 1 <= k < i ==> !R.IsRedirection(words[k])
    {
      if R.IsRedirection(words[i]) {
        break;
      }
      bIn := B.Arg(bIn, words[i]);
    }
    ArgsStopAtRedirectionUnique(words[1..], bIn.args, ArgsBefore(words[1..]));
    return Ok(bIn);
  }

  /** What `Step::new` yields: always a `Command` step, never a builtin, whatever the
      first word is. */
  function StepOf(raw: string): (r: Result<Step>)
    ensures r.Fail? <==> Text.Words(raw) == []
    ensures r.Fail? ==> r.error == IoError(InvalidInput, "Empty Program")
    ensures r.Ok? ==> r.value.CommandStep? && r.value.command.program == Text.Words(raw)[0]
  {
    var c :- CommandOf(raw);
    Ok(CommandStep(c))
  }

  /** `Step::new`. */
  method New(raw: string) returns (r: Result<Step>)
    ensures r == StepOf(raw)
  {
    var c := ParseCommand(raw);
    if c.Fail? {
      return Fail(c.error);
    }
    return Ok(CommandStep(c.value));
  }

  /** What running a step needs from the outside world: spawning a program on stdin bytes
      (capturing its output) and the builtin implementations. */
  datatype Runtime = Runtime(
    spawn: (Command, seq<byte>) -> Result<ProcessOutput>,
    builtins: B.Implementations)

  /** `Step::run`: a command is spawned and its output converted; a builtin is handed to
      `Builtin::run` with the same stdin bytes. */
  function Run(s: Step, stdin: seq<byte>, rt: Runtime): (r: Result<StepOutput>)
    ensures s.BuiltinStep? ==> r == B.Run(s.builtin, stdin, rt.builtins)
    ensures s.CommandStep? ==> (r.Ok? <==> rt.spawn(s.command, stdin).Ok?)
    ensures s.CommandStep? && r.Ok? ==>
      r.value.stdout == rt.spawn(s.command, stdin).value.stdout
      && r.value.stderr == rt.spawn(s.command, stdin).value.stderr
  {
    match s
    case CommandStep(c) =>
      var output :- rt.spawn(c, stdin);
      Ok(FromOutput(output))
    case BuiltinStep(b) => B.Run(b, stdin, rt.builtins)
  }
}
