/** Builtin commands (src/builtin.rs): a closed table from names to implementations, a
    builder for the name and arguments, and running a builtin against stdin bytes. The
    implementations themselves (`cd::run`, `exit::run`) change process-wide state and are
    given as a parameter. */
module Builtin {
  import opened Io
  import opened StepOutput

  /** `Builtin { name, args }`. */
  datatype Builtin = Builtin(name: string, args: seq<string>)

  /** The implementations the table can name: `cd::run` and `exit::run`. */
  datatype BuiltinFn = Cd | Exit

  /** What a `BuiltinFn` does: runs an implementation on arguments and stdin. */
  type Implementations = (BuiltinFn, seq<string>, seq<byte>) -> StepOutput

  /** The names the table knows. */
  function Names(): set<string> {
    {"cd", "exit", "quit"}
  }

  /** `Builtin::function_map`: `cd` runs `cd::run`, `exit` and `quit` run `exit::run`,
      and every other name is an `InvalidInput` error. */
  function FunctionMap(name: string): (r: Result<BuiltinFn>)
    ensures r.Ok? <==> name in Names()
    ensures r.Ok? ==> (r.value == Cd <==> name == "cd")
    ensures r.Fail? ==> r.error == IoError(InvalidInput, "Non-existing Built-in")
  {
    match name
    case "cd" => Ok(Cd)
    case "exit" => Ok(Exit)
    case "quit" => Ok(Exit)
    case _ => Fail(InvalidInputError("Non-existing Built-in"))
  }

  /** `Builtin::exists`. */
  function Exists(name: string): (b: bool)
    ensures b <==> name in Names()
  {
    FunctionMap(name).Ok?
  }

  /** `Builtin::new`. */
  function New(name: string): Builtin {
    Builtin(name, [])
  }

  /** `Builtin::arg`, a builder that takes the builtin and hands it back with one more
      argument. */
  function Arg(b: Builtin, newArg: string): Builtin {
    b.(args := b.args + [newArg])
  }

  /** Feeding a builder its arguments one `Arg` at a time. */
  function ArgAll(b: Builtin, words: seq<string>): Builtin
    decreases |words|
  {
    if words == [] then b else ArgAll(Arg(b, words[0]), words[1..])
  }

  /** `New` then `Arg` per word keeps the name and collects exactly the words, in order,
      after the arguments already present. */
  lemma {:induction false} ArgAllAppends(b: Builtin, words: seq<string>)
    ensures ArgAll(b, words) == Builtin(b.name, b.args + words)
    decreases |words|
  {
    if words == [] {
      assert b.args + words == b.args;
    } else {
      ArgAllAppends(Arg(b, words[0]), words[1..]);
      assert b.args + [words[0]] + words[1..] == b.args + words;
    }
  }

  /** A builder started by `New` and fed `words` is exactly `Builtin(name, words)`. */
  lemma NewThenArgs(name: string, words: seq<string>)
    ensures New(name).name == name && New(name).args == []
    ensures ArgAll(New(name), words) == Builtin(name, words)
  {
    ArgAllAppends(New(name), words);
  }

  /** `Builtin::run`: an unknown name is an error; a known one runs its implementation
      on the builtin's own arguments and the given stdin, and its output is returned. */
  function Run(b: Builtin, stdin: seq<byte>, impls: Implementations): (r: Result<StepOutput>)
    ensures r.Ok? <==> Exists(b.name)
    ensures r.Fail? ==> r.error.kind == InvalidInput
    ensures r.Ok? ==> r.value == impls(if b.name == "cd" then Cd else Exit, b.args, stdin)
  {
    var function_ :- FunctionMap(b.name);
    Ok(impls(function_, b.args, stdin))
  }
}
