# Shrimp shell core in Dafny

This project models the core of Shrimp, a small interactive shell written in Rust, and
proves properties of the model. The model covers these parts of the shell:

- the **pipeline engine** (`src/pipeline.rs`). `Pipeline::new` makes two passes over a
  command line. The first scans its words for redirection operators and points the
  pipeline's three I/O slots at their targets. The second cuts the line at every `|` and
  `|&` into steps. `Pipeline::run` threads bytes from step to step through the pipes and
  writes the last step's output to the writers.
- **steps** (`src/step.rs`). A step is parsed into a program (or builtin) name and its
  arguments. The arguments stop at the first redirection operator.
- **redirection operators** (`src/redirection.rs`). Nine spellings name seven operators.
  `configure_redirection` sets exactly one slot.
- **builtins** (`src/builtin.rs`). A lookup table maps names to builtins, and a builder
  adds their arguments.
- the **command-line tokenizer** (`src/input_handler.rs`). It is a character state
  machine covering whitespace, backslash escapes, single and double quotes, `$NAME`, `~`
  and `*`. It also holds the pure parts of wildcard matching.
- two **older helpers** that the library no longer declares: the operator classifier and
  dispatch of `src/redirections.rs`, and the string-to-string expander of
  `src/preprocessor.rs`.

There is one Dafny module per source file: `Pipeline`, `Step`, `StepOutput`,
`Redirection`, `Builtin`, `InputHandler`, `Redirections` and `Preprocessor`. Two shared
modules support them. `Io` holds bytes, `i32`, `Option`, and `io::Result` with its
`ErrorKind`. `Text` holds the `str` operations the source relies on: `split_whitespace`,
`find`, `split_once` and `split`.

The state-changing code is imperative Dafny. Each imperative method is proved against a
function of its inputs, and the properties are proved about those functions:

- `Pipeline.New` and `Pipeline.Run`;
- the redirection slots, a class `Redirection.Slots` written through by
  `ConfigureRedirection`;
- the writers, a class `Redirection.Writer` that records every byte written;
- `Step.ParseCommand` and `Step.ParseBuiltin`;
- the loops of `expand`, `single_quote_supression` and `double_quote_supression`;
- both `expand` functions and `get_next_word_whitespace`.

The outside world appears as parameters:

- **Opening files, resolving sockets and reading input files** go through
  `Redirection.FileSystem`.
- **Spawning a program** is `Step.Runtime.spawn`. It maps a command and stdin bytes to the
  process output or an I/O error.
- **The builtin implementations** are `Builtin.Implementations`.
- **The process environment and the home directory** are `InputHandler.Environment` (for
  `input_handler.rs`) and a map and an `Option` (for `preprocessor.rs`).
- **The directory listing behind `*`** is `Environment.glob`. It receives the text
  expanded before the `*` and the path after it, and returns the entries or an error.

Where the source opens a secondary prompt to read another line, the tokenizer stops with
the outcome `NeedsMoreInput`; quotes are not required to close. Examples are an unclosed
quote and a backslash before a newline. This is deliberate: in the code, a `$NAME` inside
double quotes can swallow the closing quote (see `InputHandler.DoubleQuoteExample`). So
"the quotes close" is not a property of the input text.

Where the code and its tests or comments disagree, the model follows the code:

- `Step::new` never produces a builtin step. Its comment says it should check for one.
- `WriteOutErr` and `AppendOutErr` set only the output slot. `run` still writes stderr to
  the error writer, which keeps its default; there is no combined flush.
- An empty line fails with "Empty Program".
- The test at `src/input_handler.rs:511-517` expects an unset variable to expand to
  nothing. In the code, the lookup error propagates and the line fails
  (`InputHandler.UnsetVariableExample`).
- `expand_env_var` hands back `strip_suffix(name)` of the text after `$`. When that text
  ends with the name, the leftover is the text without its last `|name|` characters, so
  the name itself is read again (`InputHandler.EnvVarRereadsName`). Otherwise the
  leftover is empty and everything after the name is lost
  (`InputHandler.EnvVarLosesTrailingText`).
- The test at `src/input_handler.rs:530-543` expects `bla "~ $SOME_KEY ./*'"` to give two
  tokens. The text after `$` does not end with `SOME_KEY`, so the rest of the line,
  closing quote included, is lost and the line asks for more input
  (`InputHandler.DoubleQuoteExample`).

## Model

| member | source | states |
|---|---|---|
| Text.Words | src/step.rs:49 | `split_whitespace`: every word is non-empty and free of whitespace |
| Text.WordsKeepEveryOtherCharacter | src/step.rs:49 | the words, concatenated, are exactly the non-whitespace characters of the text, in order |
| Text.WordsSplitAtWhitespace | src/pipeline.rs:57 | a whitespace character separates words: the words of `a w b` are the words of `a` followed by those of `b` |
| Text.Find | src/pipeline.rs:84 | `find(c)`: none exactly when `c` is absent; otherwise the index of the first `c` |
| Text.FindSub | src/pipeline.rs:95 | substring `find`: the first index where the pattern occurs, or none when it occurs nowhere |
| Text.SplitOnceWhitespace | src/input_handler.rs:283-285 | `split_once(is_whitespace)`: the text before the first whitespace and the text after it, or the whole text and nothing |
| Text.SplitOn | src/input_handler.rs:296-297 | `split('*')`: one more piece than there are separators, no piece holds the separator, and joining the pieces gives the text back |
| Text.SplitOnJoinWith | src/input_handler.rs:296-297 | splitting pieces joined by a separator they do not contain gives the pieces back |
| Redirection.FromStr | src/redirection.rs:25-39 | a word is an operator exactly when it is one of the nine spellings, and then it is a spelling of the operator returned; nothing is matched by substring |
| Redirection.FromStrInvertsSpellings | src/redirection.rs:28-37 | every spelling of every operator parses back to that operator (the table of the test at src/redirection.rs:122-132) |
| Redirection.IsRedirection | src/redirection.rs:42-44 | `is_redirection(s)` holds exactly for the nine spellings `from_str` accepts |
| Redirection.ConfigureSetsOneSlot | src/redirection.rs:49-118 | fails exactly when the target is not a socket address and opening it in the operator's mode fails, with that error; a socket address changes nothing; otherwise only the operator's slot changes (`<` the input, `2>`/`2>>` the error, every other operator the output), opened truncating for writes and appending for appends |
| Redirection.Slots.ConfigureRedirection | src/redirection.rs:49-118 | writes through the three slots exactly as `Configure` says; on failure nothing is assigned, any writer it installs is new, and a slot the operator does not name (every slot, for a socket target) keeps its reader or writer |
| Redirection.Writer.WriteAll | src/pipeline.rs:171-172 | `write_all` appends the bytes, in order, after everything already written |
| StepOutput.FromOutput | src/step.rs:26-35 | stdout and stderr are copied unchanged; the code is the exit code, absent exactly when a signal ended the process; success holds exactly for code 0 |
| Builtin.FunctionMap | src/builtin.rs:29-35 | `cd` maps to the cd builtin, `exit` and `quit` to the exit builtin, and every other name fails with InvalidInput "Non-existing Built-in" |
| Builtin.Exists | src/builtin.rs:56-58 | holds exactly for `cd`, `exit` and `quit` |
| Builtin.ArgAllAppends | src/builtin.rs:44-47 | adding arguments one `arg` at a time appends them at the end, in order, and keeps the name and earlier arguments |
| Builtin.NewThenArgs | src/builtin.rs:37-47 | `new(name)` has that name and no arguments, and a chain of `arg` calls after it gives exactly those arguments |
| Builtin.Run | src/builtin.rs:50-53 | succeeds exactly for a known name; it then passes the arguments and stdin unchanged to the mapped function and returns its output; an unknown name is an InvalidInput error |
| Step.ArgsBefore | src/step.rs:60-71 | the arguments are the words after the program, in order, up to and excluding the first redirection operator |
| Step.ArgsStopAtRedirectionUnique | src/step.rs:60-71 | that stop rule determines the argument list |
| Step.CommandOf | src/step.rs:47-73 | fails with InvalidInput "Empty Program" exactly when the text has no word; otherwise the program is the first word and the arguments follow the stop rule |
| Step.ParseCommand | src/step.rs:47-73 | the word loop with its early `break` yields `CommandOf` |
| Step.BuiltinOf | src/step.rs:76-101 | the same split, with the first word as builtin name and "Empty Builtin" for a text without words |
| Step.ParseBuiltin | src/step.rs:76-101 | the builder loop (`Builtin::new`, then one `arg` per word until a redirection) yields `BuiltinOf` |
| Step.StepOf | src/step.rs:40-44 | `Step::new` fails exactly as `parse_command` does and otherwise always gives a command step, never a builtin |
| Step.New | src/step.rs:40-44 | `Step::new` yields `StepOf` |
| Step.Run | src/step.rs:105-119 | a builtin step is `Builtin::run` on the same stdin; a command step fails exactly when spawning fails, and otherwise has the process's stdout and stderr |
| Pipeline.ScanDanglingFails | src/pipeline.rs:65-68 | an operator as the last word fails with InvalidInput "Empty redirection" |
| Pipeline.ScanComposes | src/pipeline.rs:60-79 | the scan is a left-to-right fold: scanning `a + b` is scanning `b` from the slots `a` left |
| Pipeline.ScanWithoutOperators | src/pipeline.rs:60-79 | words that are not operators leave the slots unchanged |
| Pipeline.LastRedirectionWins | src/pipeline.rs:60-79 | redirections apply pipeline-wide and a later redirection overwrites the slot its operator names (input, output or error) whatever earlier words set there, keeping the other slots |
| Pipeline.EmptyRedirectionExample | src/pipeline.rs:313-318 | parsing the line `wc -c < ` fails with InvalidInput "Empty redirection" |
| Pipeline.FirstBarKind | src/pipeline.rs:93-98 | the first bar is the start of the first bar-ampersand pair exactly when an `&` follows it |
| Pipeline.SplitPipes | src/pipeline.rs:82-110 | the cut has one more segment than pipes, so every line has at least one step |
| Pipeline.SplitPipesNoBar | src/pipeline.rs:86-91 | a line without a bar is one segment and no pipe |
| Pipeline.SplitPipesAtBar | src/pipeline.rs:93-109 | at the first bar, the cut is the text before it, the pipe it starts (`Err` when `&` follows, taking two characters, else `Std`, taking one), then the cut of the rest |
| Pipeline.SplitPipesAtFirstBar | src/pipeline.rs:93-109 | the same, with the pipe chosen as the source chooses it, by comparing the index of the first bar with that of the first bar-ampersand pair |
| Pipeline.SplitPipesAtFirst | src/pipeline.rs:84-109 | the same, at the index of the first bar as `find` gives it |
| Pipeline.SplitPipesIsCut | src/pipeline.rs:82-110 | the segments hold no bar, rejoining segments and pipes gives the line back, and no `Std` pipe is followed by `&` |
| Pipeline.CutIsSplitPipes | src/pipeline.rs:82-110 | those three conditions fix the cut: any segments and pipes meeting them are the ones `SplitPipes` gives |
| Pipeline.CutConsAt | src/pipeline.rs:93-109 | a cut of the text after the first pipe, behind the text before it and that pipe, is a cut of the whole line |
| Pipeline.SplitPipesCons | src/pipeline.rs:100-109 | a segment, a pipe and more text are cut into that segment, that pipe, then the cut of the text |
| Pipeline.PipesOfTwoBars | src/pipeline.rs:93-109 | a line made of `a`, a bar-ampersand pair, `b`, a bar and `c` (none holding a bar) is cut into `[a, b, c]` with pipes `[Err, Std]` |
| Pipeline.PipesOfParsingTest | src/pipeline.rs:249-266 | parsing the line of the parsing test succeeds with three steps, the pipes `[Err, Std]` in that order, and no redirection |
| Pipeline.StepsOf | src/pipeline.rs:86-101 | `Step::new` on every segment: fails with "Empty Program" exactly when some segment has no word, and otherwise gives one step per segment |
| Pipeline.Parse | src/pipeline.rs:47-120 | a redirection error wins; otherwise it fails exactly when a segment is empty; on success there is at least one step, one pipe fewer than steps, and every step is a command |
| Pipeline.EmptySegmentFails | src/pipeline.rs:86-101 | an empty segment (empty line, leading or trailing pipe, two pipes in a row) makes the line fail with "Empty Program" |
| Pipeline.ParseWithoutOperators | src/pipeline.rs:57-120 | a line with no operator word and no empty segment parses into one step per segment, the pipes between them, and no redirection |
| Pipeline.EmptyLineFails | src/pipeline.rs:295-300 | the empty line fails with "Empty Program" |
| Pipeline.ScanRedirections | src/pipeline.rs:57-79 | the word loop fails exactly when the scan does, with its error, and otherwise leaves the slots holding the scan's result |
| Pipeline.CutSteps | src/pipeline.rs:82-110 | the `find`/`split_at`/`strip_prefix` loop yields the steps of every segment and the pipes between them, and the first failing step's error |
| Pipeline.CutNext | src/pipeline.rs:93-109 | one turn of that loop: the step before the pipe fails the whole cut or is pushed with its pipe, and cutting resumes after the pipe |
| Pipeline.CutLast | src/pipeline.rs:86-91 | with no bar left, the rest of the line is the last step |
| Pipeline.New | src/pipeline.rs:47-120 | fails exactly when `Parse` does, with its error; otherwise the pipeline has `Parse`'s steps, pipes and input, and its writers are the redirected sinks or the process stdout and stderr, new and distinct |
| Pipeline.RunWithoutPipes | src/pipeline.rs:140-145 | with no pipe, running is running the first step on the input |
| Pipeline.RunAppendPipe | src/pipeline.rs:148-166 | one more pipe runs one more step on what that pipe forwards: the previous stdout for `Std`, stdout followed by stderr for `Err` |
| Pipeline.RunIgnoresExtraSteps | src/pipeline.rs:148-166 | only as many steps after the first as there are pipes are run |
| Pipeline.RunErrorFromStep | src/pipeline.rs:136-165 | a failed run either had no step ("No Steps on Pipeline") or carries the error of one of its steps |
| Pipeline.Run | src/pipeline.rs:124-175 | returns the output `RunSpec` gives on the input reader's bytes (nothing without a reader); on success the last stdout goes to the output writer and the last stderr to the error writer (both, in that order, when they are the same writer); a failure writes nothing |
| InputHandler.VarName | src/input_handler.rs:184-186 | the name is the longest prefix of alphanumerics and `_` |
| InputHandler.VarNameOfName | src/input_handler.rs:184-186 | a name followed by the end or by a non-name character is read whole |
| InputHandler.ExpandEnvVar | src/input_handler.rs:178-198 | fails with "environment variable not found" exactly when the name is empty or unset; otherwise the value is the variable's, and the leftover is what `strip_suffix(name)` leaves: the input minus as many trailing characters as the name has when it ends with the name, and empty otherwise |
| InputHandler.EnvVarLosesTrailingText | src/input_handler.rs:194-197 | when the input does not end with the name, the text after the name is lost |
| InputHandler.EnvVarRereadsName | src/input_handler.rs:194-197 | when the input ends with the name, the leftover keeps the name, which is read again |
| InputHandler.Verbatim | src/input_handler.rs:416-436 | asks for more input exactly when no closing quote follows; otherwise the copied text is everything before the first quote and the leftover everything after it |
| InputHandler.DoubleQuoted | src/input_handler.rs:443-480 | a failure is the variable lookup error; on success the leftover is shorter than the input |
| InputHandler.DoubleQuotedWithoutDollar | src/input_handler.rs:443-480 | without `$`, double quotes copy verbatim up to the closing `"` exactly as single quotes do |
| InputHandler.DoubleQuotedPlainPrefix | src/input_handler.rs:466-469 | characters other than `$` and `"` are copied in front of what follows |
| InputHandler.DoubleQuotedLosesClosingQuote | src/input_handler.rs:456-461 | a set `$NAME` whose text does not end with the name discards the rest of the quote, closing quote included, so more input is needed |
| InputHandler.SingleQuoteSuppression | src/input_handler.rs:411-437 | the `found_pair` loop appends the quoted text to the buffer and returns the leftover, as `Verbatim` with `'` says |
| InputHandler.DoubleQuoteSuppression | src/input_handler.rs:443-480 | the loop appends the quoted text, with `$NAME` expanded, to the buffer and returns the leftover, as `DoubleQuoted` says |
| InputHandler.FoldContainsAll | src/input_handler.rs:228-230 | the fold holds exactly when its start value holds and the entry contains every intermediate |
| InputHandler.IsWildcardMatch | src/input_handler.rs:220-231 | holds exactly when the entry starts with the prefix, ends with the suffix and contains every intermediate |
| InputHandler.FirstNormalComponent | src/input_handler.rs:288-292 | a `Normal` first component is non-empty, free of `/`, starts the path and ends at its end or at a `/`; it is never `.` or `..` |
| InputHandler.FirstNormalComponentOf | src/input_handler.rs:288-292 | a component followed by nothing or by `/` is the first component |
| InputHandler.WildcardPieces | src/input_handler.rs:292-305 | the first component split at `*`: the intermediates and the suffix joined by `*` give the component back, there is one intermediate per `*`, and no piece holds `*`; without a normal component there are none |
| InputHandler.WildcardPiecesWithoutStar | src/input_handler.rs:296-299 | a component without `*` is all suffix |
| InputHandler.WildcardPiecesOfJoin | src/input_handler.rs:292-305 | pieces joined by `*` are split back into the same pieces, the last one as suffix |
| InputHandler.ThreePieces | src/input_handler.rs:292-305 | a component with two `*` has two intermediates, in order, and a suffix |
| InputHandler.WildcardPiecesExample | src/input_handler.rs:292-305 | `a*b*c.txt/sub` has the intermediates `a`, `b` and the suffix `c.txt` |
| InputHandler.Rejoined | src/input_handler.rs:391-401 | no entries leave just the input after the wildcard word; entries add no `*` |
| InputHandler.ExpandWildcard | src/input_handler.rs:200-405 | fails exactly when the directory listing fails, with its message; otherwise the text to re-read holds no more `*` than the input did |
| InputHandler.HomeAfterTilde | src/input_handler.rs:103-113 | `~` adds the home directory exactly when there is one and `/` or whitespace follows, and nothing otherwise |
| InputHandler.ExpansionKeepsTokens | src/input_handler.rs:82-166 | finished tokens are never changed or dropped: expanding behind them gives them followed by what expanding alone gives |
| InputHandler.PlainStep | src/input_handler.rs:147-156 | an ordinary character either ends the token (whitespace) or is appended to it |
| InputHandler.PlainExpansion | src/input_handler.rs:82-163 | on text without special characters, every whitespace character ends a token, empty tokens included, and only an empty last token is dropped |
| InputHandler.PlainInput | src/input_handler.rs:82-163 | a line without special characters expands to its whitespace-separated pieces, without an empty last one |
| InputHandler.PlainWord | src/input_handler.rs:154-156 | a word of ordinary characters is appended verbatim to the current token |
| InputHandler.EscapedIsLiteral | src/input_handler.rs:132-145 | a backslash appends the next character literally, special characters and whitespace included |
| InputHandler.BackslashAtEnd | src/input_handler.rs:132-145 | a backslash at the end of the input is dropped; before a newline it asks for more input |
| InputHandler.SingleQuotedIsLiteral | src/input_handler.rs:114-122 | single quotes append their contents verbatim, with no expansion, and expansion resumes after the closing quote |
| InputHandler.TildeRule | src/input_handler.rs:103-113 | `~` is never copied: it becomes the home directory before `/` or whitespace when there is one, and nothing otherwise |
| InputHandler.WhitespaceEndsToken | src/input_handler.rs:147-153 | unquoted whitespace pushes the current token, even an empty one |
| InputHandler.VariableEndsLine | src/input_handler.rs:84-89 | a set variable whose name ends the line appends its value to the current token |
| InputHandler.UnsetVariableFails | src/input_handler.rs:84-89 | an unset variable makes the whole line fail, whatever follows |
| InputHandler.UnclosedDoubleQuote | src/input_handler.rs:472-477 | a double quote that needs more input makes the line need more input |
| InputHandler.WordThenBlank | src/input_handler.rs:147-156 | a first word of ordinary characters followed by a blank becomes the first token |
| InputHandler.WordThenVariable | src/input_handler.rs:82-163 | a word, a blank and a set variable with a non-empty value give the word and the value |
| InputHandler.SetVariableExample | src/input_handler.rs:497-509 | `echo $SOME_KEY` with `SOME_KEY=VALUE` gives `echo` and `VALUE` |
| InputHandler.UnsetVariableExample | src/input_handler.rs:511-517 | `echo $NON_EXISTING` with the variable unset fails |
| InputHandler.WordThenSingleQuoted | src/input_handler.rs:114-153 | a word, a blank, a single-quoted text and a blank give the word and the quoted text |
| InputHandler.SingleQuoteExample | src/input_handler.rs:519-529 | `bla '~" $HOME\*' ` gives `bla` and `~" $HOME\*` |
| InputHandler.WordThenLostQuote | src/input_handler.rs:123-131 | a word followed by a double quote whose `$NAME` swallows the closing quote asks for more input |
| InputHandler.DoubleQuoteExample | src/input_handler.rs:530-543 | `bla "~ $SOME_KEY ./*'"` with `SOME_KEY=VALUE` asks for more input |
| InputHandler.Expand | src/input_handler.rs:74-168 | on success appends exactly the tokens `Expansion` gives after the existing contents; on failure or a request for more input returns that outcome and leaves the contents unchanged |
| Preprocessor.NextWord | src/preprocessor.rs:111-121 | the name after `$` is the longest prefix without whitespace; the whitespace after it is not consumed |
| Preprocessor.Token | src/preprocessor.rs:17-42 | every step consumes at least one character and only `$` consumes more |
| Preprocessor.UnchangedWithoutSpecials | src/preprocessor.rs:17-51 | text without `$`, `*` and `~` comes back unchanged |
| Preprocessor.NextWordStopsAtWhitespace | src/preprocessor.rs:111-121 | the name never reaches past a whitespace character |
| Preprocessor.TokenBeforeWhitespace | src/preprocessor.rs:54-61 | what a step emits does not depend on anything after the next whitespace |
| Preprocessor.WhitespaceSeparates | src/preprocessor.rs:33-38 | each whitespace character stays in place after the flushed buffer, and the text on each side is expanded independently |
| Preprocessor.VariableWord | src/preprocessor.rs:54-61 | `$NAME` before whitespace or the end becomes the value, or nothing when the name is unset or empty |
| Preprocessor.StarAndTilde | src/preprocessor.rs:22-31 | `*` is dropped; `~` becomes the home directory, or nothing without one |
| Preprocessor.WordThenVariable | src/preprocessor.rs:17-48 | a plain word, whitespace, `$NAME` and whitespace keep the word and both whitespace characters and replace the name by its value |
| Preprocessor.EnvExample | src/preprocessor.rs:126-130 | with `KEY=VALUE`, `echo $KEY` and a newline becomes `echo VALUE` and a newline |
| Preprocessor.GetNextWordWhitespace | src/preprocessor.rs:111-121 | the peek loop reads exactly `NextWord` |
| Preprocessor.Expand | src/preprocessor.rs:11-52 | the buffer-and-flush loop produces `Preprocessed` of the input |
| Redirections.IsRedirection | src/redirections.rs:8-10 | holds exactly for the operator spellings other than `2>>` and `2>&1` |
| Redirections.ClassifierMissesTwo | src/redirections.rs:8-24 | `2>>` and `2>&1` are operators `redirect` accepts that `is_redirection` rejects |
| Redirections.Dispatch | src/redirections.rs:15-24 | the function `redirect` calls serves the operator `from_str` gives for that spelling |
| Redirections.Redirect | src/redirections.rs:14-25 | opens the file in the mode `Redirection.ModeOf` gives the operator, and fails exactly when that opening fails |
| Redirections.RedirectModes | src/redirections.rs:27-80 | the write operators create and truncate, the append operators append and create, and `<` opens an existing file |

## Left out

- Process spawning, OS pipes and `wait` in `Step::run` are the `Runtime.spawn` parameter.
  The exit status is an input, not computed.
- Opening files, resolving socket addresses and reading a file to its end are the
  `FileSystem` parameter. Read and write failures on opened streams are not modelled.
  `Pipeline.Run` reads the input reader's bytes and writes without error.
- The cd and exit builtins (`src/builtin_functions/`, `src/builtins/`) are
  `Builtin.Implementations`, because they change the process's working directory or end
  it.
- `read_user_input`, the prompts and the secondary prompt are not modelled. The points
  where the secondary prompt would be read are the outcome `NeedsMoreInput`.
- The filesystem half of `expand_pathname_wildcard`: `exists`, `is_dir`, `read_dir`,
  child paths, stripping `./` and quoting entries. These are `Environment.glob`. Its
  entries are assumed free of `*`, so that re-reading them terminates.
- `dirs::home_dir` and `env::var` are parameters.
- `env::VarError::NotUnicode` is not modelled: every value is a string.
- `char::is_alphanumeric` is limited to ASCII letters and digits; `is_whitespace` is the
  full Unicode list.
- `expand_pathname` in `src/preprocessor.rs` does nothing observable and is not modelled.
- Redirections.Redirect: returns only whether opening succeeds, because the opened file
  is dropped by the source.
- Pipeline.Run: requires no more pipes than steps after the first (also on `RunSpec`),
  so the panic of `step_iter.next().unwrap()` at `src/pipeline.rs:161` when the pipes
  outnumber the remaining steps is not modelled. `Pipeline::new` is the only producer of
  a pipeline and always gives one pipe fewer than steps (`Pipeline.Parse`), so no parsed
  line reaches that panic.
- Pipeline.CutSteps: skips the pipe's characters with a slice rather than
  `strip_prefix`. The two agree, because the text at the bar is the pipe's text
  (`CutConsAt`).
- `Debug` implementations, `dbg!` output and the `bytes_test` test are not modelled.
- `src/config.rs`, `src/main.rs` and `src/lib.rs` are not part of this model.
