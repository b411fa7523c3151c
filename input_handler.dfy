/** The command-line tokenizer of `src/input_handler.rs`: the character state machine of
    `expand` (whitespace splitting, backslash escapes, single and double quotes, `$NAME`,
    `~` and `*`) and the pure pieces of wildcard matching.

    The process environment, the home directory and the directory listing behind `*` are
    parameters (an `Environment`). Where the source would open a secondary prompt to read
    more lines (an unclosed quote, a backslash before a newline), the model stops with the
    outcome `NeedsMoreInput`. */
module InputHandler {
  import opened Io
  import opened Text

  // ---------------------------------------------------------------------------
  // Errors, outcomes and the environment

  /** `ExpansionError`: a failed variable lookup or a failed wildcard expansion. */
  datatype ExpansionError = EnvVar(message: string) | WildcardMatch(message: string)

  /** The message of `env::VarError::NotPresent`. */
  const NotFoundMessage: string := "environment variable not found"

  /** The outcome of a step of the tokenizer: a value, an error, or the point where the
      source asks for another line on the secondary prompt. */
  datatype Lexed<+T> = Done(value: T) | Failed(error: ExpansionError) | NeedsMoreInput {
    predicate IsFailure() {
      !Done?
    }

    function PropagateFailure<U>(): Lexed<U>
      requires !Done?
    {
      if Failed? then Failed(error) else NeedsMoreInput
    }

    function Extract(): T
      requires Done?
    {
      value
    }
  }

  /** A directory entry offered to the tokenizer for re-reading. The model keeps entries
      free of `*`, so that re-reading them cannot expand forever. */
  type GlobEntry = s: string | '*' !in s

  /** What the filesystem part of `expand_pathname_wildcard` produces: the matching
      entries, already stripped of `./` and quoted when they hold whitespace, or the
      message of an I/O error. */
  datatype GlobResult = Globbed(entries: seq<GlobEntry>) | GlobFailed(message: string)

  /** The process environment (`env::var`), `dirs::home_dir`, and the directory listing
      and filtering of `expand_pathname_wildcard`, as a function of the expanded text
      before the `*` and the path that follows it. */
  datatype Environment = Environment(
    vars: map<string, string>,
    home: Option<string>,
    glob: (string, string) -> GlobResult)

  // ---------------------------------------------------------------------------
  // $NAME

  /** A character allowed in a variable name. */
  predicate IsNameChar(c: char) {
    IsAlphanumeric(c) || c == '_'
  }

  /** The variable name at the head of `s`: everything before the first character that is
      neither alphanumeric nor `_`. */
  function VarName(s: string): (name: string)
    ensures StartsWith(s, name)
    ensures forall k :: 0 <= k < |name| ==> IsNameChar(name[k])
    ensures |name| == |s| || !IsNameChar(s[|name|])
  {
    if s == [] || !IsNameChar(s[0]) then [] else [s[0]] + VarName(s[1..])
  }

  /** A name followed by the end of the input or by a non-name character is read whole. */
  lemma {:induction false} VarNameOfName(name: string, rest: string)
    requires forall k :: 0 <= k < |name| ==> IsNameChar(name[k])
    requires rest == [] || !IsNameChar(rest[0])
    ensures VarName(name + rest) == name
  {
    if name != [] {
      assert (name + rest)[1..] == name[1..] + rest;
      VarNameOfName(name[1..], rest);
    }
  }

  /** `expand_env_var`: the value of the variable named at the head of `input`, and the
      leftover input. The leftover is what `strip_suffix(name)` leaves: `input` without
      its last `|name|` characters when it ends with the name, and nothing otherwise. An
      empty name is never set. */
  function ExpandEnvVar(input: string, vars: map<string, string>): (r: Lexed<(string, string)>)
    ensures !r.NeedsMoreInput?
    ensures r.Failed? <==> VarName(input) == [] || VarName(input) !in vars
    ensures r.Failed? ==> r.error == EnvVar(NotFoundMessage)
    ensures r.Done? ==> r.value.0 == vars[VarName(input)]
    ensures r.Done? ==> StartsWith(input, r.value.1) && Count(r.value.1, '*') <= Count(input, '*')
    ensures r.Done? && VarName(input) == input ==> r.value.1 == []
    ensures r.Done? && EndsWith(input, VarName(input)) ==> r.value.1 == input[..|input| - |VarName(input)|]
    ensures r.Done? && !EndsWith(input, VarName(input)) ==> r.value.1 == []
  {
    var name := VarName(input);
    if name == [] || name !in vars then Failed(EnvVar(NotFoundMessage))
    else if EndsWith(input, name) then
      CountSlice(input, |input| - |name|, '*');
      Done((vars[name], input[..|input| - |name|]))
    else
      Done((vars[name], []))
  }

  /** The text after a set variable's name is lost whenever the input does not end with
      that name: the leftover is empty, not the text after the name. */
  lemma EnvVarLosesTrailingText(name: string, rest: string, vars: map<string, string>)
    requires name != [] && name in vars
    requires forall k :: 0 <= k < |name| ==> IsNameChar(name[k])
    requires rest != [] && !IsNameChar(rest[0])
    requires !EndsWith(name + rest, name)
    ensures ExpandEnvVar(name + rest, vars) == Done((vars[name], []))
  {
    VarNameOfName(name, rest);
  }

  /** When the input ends with a set variable's name, the leftover is the input without
      its last `|name|` characters, so the name itself is read again: after `$` in
      `$A x A` the leftover is `A x `. */
  lemma EnvVarRereadsName(name: string, rest: string, vars: map<string, string>)
    requires name != [] && name in vars
    requires forall k :: 0 <= k < |name| ==> IsNameChar(name[k])
    requires rest != [] && !IsNameChar(rest[0])
    ensures ExpandEnvVar(name + rest + name, vars) == Done((vars[name], name + rest))
  {
    assert name + rest + name == name + (rest + name);
    VarNameOfName(name, rest + name);
    assert (name + rest + name)[..|name + rest|] == name + rest;
  }

  // ---------------------------------------------------------------------------
  // Quotes

  /** Adds `prefix` in front of the text a quote step appended to the buffer. */
  function Prepended(prefix: string, r: Lexed<(string, string)>): Lexed<(string, string)> {
    match r
    case Done(v) => Done((prefix + v.0, v.1))
    case _ => r
  }

  lemma PrependedTwice(a: string, b: string, r: Lexed<(string, string)>)
    ensures Prepended(a, Prepended(b, r)) == Prepended(a + b, r)
  {
    if r.Done? {
      assert a + (b + r.value.0) == (a + b) + r.value.0;
    }
  }

  /** Text up to the first `q`, kept verbatim, and the leftover after that `q`. */
  function Verbatim(s: string, q: char): (r: Lexed<(string, string)>)
    ensures !r.Failed?
    ensures r.NeedsMoreInput? <==> q !in s
    ensures r.Done? ==> s == r.value.0 + [q] + r.value.1 && q !in r.value.0
    ensures r.Done? ==> |r.value.1| < |s| && Count(r.value.1, '*') <= Count(s, '*')
  {
    match Find(s, q)
    case None => NeedsMoreInput
    case Some(i) =>
      assert s == s[..i] + [q] + s[i + 1..];
      CountSlice(s, i + 1, '*');
      Done((s[..i], s[i + 1..]))
  }

  /** `single_quote_supression` on the text after an opening `'`: the quoted text, copied
      verbatim, and the leftover after the closing `'`. */
  function SingleQuoted(s: string): (r: Lexed<(string, string)>)
    ensures r == Verbatim(s, '\'')
  {
    Verbatim(s, '\'')
  }

  /** `double_quote_supression` on the text after an opening `"`: `$NAME` is expanded, every
      other character up to the closing `"` is copied verbatim. */
  function DoubleQuoted(s: string, vars: map<string, string>): (r: Lexed<(string, string)>)
    ensures r.Failed? ==> r.error == EnvVar(NotFoundMessage)
    ensures r.Done? ==> |r.value.1| < |s| && Count(r.value.1, '*') <= Count(s, '*')
    decreases |s|
  {
    if s == [] then NeedsMoreInput
    else if s[0] == '"' then Done(([], s[1..]))
    else if s[0] == '$' then
      var e :- ExpandEnvVar(s[1..], vars);
      Prepended(e.0, DoubleQuoted(e.1, vars))
    else
      Prepended([s[0]], DoubleQuoted(s[1..], vars))
  }

  /** A first character other than the quote is copied in front of the rest. */
  lemma VerbatimStep(s: string, q: char)
    requires s != [] && s[0] != q
    ensures Verbatim(s, q) == Prepended([s[0]], Verbatim(s[1..], q))
  {
    match Find(s[1..], q)
    case None =>
    case Some(i) =>
      assert Find(s, q) == Some(i + 1);
      assert s[..i + 1] == [s[0]] + s[1..][..i];
      assert s[i + 2..] == s[1..][i + 1..];
  }

  /** Without `$`, double quotes copy verbatim exactly as single quotes do. */
  lemma {:induction false} DoubleQuotedWithoutDollar(s: string, vars: map<string, string>)
    requires '$' !in s
    ensures DoubleQuoted(s, vars) == Verbatim(s, '"')
    decreases |s|
  {
    if s != [] && s[0] != '"' {
      assert '$' !in s[1..] by {
        assert forall k :: 0 <= k < |s[1..]| ==> s[1..][k] == s[k + 1];
      }
      DoubleQuotedWithoutDollar(s[1..], vars);
      assert DoubleQuoted(s, vars) == Prepended([s[0]], DoubleQuoted(s[1..], vars));
      VerbatimStep(s, '"');
    }
  }

  /** The single-quote loop: appends the quoted text to `buffer` and returns the leftover. */
  method SingleQuoteSuppression(input: string, buffer: string) returns (r: Lexed<(string, string)>)
    ensures r == Prepended(buffer, SingleQuoted(input))
  {
    var foundPair := false;
    var expanded := buffer;
    var i := 0;
    while i < |input| && !foundPair
      invariant 0 <= i <= |input|
      invariant !foundPair ==> '\'' !in input[..i] && expanded == buffer + input[..i]
      invariant foundPair ==> 0 < i && input[i - 1] == '\'' && '\'' !in input[..i - 1]
      invariant foundPair ==> expanded == buffer + input[..i - 1]
    {
      var c := input[i];
      assert input[..i + 1] == input[..i] + [c];
      i := i + 1;
      if c == '\'' {
        foundPair := true;
      } else {
        expanded := expanded + [c];
      }
    }
    if !foundPair {
      assert input[..i] == input;
      return NeedsMoreInput;
    }
    assert input == input[..i - 1] + ['\''] + input[i..];
    assert Find(input, '\'') == Some(i - 1);
    r := Done((expanded, input[i..]));
  }

  /** The double-quote loop: appends the quoted text, with `$NAME` expanded, to `buffer`
      and returns the leftover. */
  method DoubleQuoteSuppression(input: string, buffer: string, vars: map<string, string>)
    returns (r: Lexed<(string, string)>)
    ensures r == Prepended(buffer, DoubleQuoted(input, vars))
  {
    var rest := input;
    var expanded := buffer;
    while rest != []
      invariant Prepended(expanded, DoubleQuoted(rest, vars)) == Prepended(buffer, DoubleQuoted(input, vars))
      decreases |rest|
    {
      var c := rest[0];
      if c == '$' {
        var e := ExpandEnvVar(rest[1..], vars);
        if !e.Done? {
          return e.PropagateFailure();
        }
        PrependedTwice(expanded, e.value.0, DoubleQuoted(e.value.1, vars));
        expanded, rest := expanded + e.value.0, e.value.1;
      } else if c == '"' {
        assert expanded + [] == expanded;
        return Done((expanded, rest[1..]));
      } else {
        PrependedTwice(expanded, [c], DoubleQuoted(rest[1..], vars));
        expanded, rest := expanded + [c], rest[1..];
      }
    }
    r := NeedsMoreInput;
  }

  // ---------------------------------------------------------------------------
  // Wildcards

  /** `str::contains` of every intermediate, folded left from `acc` as the source does. */
  function FoldContains(entry: string, acc: bool, intermediates: seq<string>): bool {
    if intermediates == [] then acc
    else FoldContains(entry, acc && Contains(entry, intermediates[0]), intermediates[1..])
  }

  lemma {:induction false} FoldContainsAll(entry: string, acc: bool, intermediates: seq<string>)
    ensures FoldContains(entry, acc, intermediates)
        <==> acc && forall k :: 0 <= k < |intermediates| ==> Contains(entry, intermediates[k])
  {
    if intermediates != [] {
      FoldContainsAll(entry, acc && Contains(entry, intermediates[0]), intermediates[1..]);
      assert forall k :: 1 <= k < |intermediates| ==> intermediates[k] == intermediates[1..][k - 1];
    }
  }

  /** `is_wildcard_match`: the entry starts with the prefix, ends with the suffix and holds
      every intermediate somewhere. */
  function IsWildcardMatch(entry: string, prefix: string, intermediates: seq<string>, suffix: string): (b: bool)
    ensures b <==> StartsWith(entry, prefix) && EndsWith(entry, suffix)
                   && forall k :: 0 <= k < |intermediates| ==> Contains(entry, intermediates[k])
  {
    FoldContainsAll(entry, true, intermediates);
    StartsWith(entry, prefix) && EndsWith(entry, suffix) && FoldContains(entry, true, intermediates)
  }

  /** The first component of a relative path when it is a `Component::Normal`: the text
      before the first `/`, unless the path is empty, starts at the root, or starts with
      `.` or `..`. */
  function FirstNormalComponent(path: string): (r: Option<string>)
    ensures r.Some? ==> r.value != [] && '/' !in r.value && StartsWith(path, r.value)
    ensures r.Some? ==> |r.value| == |path| || path[|r.value|] == '/'
    ensures r.Some? ==> r.value != "." && r.value != ".."
  {
    var first := match Find(path, '/') case None => path case Some(i) => path[..i];
    if first == [] || first == "." || first == ".." then None else Some(first)
  }

  /** The `*`-split of `get_wildcard_components`: the pieces of the first path component
      between its `*`s; the last piece is the suffix, the earlier ones the intermediates. */
  function WildcardPieces(path: string): (r: (seq<string>, Option<string>))
    ensures r.1.None? <==> FirstNormalComponent(path).None?
    ensures r.1.None? ==> r.0 == []
    ensures r.1.Some? ==> JoinWith(r.0 + [r.1.value], '*') == FirstNormalComponent(path).value
    ensures r.1.Some? ==> |r.0| == Count(FirstNormalComponent(path).value, '*')
    ensures forall k :: 0 <= k < |r.0| ==> '*' !in r.0[k]
    ensures r.1.Some? ==> '*' !in r.1.value
  {
    match FirstNormalComponent(path)
    case None => ([], None)
    case Some(component) =>
      var parts := SplitOn(component, '*');
      assert parts == parts[..|parts| - 1] + [parts[|parts| - 1]];
      (parts[..|parts| - 1], Some(parts[|parts| - 1]))
  }

  /** A component without `*` is all suffix. */
  lemma WildcardPiecesWithoutStar(path: string)
    requires FirstNormalComponent(path).Some? && '*' !in FirstNormalComponent(path).value
    ensures WildcardPieces(path) == ([], FirstNormalComponent(path))
  {
    CountAbsent(FirstNormalComponent(path).value, '*');
  }

  /** A component free of `/` followed by nothing or by `/` is the first component. */
  lemma FirstNormalComponentOf(component: string, child: string)
    requires '/' !in component && component != [] && component != "." && component != ".."
    requires child == [] || child[0] == '/'
    ensures FirstNormalComponent(component + child) == Some(component)
  {
    if child == [] {
      assert component + child == component;
    } else {
      assert component + child == component + ['/'] + child[1..];
      FindAfter(component, '/', child[1..]);
      assert (component + child)[..|component|] == component;
    }
  }

  /** The inverse of the split: a component written as pieces joined by `*` is split back
      into those pieces, the last one as suffix. */
  lemma WildcardPiecesOfJoin(pieces: seq<string>, child: string)
    requires |pieces| > 0
    requires forall k :: 0 <= k < |pieces| ==> '*' !in pieces[k] && '/' !in pieces[k]
    requires var c := JoinWith(pieces, '*'); c != [] && c != "." && c != ".."
    requires child == [] || child[0] == '/'
    ensures WildcardPieces(JoinWith(pieces, '*') + child)
         == (pieces[..|pieces| - 1], Some(pieces[|pieces| - 1]))
  {
    JoinWithout(pieces, '*', '/');
    FirstNormalComponentOf(JoinWith(pieces, '*'), child);
    SplitOnJoinWith(pieces, '*');
  }

  lemma JoinThree(a: string, b: string, c: string, sep: char)
    ensures JoinWith([a, b, c], sep) == a + [sep] + (b + [sep] + c)
  {
    assert [a, b, c][1..] == [b, c] && [b, c][1..] == [c];
    assert JoinWith([b, c], sep) == b + [sep] + JoinWith([c], sep);
  }

  /** A first component with two `*`s has two intermediates and a suffix. */
  lemma ThreePieces(x: string, y: string, z: string, child: string)
    requires x != [] && '*' !in x && '/' !in x && '*' !in y && '/' !in y && '*' !in z && '/' !in z
    requires child == [] || child[0] == '/'
    ensures WildcardPieces(x + ['*'] + (y + ['*'] + z) + child) == ([x, y], Some(z))
  {
    var pieces := [x, y, z];
    JoinThree(x, y, z, '*');
    assert |JoinWith(pieces, '*')| > 2;
    WildcardPiecesOfJoin(pieces, child);
    assert pieces[..2] == [x, y];
  }

  /** With `a*b*c.txt/sub`, the intermediates are `a` and `b` and the suffix `c.txt`. */
  lemma WildcardPiecesExample(path: string)
    requires path == "a*b*c.txt/sub"
    ensures WildcardPieces(path) == (["a", "b"], Some("c.txt"))
  {
    var x, y, z, child := "a", "b", "c.txt", "/sub";
    assert path == x + ['*'] + (y + ['*'] + z) + child;
    ThreePieces(x, y, z, child);
  }

  /** The text the main loop re-reads after a `*`: the entries separated by blanks and
      followed by the input after the wildcard word. */
  function Rejoined(entries: seq<GlobEntry>, after: string): (r: string)
    ensures entries == [] ==> r == after
    ensures Count(r, '*') == Count(after, '*')
  {
    if entries == [] then after
    else
      CountJoinWithout(entries);
      var joined := JoinWith(entries, ' ');
      var tail := if after == [] then [] else " " + after;
      CountAppend(joined, tail, '*');
      CountAppend(" ", after, '*');
      joined + tail
  }

  lemma {:induction false} CountJoinWithout(entries: seq<GlobEntry>)
    requires |entries| > 0
    ensures Count(JoinWith(entries, ' '), '*') == 0
  {
    CountAbsent(entries[0], '*');
    if |entries| > 1 {
      CountJoinWithout(entries[1..]);
      CountAppend(entries[0] + " ", JoinWith(entries[1..], ' '), '*');
      CountAppend(entries[0], " ", '*');
    }
  }

  /** `expand_pathname_wildcard` on the input after a `*`: the wildcard word ends at the
      first whitespace; the matching entries replace it and the current token. */
  function ExpandWildcard(buffer: string, input: string, env: Environment): (r: Lexed<string>)
    ensures !r.NeedsMoreInput?
    ensures r.Failed? <==> env.glob(buffer, SplitOnceWhitespace(input).0).GlobFailed?
    ensures r.Failed? ==> r.error == WildcardMatch(env.glob(buffer, SplitOnceWhitespace(input).0).message)
    ensures r.Done? ==> Count(r.value, '*') <= Count(input, '*')
  {
    var split := SplitOnceWhitespace(input);
    assert Count(split.1, '*') <= Count(input, '*') by {
      if split.0 != input {
        CountSlice(input, |split.0| + 1, '*');
      }
    }
    match env.glob(buffer, split.0)
    case GlobFailed(message) => Failed(WildcardMatch(message))
    case Globbed(entries) => Done(Rejoined(entries, split.1))
  }

  // ---------------------------------------------------------------------------
  // expand

  /** What `~` adds: the home directory, when there is one and the `~` is followed by `/`
      or whitespace. */
  function HomeAfterTilde(after: string, home: Option<string>): (h: string)
    ensures h != [] ==> home.Some? && h == home.value
    ensures home.Some? && after != [] && (after[0] == '/' || IsWhitespace(after[0])) ==> h == home.value
    ensures after == [] || (after[0] != '/' && !IsWhitespace(after[0])) ==> h == []
  {
    if after != [] && (after[0] == '/' || IsWhitespace(after[0])) && home.Some? then home.value else []
  }

  /** The tokens `expand` produces from `rest`, given the token under construction
      (`buffer`) and the tokens already finished. */
  function Expansion(rest: string, buffer: string, tokens: seq<string>, env: Environment): Lexed<seq<string>>
    decreases Count(rest, '*'), |rest|
  {
    if rest == [] then
      Done(if buffer == [] then tokens else tokens + [buffer])
    else
      var c, after := rest[0], rest[1..];
      if c == '$' then
        var e :- ExpandEnvVar(after, env.vars);
        Expansion(e.1, buffer + e.0, tokens, env)
      else if c == '*' then
        var next :- ExpandWildcard(buffer, after, env);
        Expansion(next, [], tokens, env)
      else if c == '~' then
        Expansion(after, buffer + HomeAfterTilde(after, env.home), tokens, env)
      else if c == '\'' then
        var q :- SingleQuoted(after);
        Expansion(q.1, buffer + q.0, tokens, env)
      else if c == '"' then
        var q :- DoubleQuoted(after, env.vars);
        Expansion(q.1, buffer + q.0, tokens, env)
      else if c == '\\' then
        if after == [] then Expansion(after, buffer, tokens, env)
        else if after[0] == '\n' then NeedsMoreInput
        else Expansion(after[1..], buffer + [after[0]], tokens, env)
      else if IsWhitespace(c) then
        Expansion(after, [], tokens + [buffer], env)
      else
        Expansion(after, buffer + [c], tokens, env)
  }

  /** Adds `prefix` in front of the tokens of an outcome. */
  function PrefixTokens(prefix: seq<string>, r: Lexed<seq<string>>): Lexed<seq<string>> {
    match r
    case Done(v) => Done(prefix + v)
    case _ => r
  }

  /** Finished tokens are never changed or dropped: expanding with some tokens already
      finished yields those tokens followed by what expanding alone yields, and fails
      exactly when that fails. */
  lemma {:induction false} ExpansionKeepsTokens(rest: string, buffer: string, tokens: seq<string>, env: Environment)
    ensures Expansion(rest, buffer, tokens, env) == PrefixTokens(tokens, Expansion(rest, buffer, [], env))
    decreases Count(rest, '*'), |rest|
  {
    if rest == [] {
      assert [] + [buffer] == [buffer];
      assert tokens + [] == tokens;
    } else {
      var c, after := rest[0], rest[1..];
      assert Count(rest, '*') == (if c == '*' then 1 else 0) + Count(after, '*');
      if c == '$' {
        var e := ExpandEnvVar(after, env.vars);
        if e.Done? {
          ExpansionKeepsTokens(e.value.1, buffer + e.value.0, tokens, env);
        }
      } else if c == '*' {
        var next := ExpandWildcard(buffer, after, env);
        if next.Done? {
          ExpansionKeepsTokens(next.value, [], tokens, env);
        }
      } else if c == '~' {
        ExpansionKeepsTokens(after, buffer + HomeAfterTilde(after, env.home), tokens, env);
      } else if c == '\'' {
        var q := SingleQuoted(after);
        if q.Done? {
          ExpansionKeepsTokens(q.value.1, buffer + q.value.0, tokens, env);
        }
      } else if c == '"' {
        var q := DoubleQuoted(after, env.vars);
        if q.Done? {
          ExpansionKeepsTokens(q.value.1, buffer + q.value.0, tokens, env);
        }
      } else if c == '\\' {
        if after == [] {
          ExpansionKeepsTokens(after, buffer, tokens, env);
        } else if after[0] != '\n' {
          ExpansionKeepsTokens(after[1..], buffer + [after[0]], tokens, env);
        }
      } else if IsWhitespace(c) {
        ExpansionKeepsTokens(after, [], tokens + [buffer], env);
        ExpansionKeepsTokens(after, [], [buffer], env);
        assert [] + [buffer] == [buffer];
        var r := Expansion(after, [], [], env);
        if r.Done? {
          assert (tokens + [buffer]) + r.value == tokens + ([buffer] + r.value);
        }
      } else {
        ExpansionKeepsTokens(after, buffer + [c], tokens, env);
      }
    }
  }

  // ---------------------------------------------------------------------------
  // Input without special characters

  /** The characters the state machine treats specially (besides whitespace). */
  predicate IsSpecial(c: char) {
    c == '$' || c == '*' || c == '~' || c == '\'' || c == '"' || c == '\\'
  }

  predicate IsPlain(s: string) {
    forall k :: 0 <= k < |s| ==> !IsSpecial(s[k])
  }

  /** The pieces of `s` between its whitespace characters, empty pieces included, the
      first of them continuing `piece`. */
  function FieldsFrom(s: string, piece: string): (f: seq<string>)
    requires NoWhitespace(piece)
    ensures |f| > 0
    ensures forall k :: 0 <= k < |f| ==> NoWhitespace(f[k])
    decreases |s|
  {
    if s == [] then [piece]
    else if IsWhitespace(s[0]) then [piece] + FieldsFrom(s[1..], [])
    else FieldsFrom(s[1..], piece + [s[0]])
  }

  /** The pieces without the last one when that is empty. */
  function DropEmptyLast(f: seq<string>): (r: seq<string>)
    ensures |f| > 0 && f[|f| - 1] == [] ==> r == f[..|f| - 1]
    ensures |f| == 0 || f[|f| - 1] != [] ==> r == f
  {
    if |f| > 0 && f[|f| - 1] == [] then f[..|f| - 1] else f
  }

  lemma DropEmptyLastAfter(a: seq<string>, b: seq<string>)
    requires |b| > 0
    ensures DropEmptyLast(a + b) == a + DropEmptyLast(b)
  {
    if b[|b| - 1] == [] {
      assert (a + b)[..|a + b| - 1] == a + b[..|b| - 1];
    }
  }

  /** One ordinary character: whitespace ends the token, anything else is appended. */
  lemma PlainStep(s: string, buffer: string, tokens: seq<string>, env: Environment)
    requires s != [] && !IsSpecial(s[0])
    ensures IsWhitespace(s[0]) ==> Expansion(s, buffer, tokens, env) == Expansion(s[1..], [], tokens + [buffer], env)
    ensures !IsWhitespace(s[0]) ==> Expansion(s, buffer, tokens, env) == Expansion(s[1..], buffer + [s[0]], tokens, env)
  {
  }

  /** On text without special characters, every whitespace character ends a token (so
      consecutive whitespace yields empty tokens) and only a trailing empty token is
      dropped. `buffer` is the start of the first token. */
  lemma {:induction false} PlainExpansion(s: string, buffer: string, tokens: seq<string>, env: Environment)
    requires IsPlain(s) && NoWhitespace(buffer)
    ensures Expansion(s, buffer, tokens, env) == Done(tokens + DropEmptyLast(FieldsFrom(s, buffer)))
    decreases |s|
  {
    if s == [] {
      assert FieldsFrom(s, buffer) == [buffer];
      if buffer == [] {
        assert DropEmptyLast([buffer]) == [];
        assert tokens + [] == tokens;
      }
    } else {
      var c, after := s[0], s[1..];
      assert IsPlain(after) by {
        assert forall k :: 0 <= k < |after| ==> after[k] == s[k + 1];
      }
      PlainStep(s, buffer, tokens, env);
      if IsWhitespace(c) {
        PlainExpansion(after, [], tokens + [buffer], env);
        var f := FieldsFrom(after, []);
        DropEmptyLastAfter([buffer], f);
        assert (tokens + [buffer]) + DropEmptyLast(f) == tokens + ([buffer] + DropEmptyLast(f));
      } else {
        PlainExpansion(after, buffer + [c], tokens, env);
      }
    }
  }

  /** A line without special characters expands to its whitespace-separated pieces,
      without a trailing empty one. */
  lemma PlainInput(s: string, env: Environment)
    requires IsPlain(s)
    ensures Expansion(s, [], [], env) == Done(DropEmptyLast(FieldsFrom(s, [])))
  {
    PlainExpansion(s, [], [], env);
    assert [] + DropEmptyLast(FieldsFrom(s, [])) == DropEmptyLast(FieldsFrom(s, []));
  }

  /** A word of ordinary characters is appended to the current token. */
  lemma {:induction false} PlainWord(w: string, rest: string, buffer: string, tokens: seq<string>, env: Environment)
    requires IsPlain(w) && NoWhitespace(w)
    ensures Expansion(w + rest, buffer, tokens, env) == Expansion(rest, buffer + w, tokens, env)
  {
    if w == [] {
      assert w + rest == rest && buffer + w == buffer;
    } else {
      assert (w + rest)[0] == w[0] && (w + rest)[1..] == w[1..] + rest;
      assert !IsSpecial(w[0]) && !IsWhitespace(w[0]);
      assert IsPlain(w[1..]) && NoWhitespace(w[1..]) by {
        assert forall k :: 0 <= k < |w[1..]| ==> w[1..][k] == w[k + 1];
      }
      PlainWord(w[1..], rest, buffer + [w[0]], tokens, env);
      assert (buffer + [w[0]]) + w[1..] == buffer + w;
    }
  }

  // ---------------------------------------------------------------------------
  // Escapes and quotes

  /** `w` with a backslash before each character. */
  function Escaped(w: string): (e: string)
    ensures |e| == 2 * |w|
  {
    if w == [] then [] else ['\\', w[0]] + Escaped(w[1..])
  }

  /** A backslash makes the next character literal: escaping every character of a word
      without newlines appends the word itself, special characters and whitespace
      included. */
  lemma {:induction false} EscapedIsLiteral(w: string, rest: string, buffer: string, tokens: seq<string>, env: Environment)
    requires '\n' !in w
    ensures Expansion(Escaped(w) + rest, buffer, tokens, env) == Expansion(rest, buffer + w, tokens, env)
  {
    if w == [] {
      assert Escaped(w) + rest == rest && buffer + w == buffer;
    } else {
      var s := Escaped(w) + rest;
      assert s == ['\\', w[0]] + (Escaped(w[1..]) + rest);
      assert s[0] == '\\' && s[1..][0] == w[0] && s[1..][1..] == Escaped(w[1..]) + rest;
      assert w[0] != '\n';
      assert '\n' !in w[1..];
      EscapedIsLiteral(w[1..], rest, buffer + [w[0]], tokens, env);
      assert (buffer + [w[0]]) + w[1..] == buffer + w;
    }
  }

  /** Single quotes copy their contents verbatim, with no expansion at all. */
  lemma SingleQuotedIsLiteral(q: string, rest: string, buffer: string, tokens: seq<string>, env: Environment)
    requires '\'' !in q
    ensures Expansion("'" + q + "'" + rest, buffer, tokens, env) == Expansion(rest, buffer + q, tokens, env)
  {
    var s := "'" + q + "'" + rest;
    assert s[0] == '\'' && s[1..] == q + ['\''] + rest;
    FindAfter(q, '\'', rest);
    assert (q + ['\''] + rest)[..|q|] == q;
    assert (q + ['\''] + rest)[|q| + 1..] == rest;
  }

  /** `~` itself is never copied: it becomes the home directory before `/` or whitespace
      when there is one, and nothing otherwise. */
  lemma TildeRule(rest: string, buffer: string, tokens: seq<string>, env: Environment)
    ensures env.home.Some? && rest != [] && (rest[0] == '/' || IsWhitespace(rest[0]))
        ==> Expansion(['~'] + rest, buffer, tokens, env) == Expansion(rest, buffer + env.home.value, tokens, env)
    ensures env.home.None? || rest == [] || (rest[0] != '/' && !IsWhitespace(rest[0]))
        ==> Expansion(['~'] + rest, buffer, tokens, env) == Expansion(rest, buffer, tokens, env)
  {
    assert (['~'] + rest)[1..] == rest;
    assert buffer + [] == buffer;
  }

  /** A backslash at the end of the input is dropped; one before a newline asks for the
      next line. */
  lemma BackslashAtEnd(rest: string, buffer: string, tokens: seq<string>, env: Environment)
    ensures Expansion(['\\'], buffer, tokens, env) == Expansion([], buffer, tokens, env)
    ensures Expansion(['\\', '\n'] + rest, buffer, tokens, env) == NeedsMoreInput
  {
    assert (['\\', '\n'] + rest)[1..] == ['\n'] + rest;
  }

  // ---------------------------------------------------------------------------
  // Examples

  /** Unquoted whitespace ends the current token, even an empty one. */
  lemma WhitespaceEndsToken(c: char, rest: string, buffer: string, tokens: seq<string>, env: Environment)
    requires IsWhitespace(c)
    ensures Expansion([c] + rest, buffer, tokens, env) == Expansion(rest, [], tokens + [buffer], env)
  {
    assert ([c] + rest)[1..] == rest;
  }

  /** A set variable whose name ends the line appends its value to the current token. */
  lemma VariableEndsLine(name: string, buffer: string, tokens: seq<string>, env: Environment)
    requires forall k :: 0 <= k < |name| ==> IsNameChar(name[k])
    requires name != [] && name in env.vars
    ensures Expansion("$" + name, buffer, tokens, env) == Expansion([], buffer + env.vars[name], tokens, env)
  {
    assert ("$" + name)[1..] == name;
    VarNameOfName(name, []);
    assert name + [] == name;
  }

  /** A first word of ordinary characters followed by a blank becomes the first token. */
  lemma WordThenBlank(word: string, rest: string, env: Environment)
    requires IsPlain(word) && NoWhitespace(word)
    ensures Expansion(word + [' '] + rest, [], [], env) == Expansion(rest, [], [word], env)
  {
    assert Expansion(word + [' '] + rest, [], [], env) == Expansion([' '] + rest, word, [], env) by {
      assert word + [' '] + rest == word + ([' '] + rest);
      PlainWord(word, [' '] + rest, [], [], env);
      assert [] + word == word;
    }
    WhitespaceEndsToken(' ', rest, word, [], env);
    assert [] + [word] == [word];
  }

  /** A word, a blank and a set variable give the word and the variable's value. */
  lemma WordThenVariable(word: string, name: string, env: Environment)
    requires IsPlain(word) && NoWhitespace(word)
    requires forall k :: 0 <= k < |name| ==> IsNameChar(name[k])
    requires name != [] && name in env.vars && env.vars[name] != []
    ensures Expansion(word + [' '] + ("$" + name), [], [], env) == Done([word, env.vars[name]])
  {
    WordThenBlank(word, "$" + name, env);
    var value := env.vars[name];
    VariableEndsLine(name, [], [word], env);
    assert [] + value == value;
    assert [word] + [value] == [word, value];
  }

  /** `echo $SOME_KEY` with `SOME_KEY=VALUE` gives the tokens `echo` and `VALUE`. */
  lemma SetVariableExample(line: string, env: Environment)
    requires line == "echo $SOME_KEY"
    requires "SOME_KEY" in env.vars && env.vars["SOME_KEY"] == "VALUE"
    ensures Expansion(line, [], [], env) == Done(["echo", "VALUE"])
  {
    var word, name := "echo", "SOME_KEY";
    assert line == word + [' '] + ("$" + name);
    assert IsPlain(word) && NoWhitespace(word);
    assert forall k :: 0 <= k < |name| ==> IsNameChar(name[k]);
    WordThenVariable(word, name, env);
  }

  /** An unset variable makes the whole line fail, whatever follows it. */
  lemma UnsetVariableFails(name: string, rest: string, buffer: string, tokens: seq<string>, env: Environment)
    requires forall k :: 0 <= k < |name| ==> IsNameChar(name[k])
    requires rest == [] || !IsNameChar(rest[0])
    requires name !in env.vars
    ensures Expansion("$" + name + rest, buffer, tokens, env) == Failed(EnvVar(NotFoundMessage))
  {
    assert ("$" + name + rest)[1..] == name + rest;
    VarNameOfName(name, rest);
  }

  /** `echo $NON_EXISTING` with the variable unset fails. */
  lemma UnsetVariableExample(line: string, env: Environment)
    requires line == "echo $NON_EXISTING" && "NON_EXISTING" !in env.vars
    ensures Expansion(line, [], [], env) == Failed(EnvVar(NotFoundMessage))
  {
    var word, name := "echo", "NON_EXISTING";
    assert line == word + [' '] + ("$" + name + []);
    assert IsPlain(word) && NoWhitespace(word);
    assert forall k :: 0 <= k < |name| ==> IsNameChar(name[k]);
    WordThenBlank(word, "$" + name + [], env);
    UnsetVariableFails(name, [], [], [word], env);
  }

  /** Text without `$` or `"` is copied verbatim at the start of a double-quoted string. */
  lemma {:induction false} DoubleQuotedPlainPrefix(p: string, s: string, vars: map<string, string>)
    requires '$' !in p && '"' !in p
    ensures DoubleQuoted(p + s, vars) == Prepended(p, DoubleQuoted(s, vars))
  {
    if p == [] {
      assert p + s == s;
      PrependedEmpty(DoubleQuoted(s, vars));
    } else {
      assert (p + s)[0] == p[0] && (p + s)[1..] == p[1..] + s;
      assert '$' !in p[1..] && '"' !in p[1..];
      DoubleQuotedPlainPrefix(p[1..], s, vars);
      PrependedTwice([p[0]], p[1..], DoubleQuoted(s, vars));
      assert [p[0]] + p[1..] == p;
    }
  }

  lemma PrependedEmpty(r: Lexed<(string, string)>)
    ensures Prepended([], r) == r
  {
    if r.Done? {
      assert [] + r.value.0 == r.value.0;
    }
  }

  /** Inside double quotes, a set variable whose name the quoted text does not end with
      discards everything after the name, the closing quote included, so the line asks
      for more input. */
  lemma DoubleQuotedLosesClosingQuote(p: string, name: string, rest: string, vars: map<string, string>)
    requires '$' !in p && '"' !in p
    requires forall k :: 0 <= k < |name| ==> IsNameChar(name[k])
    requires name != [] && name in vars
    requires rest != [] && !IsNameChar(rest[0]) && !EndsWith(name + rest, name)
    ensures DoubleQuoted(p + ("$" + (name + rest)), vars) == NeedsMoreInput
  {
    DoubleQuotedPlainPrefix(p, "$" + (name + rest), vars);
    assert ("$" + (name + rest))[1..] == name + rest;
    EnvVarLosesTrailingText(name, rest, vars);
  }

  /** A word, a blank and a double-quoted text in which a set variable's name is followed by
      text the quoted text does not end with: the line asks for more input. */
  lemma WordThenLostQuote(word: string, p: string, name: string, rest: string, env: Environment)
    requires IsPlain(word) && NoWhitespace(word)
    requires '$' !in p && '"' !in p
    requires forall k :: 0 <= k < |name| ==> IsNameChar(name[k])
    requires name != [] && name in env.vars
    requires rest != [] && !IsNameChar(rest[0]) && !EndsWith(name + rest, name)
    ensures Expansion(word + [' '] + (['"'] + (p + ("$" + (name + rest)))), [], [], env) == NeedsMoreInput
  {
    var quoted := p + ("$" + (name + rest));
    DoubleQuotedLosesClosingQuote(p, name, rest, env.vars);
    WordThenBlank(word, ['"'] + quoted, env);
    UnclosedDoubleQuote(quoted, [], [word], env);
  }

  // A double-quoted `~`, blank, `$SOME_KEY`, blank and `./` + `*'` with `SOME_KEY` set asks
  // for more input: the closing quote is lost with the text after the variable name.
  lemma DoubleQuoteExample(line: string, env: Environment)
    requires line == "bla \"~ $SOME_KEY ./*'\""
    requires "SOME_KEY" in env.vars
    ensures Expansion(line, [], [], env) == NeedsMoreInput
  {
    var word, p, name, rest := "bla", "~ ", "SOME_KEY", " ./*'\"";
    assert line == word + [' '] + (['"'] + (p + ("$" + (name + rest))));
    assert IsPlain(word) && NoWhitespace(word) && '$' !in p && '"' !in p;
    assert forall k :: 0 <= k < |name| ==> IsNameChar(name[k]);
    assert !EndsWith(name + rest, name) by {
      assert (name + rest)[|name + rest| - |name|..][0] == 'E' != name[0];
    }
    WordThenLostQuote(word, p, name, rest, env);
  }

  /** A double quote whose text asks for more input makes the line ask for more input. */
  lemma UnclosedDoubleQuote(quoted: string, buffer: string, tokens: seq<string>, env: Environment)
    requires DoubleQuoted(quoted, env.vars) == NeedsMoreInput
    ensures Expansion(['"'] + quoted, buffer, tokens, env) == NeedsMoreInput
  {
    assert (['"'] + quoted)[1..] == quoted;
  }

  /** A word, a blank, a single-quoted text and a blank give the word and the quoted text. */
  lemma WordThenSingleQuoted(word: string, q: string, env: Environment)
    requires IsPlain(word) && NoWhitespace(word) && '\'' !in q
    ensures Expansion(word + [' '] + ("'" + q + "'" + " "), [], [], env) == Done([word, q])
  {
    var rest := "'" + q + "'" + " ";
    WordThenBlank(word, rest, env);
    assert Expansion(rest, [], [word], env) == Expansion([' '], q, [word], env) by {
      SingleQuotedIsLiteral(q, " ", [], [word], env);
      assert [] + q == q;
    }
    assert Expansion([' '], q, [word], env) == Done([word, q]) by {
      WhitespaceEndsToken(' ', [], q, [word], env);
      assert [' '] + [] == [' '];
      assert [word] + [q] == [word, q];
    }
  }

  /** `bla '~" $HOME\*' ` gives `bla` and the quoted text unexpanded. */
  lemma SingleQuoteExample(line: string, env: Environment)
    requires line == "bla '~\" $HOME\\*' "
    ensures Expansion(line, [], [], env) == Done(["bla", "~\" $HOME\\*"])
  {
    var word, q := "bla", "~\" $HOME\\*";
    assert line == word + [' '] + ("'" + q + "'" + " ");
    assert IsPlain(word) && NoWhitespace(word) && '\'' !in q;
    WordThenSingleQuoted(word, q, env);
  }

  /** `input_processed`, the vector `expand` appends to. */
  class TokenList {
    var items: seq<string>

    constructor ()
      ensures items == []
    {
      items := [];
    }
  }

  /** `expand`: tokenizes `input` and, on success, appends the tokens after the existing
      contents of `processed`; on failure `processed` is unchanged. */
  method Expand(input: string, env: Environment, processed: TokenList) returns (outcome: Lexed<()>)
    modifies processed
    ensures outcome.Done? <==> Expansion(input, [], [], env).Done?
    ensures outcome.Done? ==> processed.items == old(processed.items) + Expansion(input, [], [], env).value
    ensures !outcome.Done? ==> outcome == Expansion(input, [], [], env).PropagateFailure()
    ensures !outcome.Done? ==> unchanged(processed)
  {
    var rest := input;
    var buffer: string := [];
    var expanded: seq<string> := [];
    while rest != []
      invariant Expansion(rest, buffer, expanded, env) == Expansion(input, [], [], env)
      invariant unchanged(processed)
      decreases Count(rest, '*'), |rest|
    {
      var c := rest[0];
      var after := rest[1..];
      assert Count(rest, '*') == (if c == '*' then 1 else 0) + Count(after, '*');
      if c == '$' {
        var e := ExpandEnvVar(after, env.vars);
        if !e.Done? {
          return e.PropagateFailure();
        }
        buffer, rest := buffer + e.value.0, e.value.1;
      } else if c == '*' {
        var next := ExpandWildcard(buffer, after, env);
        if !next.Done? {
          return next.PropagateFailure();
        }
        buffer, rest := [], next.value;
      } else if c == '~' {
        buffer, rest := buffer + HomeAfterTilde(after, env.home), after;
      } else if c == '\'' {
        var q := SingleQuoteSuppression(after, buffer);
        if !q.Done? {
          assert q == SingleQuoted(after);
          return q.PropagateFailure();
        }
        buffer, rest := q.value.0, q.value.1;
      } else if c == '"' {
        var q := DoubleQuoteSuppression(after, buffer, env.vars);
        if !q.Done? {
          assert q == DoubleQuoted(after, env.vars);
          return q.PropagateFailure();
        }
        buffer, rest := q.value.0, q.value.1;
      } else if c == '\\' {
        if after != [] && after[0] == '\n' {
          return NeedsMoreInput;
        } else if after != [] {
          buffer, rest := buffer + [after[0]], after[1..];
        } else {
          rest := after;
        }
      } else if IsWhitespace(c) {
        expanded, buffer, rest := expanded + [buffer], [], after;
      } else {
        buffer, rest := buffer + [c], after;
      }
    }
    ghost var expanded0 := expanded;
    if buffer != [] {
      expanded := expanded + [buffer];
    }
    assert Expansion(rest, buffer, expanded0, env) == Done(expanded);
    assert Expansion(input, [], [], env) == Done(expanded);
    processed.items := processed.items + expanded;
    outcome := Done(());
  }
}
