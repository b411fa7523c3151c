/** The earlier, string-to-string expander of `src/preprocessor.rs`: `$NAME` is replaced by
    the variable's value (nothing when unset), `~` by the home directory, `*` is dropped,
    and every other character, whitespace included, is kept in place. The environment and
    the home directory are parameters. */
module Preprocessor {
  import opened Io
  import opened Text

  /** The variable name after a `$`: `get_next_word_whitespace`, every character up to the
      next whitespace, which is left unread. */
  function NextWord(s: string): (w: string)
    ensures StartsWith(s, w) && NoWhitespace(w)
    ensures |w| == |s| || IsWhitespace(s[|w|])
  {
    SplitOnceWhitespace(s).0
  }

  /** What `expand` emits for the first character of `s` (with the name after a `$`), and
      how many characters that consumes. An unset variable, or the empty name of a lone
      `$` (which `env::var` never finds), gives nothing. */
  function Token(s: string, vars: map<string, string>, home: Option<string>): (t: (string, nat))
    requires s != []
    ensures 1 <= t.1 <= |s|
    ensures s[0] != '$' ==> t.1 == 1
  {
    if s[0] == '$' then
      var name := NextWord(s[1..]);
      (if name != [] && name in vars then vars[name] else [], 1 + |name|)
    else if s[0] == '*' then ([], 1)
    else if s[0] == '~' then (home.GetOr([]), 1)
    else ([s[0]], 1)
  }

  /** What `expand` produces from `s`. */
  function Preprocessed(s: string, vars: map<string, string>, home: Option<string>): string
    decreases |s|
  {
    if s == [] then []
    else
      var t := Token(s, vars, home);
      t.0 + Preprocessed(s[t.1..], vars, home)
  }

  /** The characters `expand` acts on. */
  predicate IsSpecial(c: char) {
    c == '$' || c == '*' || c == '~'
  }

  /** Input without `$`, `*` and `~` comes back unchanged. */
  lemma {:induction false} UnchangedWithoutSpecials(s: string, vars: map<string, string>, home: Option<string>)
    requires forall k :: 0 <= k < |s| ==> !IsSpecial(s[k])
    ensures Preprocessed(s, vars, home) == s
    decreases |s|
  {
    if s != [] {
      assert forall k :: 0 <= k < |s[1..]| ==> s[1..][k] == s[k + 1];
      UnchangedWithoutSpecials(s[1..], vars, home);
    }
  }

  lemma NextWordStopsAtWhitespace(a: string, w: char, b: string)
    requires IsWhitespace(w)
    ensures |NextWord(a)| <= |a| && NextWord(a + [w] + b) == NextWord(a)
  {
    var s := a + [w] + b;
    var m := NextWord(a);
    assert s[..|a|] == a && s[|a|] == w;
    assert StartsWith(s, m) && (|m| < |a| ==> s[|m|] == a[|m|]);
    WordBeforeWhitespaceUnique(s, NextWord(s), m);
  }

  /** The first token of `a` does not change when whitespace and more text follow `a`. */
  lemma TokenBeforeWhitespace(a: string, w: char, b: string, vars: map<string, string>, home: Option<string>)
    requires a != [] && IsWhitespace(w)
    ensures Token(a, vars, home).1 <= |a|
    ensures Token(a + [w] + b, vars, home) == Token(a, vars, home)
  {
    assert (a + [w] + b)[0] == a[0];
    if a[0] == '$' {
      assert (a + [w] + b)[1..] == a[1..] + [w] + b;
      NextWordStopsAtWhitespace(a[1..], w, b);
    }
  }

  lemma Regroup(x: string, y: string, z: string, u: string)
    ensures x + (y + z + u) == (x + y) + z + u
  {
  }

  lemma Shift(x: string, y: string, z: string, u: string)
    ensures x + (y + z) + u == x + y + (z + u)
  {
  }

  lemma Flush(x: string, y: string, z: string, u: string)
    ensures (x + y + z) + [] + u == x + y + (z + u)
  {
  }

  /** A whitespace character always stays where it is and separates what is expanded on
      its two sides: a `$NAME` never reaches across it. */
  lemma {:induction false} WhitespaceSeparates(a: string, w: char, b: string, vars: map<string, string>, home: Option<string>)
    requires IsWhitespace(w)
    ensures Preprocessed(a + [w] + b, vars, home)
         == Preprocessed(a, vars, home) + [w] + Preprocessed(b, vars, home)
    decreases |a|
  {
    var s := a + [w] + b;
    if a == [] {
      assert s == [w] + b && s[1..] == b;
      assert Token(s, vars, home) == ([w], 1);
      assert Preprocessed(s, vars, home) == [w] + Preprocessed(b, vars, home);
      assert Preprocessed(a, vars, home) + [w] == [w];
    } else {
      TokenBeforeWhitespace(a, w, b, vars, home);
      var t := Token(a, vars, home);
      assert s[t.1..] == a[t.1..] + [w] + b;
      WhitespaceSeparates(a[t.1..], w, b, vars, home);
      var pa := Preprocessed(a[t.1..], vars, home);
      assert Preprocessed(s, vars, home) == t.0 + (pa + [w] + Preprocessed(b, vars, home));
      assert Preprocessed(a, vars, home) == t.0 + pa;
      Regroup(t.0, pa, [w], Preprocessed(b, vars, home));
    }
  }

  /** `$NAME` followed by the end of the input or whitespace becomes the variable's value,
      or nothing when it is unset. */
  lemma VariableWord(name: string, rest: string, vars: map<string, string>, home: Option<string>)
    requires NoWhitespace(name)
    requires rest == [] || IsWhitespace(rest[0])
    ensures Preprocessed("$" + name + rest, vars, home)
         == (if name != [] && name in vars then vars[name] else []) + Preprocessed(rest, vars, home)
  {
    var s := "$" + name + rest;
    assert s[1..] == name + rest;
    if rest == [] {
      assert name + rest == name;
    } else {
      NextWordStopsAtWhitespace(name, rest[0], rest[1..]);
      assert name + rest == name + [rest[0]] + rest[1..];
      assert NextWord(name) == name;
    }
    assert s[1 + |name|..] == rest;
  }

  /** `*` is dropped; `~` becomes the home directory, or nothing when there is none. */
  lemma StarAndTilde(rest: string, vars: map<string, string>, home: Option<string>)
    ensures Preprocessed(['*'] + rest, vars, home) == Preprocessed(rest, vars, home)
    ensures home.Some? ==> Preprocessed(['~'] + rest, vars, home) == home.value + Preprocessed(rest, vars, home)
    ensures home.None? ==> Preprocessed(['~'] + rest, vars, home) == Preprocessed(rest, vars, home)
  {
    assert (['*'] + rest)[1..] == rest && (['~'] + rest)[1..] == rest;
  }

  /** A plain word, whitespace, `$NAME` and a final whitespace character: the word and both
      whitespace characters stay, the name is replaced by its value. */
  lemma WordThenVariable(word: string, w: char, name: string, v: char, vars: map<string, string>, home: Option<string>)
    requires forall k :: 0 <= k < |word| ==> !IsSpecial(word[k])
    requires IsWhitespace(w) && IsWhitespace(v) && NoWhitespace(name)
    ensures Preprocessed(word + [w] + ("$" + name + [v]), vars, home)
         == word + [w] + ((if name != [] && name in vars then vars[name] else []) + [v])
  {
    var tail := "$" + name + [v];
    WhitespaceSeparates(word, w, tail, vars, home);
    UnchangedWithoutSpecials(word, vars, home);
    assert Preprocessed(tail, vars, home) == (if name != [] && name in vars then vars[name] else []) + [v] by {
      VariableWord(name, [v], vars, home);
      assert Preprocessed([v][1..], vars, home) == [];
      assert Preprocessed([v], vars, home) == [v];
    }
  }

  /** With `KEY=VALUE`, `echo $KEY` and a newline becomes `echo VALUE` and the newline. */
  lemma EnvExample(line: string, vars: map<string, string>, home: Option<string>)
    requires line == "echo $KEY\n" && "KEY" in vars && vars["KEY"] == "VALUE"
    ensures Preprocessed(line, vars, home) == "echo VALUE\n"
  {
    var word: string, name: string := "echo", "KEY";
    assert line == word + [' '] + ("$" + name + ['\n']);
    assert forall k :: 0 <= k < |word| ==> !IsSpecial(word[k]);
    assert NoWhitespace(name);
    WordThenVariable(word, ' ', name, '\n', vars, home);
    assert word + [' '] + ("VALUE" + ['\n']) == "echo VALUE\n";
  }

  /** `get_next_word_whitespace`: reads characters until whitespace, leaving it unread. */
  method GetNextWordWhitespace(s: string) returns (word: string)
    ensures word == NextWord(s)
  {
    word := [];
    while |word| < |s| && !IsWhitespace(s[|word|])
      invariant StartsWith(s, word) && NoWhitespace(word)
    {
      word := word + [s[|word|]];
    }
    WordBeforeWhitespaceUnique(s, word, NextWord(s));
  }

  /** `expand`: the characters of `input` copied into the output, with `$NAME`, `*` and `~`
      replaced, through a buffer flushed at each whitespace character and at the end. */
  method Expand(input: string, vars: map<string, string>, home: Option<string>) returns (output: string)
    ensures output == Preprocessed(input, vars, home)
  {
    output := [];
    var buffer: string := [];
    var rest := input;
    while rest != []
      invariant output + buffer + Preprocessed(rest, vars, home) == Preprocessed(input, vars, home)
      decreases |rest|
    {
      var c := rest[0];
      var after := rest[1..];
      ghost var spec := Preprocessed(input, vars, home);
      if c == '$' {
        var name := GetNextWordWhitespace(after);
        var value := if name != [] && name in vars then vars[name] else [];
        assert output + (buffer + value) + Preprocessed(after[|name|..], vars, home) == spec by {
          assert after[|name|..] == rest[1 + |name|..];
          assert Preprocessed(rest, vars, home) == value + Preprocessed(after[|name|..], vars, home);
          Shift(output, buffer, value, Preprocessed(after[|name|..], vars, home));
        }
        buffer, rest := buffer + value, after[|name|..];
      } else if c == '*' {
        assert output + buffer + Preprocessed(after, vars, home) == spec by {
          assert Preprocessed(rest, vars, home) == [] + Preprocessed(after, vars, home);
          assert [] + Preprocessed(after, vars, home) == Preprocessed(after, vars, home);
        }
        rest := after;
      } else if c == '~' {
        assert output + (buffer + home.GetOr([])) + Preprocessed(after, vars, home) == spec by {
          assert Preprocessed(rest, vars, home) == home.GetOr([]) + Preprocessed(after, vars, home);
          Shift(output, buffer, home.GetOr([]), Preprocessed(after, vars, home));
        }
        buffer, rest := buffer + home.GetOr([]), after;
      } else if IsWhitespace(c) {
        assert (output + buffer + [c]) + [] + Preprocessed(after, vars, home) == spec by {
          assert Preprocessed(rest, vars, home) == [c] + Preprocessed(after, vars, home);
          Flush(output, buffer, [c], Preprocessed(after, vars, home));
        }
        output, buffer, rest := output + buffer + [c], [], after;
      } else {
        assert output + (buffer + [c]) + Preprocessed(after, vars, home) == spec by {
          assert Preprocessed(rest, vars, home) == [c] + Preprocessed(after, vars, home);
          Shift(output, buffer, [c], Preprocessed(after, vars, home));
        }
        buffer, rest := buffer + [c], after;
      }
    }
    output := output + buffer;
  }
}
