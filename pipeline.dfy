/** Pipelines (src/pipeline.rs): a command line parsed into steps joined by pipes, with
    the line's redirections applied pipeline-wide, and run by threading bytes from each
    step into the next. */
module Pipeline {
  import opened Io
  import Text
  import R = Redirection
  import S = Step
  import opened StepOutput

  /** `Pipe::Std` forwards stdout; `Pipe::Err` (written `|&`) forwards stdout and stderr. */
  datatype Pipe = Std | Err

  /** `Pipeline { steps, pipes, in_reader, out_writer, err_writer }`. */
  datatype Pipeline = Pipeline(
    steps: seq<S.Step>,
    pipes: seq<Pipe>,
    inReader: Option<R.Reader>,
    outWriter: R.Writer,
    errWriter: R.Writer)

  // ---------------------------------------------------------------------------
  // First pass of `Pipeline::new`: the redirections

  /** The slots after scanning `words` for redirection operators from slot values `st`:
      an operator takes the next word as its target (that word is never itself classified),
      an operator with no next word is the error "Empty redirection", and every other word
      is skipped. */
  function ScanFrom(words: seq<string>, st: R.SlotState, fs: R.FileSystem): Result<R.SlotState>
    decreases |words|
  {
    if words == [] then Ok(st)
    else
      match R.FromStr(words[0])
      case None => ScanFrom(words[1..], st, fs)
      case Some(redir) =>
        if |words| == 1 then Fail(InvalidInputError("Empty redirection"))
        else
          var st' :- R.Configure(st, redir, words[1], fs);
          ScanFrom(words[2..], st', fs)
  }

  /** An operator that is the last word of the line has no target: the scan fails with
      `InvalidInput` "Empty redirection", whatever came before, unless an earlier step of
      the scan already failed. */
  lemma {:induction false} ScanDanglingFails(words: seq<string>, st: R.SlotState, fs: R.FileSystem)
    requires |words| > 0 && R.IsRedirection(words[|words| - 1])
    requires ScanFrom(words[..|words| - 1], st, fs).Ok?
    ensures ScanFrom(words, st, fs) == Fail(InvalidInputError("Empty redirection"))
    decreases |words|
  {
    var init := words[..|words| - 1];
    if init == [] {
    } else if R.FromStr(init[0]).None? {
      assert words[1..][..|words[1..]| - 1] == init[1..];
      ScanDanglingFails(words[1..], st, fs);
    } else {
      // `init` scanned successfully, so its operator found its target inside `init`.
      var st' := R.Configure(st, R.FromStr(init[0]).value, init[1], fs).value;
      assert words[2..][..|words[2..]| - 1] == init[2..];
      ScanDanglingFails(words[2..], st', fs);
    }
  }

  /** A scan that ends without error has consumed its words in whole operator-target
      pairs, so scanning more words simply continues from the slots it reached. */
  lemma {:induction false} ScanComposes(a: seq<string>, b: seq<string>, st: R.SlotState, fs: R.FileSystem)
    requires ScanFrom(a, st, fs).Ok?
    ensures ScanFrom(a + b, st, fs) == ScanFrom(b, ScanFrom(a, st, fs).value, fs)
    decreases |a|
  {
    if a == [] {
      assert a + b == b;
    } else if R.FromStr(a[0]).None? {
      assert (a + b)[1..] == a[1..] + b;
      ScanComposes(a[1..], b, st, fs);
    } else {
      var st' := R.Configure(st, R.FromStr(a[0]).value, a[1], fs).value;
      assert (a + b)[2..] == a[2..] + b;
      ScanComposes(a[2..], b, st', fs);
    }
  }

  /** A line without any operator leaves every slot as it was. */
  lemma {:induction false} ScanWithoutOperators(words: seq<string>, st: R.SlotState, fs: R.FileSystem)
    requires forall k :: 0 <= k < |words| ==> !R.IsRedirection(words[k])
    ensures ScanFrom(words, st, fs) == Ok(st)
    decreases |words|
  {
    if words != [] {
      ScanWithoutOperators(words[1..], st, fs);
    }
  }

  /** Redirections apply pipeline-wide and the later one wins: when the line ends in an
      operator and a target that opens, the operator's slot is that target (read whole,
      or written in the operator's mode), whatever earlier operators set, and the other
      slots keep what the earlier words set. */
  lemma LastRedirectionWins(a: seq<string>, op: string, target: string, st: R.SlotState, fs: R.FileSystem)
    requires ScanFrom(a, st, fs).Ok?
    requires R.FromStr(op).Some?
    requires !fs.resolvesToSocket(target)
    requires fs.openError(target, R.ModeOf(R.FromStr(op).value)).None?
    ensures ScanFrom(a + [op, target], st, fs).Ok?
    ensures var before := ScanFrom(a, st, fs).value;
            var after := ScanFrom(a + [op, target], st, fs).value;
            var r := R.FromStr(op).value;
            (R.SlotOf(r) == R.InSlot ==>
               after == before.(input := Some(R.FileReader(target, fs.contents(target)))))
            && (R.SlotOf(r) == R.OutSlot ==>
               after == before.(output := Some(R.FileSink(target, R.ModeOf(r)))))
            && (R.SlotOf(r) == R.ErrSlot ==>
               after == before.(error := Some(R.FileSink(target, R.ModeOf(r)))))
  {
    ScanComposes(a, [op, target], st, fs);
    var mid := ScanFrom(a, st, fs).value;
    R.ConfigureSetsOneSlot(mid, R.FromStr(op).value, target, fs);
    assert [op, target][2..] == [];
  }

  /** `Pipeline::new("wc -c < ")` (the test of an output-less redirection) fails with
      `InvalidInput`: the `<` has no target. */
  lemma EmptyRedirectionExample(line: string, fs: R.FileSystem)
    requires line == "wc -c < "
    ensures Parse(line, fs).Fail?
    ensures Parse(line, fs).error == InvalidInputError("Empty redirection")
    ensures Parse(line, fs).error.kind == InvalidInput
  {
    assert line == "wc" + " " + ("-c" + " " + ("<" + " " + ""));
    Text.WordThenBlank("<", "");
    Text.WordThenBlank("-c", "<" + " " + "");
    Text.WordThenBlank("wc", "-c" + " " + ("<" + " " + ""));
    var words := ["wc", "-c", "<"];
    assert Text.Words(line) == words;
    ScanWithoutOperators(words[..2], R.NoRedirections, fs);
    ScanDanglingFails(words, R.NoRedirections, fs);
  }

  // ---------------------------------------------------------------------------
  // Second pass of `Pipeline::new`: the pipes

  /** The text a pipe is written with. */
  function PipeText(p: Pipe): string {
    match p
    case Std => "|"
    case Err => "|&"
  }

  /** The line put back together from its segments and the pipes between them. */
  function Rejoin(segs: seq<string>, pipes: seq<Pipe>): string
    requires |segs| == |pipes| + 1
  {
    if pipes == [] then segs[0]
    else segs[0] + PipeText(pipes[0]) + Rejoin(segs[1..], pipes[1..])
  }

  /** The first segment of a rejoined line is its prefix. */
  lemma RejoinStartsWithFirst(segs: seq<string>, pipes: seq<Pipe>)
    requires |segs| == |pipes| + 1
    ensures Text.StartsWith(Rejoin(segs, pipes), segs[0])
  {
  }

  /** `find('|') == find("|&")` holds exactly when the first `|` is followed by `&`: no
      `|&` can start before the first `|`. */
  lemma FirstBarKind(s: string, i: nat)
    requires Text.Find(s, '|') == Some(i)
    ensures Text.FindSub(s, "|&") == Some(i) <==> i + 1 < |s| && s[i + 1] == '&'
  {
    var p := "|&";
    if i + 1 < |s| && s[i + 1] == '&' {
      assert s[i..i + 2] == p;
      Text.FindSubAtFirstChar(s, p, i);
    }
    if Text.FindSub(s, p) == Some(i) {
      assert s[i..i + 2][1] == '&';
    }
  }

  /** `segs` and `pipes` are a cut of `s` at its pipes: the segments hold no `|`,
      rejoining them gives `s` back, and a segment after a `Std` pipe never begins with
      `&` (or that pipe would have been `|&`). Together these fix the cut. */
  predicate IsCut(s: string, segs: seq<string>, pipes: seq<Pipe>) {
    && |segs| == |pipes| + 1
    && (forall k :: 0 <= k < |segs| ==> '|' !in segs[k])
    && Rejoin(segs, pipes) == s
    && (forall k :: 0 <= k < |pipes| && pipes[k] == Std ==> segs[k + 1] == [] || segs[k + 1][0] != '&')
  }

  /** A cut of the text after the first pipe, behind the text before it, is a cut of the
      whole. */
  lemma CutCons(s: string, i: nat, pipe: Pipe, segs: seq<string>, pipes: seq<Pipe>)
    requires Text.Find(s, '|') == Some(i)
    requires i + |PipeText(pipe)| <= |s| && s[i..i + |PipeText(pipe)|] == PipeText(pipe)
    requires pipe == Std ==> !(i + 1 < |s| && s[i + 1] == '&')
    requires IsCut(s[i + |PipeText(pipe)|..], segs, pipes)
    ensures IsCut(s, [s[..i]] + segs, [pipe] + pipes)
  {
    var w := |PipeText(pipe)|;
    CutConsNoBar(s[..i], segs);
    CutConsRejoin(s, i, pipe, segs, pipes);
    if segs[0] != [] {
      RejoinStartsWithFirst(segs, pipes);
      assert segs[0][0] == s[i + w..][0] == s[i + w];
    }
    CutConsStd(pipe, s[..i], segs, pipes);
  }

  lemma CutConsNoBar(first: string, segs: seq<string>)
    requires '|' !in first
    requires forall k :: 0 <= k < |segs| ==> '|' !in segs[k]
    ensures forall k :: 0 <= k < |[first] + segs| ==> '|' !in ([first] + segs)[k]
  {
    forall k | 0 <= k < |[first] + segs|
      ensures '|' !in ([first] + segs)[k]
    {
      if k > 0 {
        assert ([first] + segs)[k] == segs[k - 1];
      }
    }
  }

  lemma CutConsRejoin(s: string, i: nat, pipe: Pipe, segs: seq<string>, pipes: seq<Pipe>)
    requires i + |PipeText(pipe)| <= |s| && s[i..i + |PipeText(pipe)|] == PipeText(pipe)
    requires |segs| == |pipes| + 1 && Rejoin(segs, pipes) == s[i + |PipeText(pipe)|..]
    ensures Rejoin([s[..i]] + segs, [pipe] + pipes) == s
  {
    var w := |PipeText(pipe)|;
    var segs', pipes' := [s[..i]] + segs, [pipe] + pipes;
    assert segs'[1..] == segs && pipes'[1..] == pipes;
    assert s == s[..i] + s[i..i + w] + s[i + w..];
  }

  lemma CutConsStd(pipe: Pipe, first: string, segs: seq<string>, pipes: seq<Pipe>)
    requires |segs| == |pipes| + 1
    requires pipe == Std ==> segs[0] == [] || segs[0][0] != '&'
    requires forall k :: 0 <= k < |pipes| && pipes[k] == Std ==> segs[k + 1] == [] || segs[k + 1][0] != '&'
    ensures forall k :: 0 <= k < |[pipe] + pipes| && ([pipe] + pipes)[k] == Std ==>
              ([first] + segs)[k + 1] == [] || ([first] + segs)[k + 1][0] != '&'
  {
    forall k | 0 <= k < |[pipe] + pipes| && ([pipe] + pipes)[k] == Std
      ensures ([first] + segs)[k + 1] == [] || ([first] + segs)[k + 1][0] != '&'
    {
      if k > 0 {
        assert ([pipe] + pipes)[k] == pipes[k - 1];
      }
      assert ([first] + segs)[k + 1] == segs[k];
    }
  }

  /** The cut of a line into step texts at each `|`, read one character at a time: a `|`
      followed by `&` is an `Err` pipe and takes both characters, any other `|` is a
      `Std` pipe and takes one, and every other character extends the current segment. */
  function SplitPipes(s: string): (r: (seq<string>, seq<Pipe>))
    ensures |r.0| == |r.1| + 1
    decreases |s|
  {
    if s == [] then ([[]], [])
    else if s[0] == '|' then
      var pipe := if |s| > 1 && s[1] == '&' then Err else Std;
      var rest := SplitPipes(s[|PipeText(pipe)|..]);
      ([[]] + rest.0, [pipe] + rest.1)
    else
      var rest := SplitPipes(s[1..]);
      ([[s[0]] + rest.0[0]] + rest.0[1..], rest.1)
  }

  /** The pipe a `|` at index `i` of `s` is the start of. */
  function PipeAt(s: string, i: nat): Pipe
    requires i < |s|
  {
    if i + 1 < |s| && s[i + 1] == '&' then Err else Std
  }

  /** A line without `|` is one segment. */
  lemma {:induction false} SplitPipesNoBar(s: string)
    requires '|' !in s
    ensures SplitPipes(s) == ([s], [])
    decreases |s|
  {
    if s != [] {
      assert s[0] != '|' && '|' !in s[1..];
      SplitPipesNoBar(s[1..]);
      var rest := SplitPipes(s[1..]);
      assert rest.0[1..] == [];
      assert [s[0]] + rest.0[0] == s;
      assert SplitPipes(s) == ([[s[0]] + rest.0[0]] + rest.0[1..], rest.1);
      assert [[s[0]] + rest.0[0]] + rest.0[1..] == [s];
    }
  }

  /** At the first `|` of a line, the cut is the text before it, then the pipe it starts,
      then the cut of what follows the pipe. */
  lemma {:induction false} SplitPipesAtBar(s: string, i: nat)
    requires i < |s| && s[i] == '|'
    requires forall k :: 0 <= k < i ==> s[k] != '|'
    ensures i + |PipeText(PipeAt(s, i))| <= |s|
    ensures SplitPipes(s).0 == [s[..i]] + SplitPipes(s[i + |PipeText(PipeAt(s, i))|..]).0
    ensures SplitPipes(s).1 == [PipeAt(s, i)] + SplitPipes(s[i + |PipeText(PipeAt(s, i))|..]).1
    decreases i
  {
    var p := PipeAt(s, i);
    var n := |PipeText(p)|;
    var tail := s[i + n..];
    if i == 0 {
      assert s[..0] == [] && s[n..] == tail;
    } else {
      assert s[0] != '|';
      SplitPipesAtBar(s[1..], i - 1);
      assert PipeAt(s[1..], i - 1) == p;
      assert s[1..][i - 1 + n..] == tail;
      var rest := SplitPipes(s[1..]);
      assert rest.0 == [s[1..][..i - 1]] + SplitPipes(tail).0;
      assert rest.0[0] == s[1..][..i - 1] && rest.0[1..] == SplitPipes(tail).0;
      assert [s[0]] + s[1..][..i - 1] == s[..i];
      assert SplitPipes(s) == ([[s[0]] + rest.0[0]] + rest.0[1..], rest.1);
    }
  }

  /** The cut as `Pipeline::new` makes it: `find('|')` gives the next pipe, and it is an
      `Err` pipe exactly when `find("|&")` gives the same index. */
  lemma SplitPipesAtFirstBar(s: string, i: nat)
    requires Text.Find(s, '|') == Some(i)
    ensures var pipe := if Text.FindSub(s, "|&") == Some(i) then Err else Std;
      && i + |PipeText(pipe)| <= |s|
      && SplitPipes(s).0 == [s[..i]] + SplitPipes(s[i + |PipeText(pipe)|..]).0
      && SplitPipes(s).1 == [pipe] + SplitPipes(s[i + |PipeText(pipe)|..]).1
  {
    FirstBarKind(s, i);
    forall k | 0 <= k < i
      ensures s[k] != '|'
    {
      assert s[..i][k] == s[k];
    }
    SplitPipesAtBar(s, i);
  }

  /** `SplitPipes` cuts the line: its segments hold no `|`, they give the line back when
      rejoined, and a `|` followed by `&` is never taken for a `Std` pipe. */
  lemma {:induction false} SplitPipesIsCut(s: string)
    ensures IsCut(s, SplitPipes(s).0, SplitPipes(s).1)
    decreases |s|
  {
    match Text.Find(s, '|')
    case None =>
      SplitPipesNoBar(s);
    case Some(i) =>
      var pipe := PipeAt(s, i);
      var next := s[i + |PipeText(pipe)|..];
      var rest := SplitPipes(next);
      SplitPipesAtFirst(s, i);
      SplitPipesIsCut(next);
      CutConsAt(s, i, rest.0, rest.1);
  }

  /** `SplitPipesAtBar` at the index `find('|')` gives. */
  lemma SplitPipesAtFirst(s: string, i: nat)
    requires Text.Find(s, '|') == Some(i)
    ensures i + |PipeText(PipeAt(s, i))| <= |s|
    ensures SplitPipes(s) == ([s[..i]] + SplitPipes(s[i + |PipeText(PipeAt(s, i))|..]).0,
                              [PipeAt(s, i)] + SplitPipes(s[i + |PipeText(PipeAt(s, i))|..]).1)
  {
    assert forall k :: 0 <= k < i ==> s[k] != '|' by {
      assert forall k :: 0 <= k < i ==> s[..i][k] == s[k];
    }
    SplitPipesAtBar(s, i);
  }

  /** `CutCons` with the pipe the first `|` starts. */
  lemma CutConsAt(s: string, i: nat, segs: seq<string>, pipes: seq<Pipe>)
    requires Text.Find(s, '|') == Some(i)
    requires i + |PipeText(PipeAt(s, i))| <= |s|
    requires IsCut(s[i + |PipeText(PipeAt(s, i))|..], segs, pipes)
    ensures IsCut(s, [s[..i]] + segs, [PipeAt(s, i)] + pipes)
  {
    var pipe := PipeAt(s, i);
    assert s[i..i + |PipeText(pipe)|] == PipeText(pipe) by {
      if pipe == Err {
        assert s[i..i + 2] == [s[i], s[i + 1]];
      } else {
        assert s[i..i + 1] == [s[i]];
      }
    }
    CutCons(s, i, pipe, segs, pipes);
  }

  /** A cut has only one shape: any segments and pipes that cut `s` are the ones
      `SplitPipes` gives. */
  lemma {:induction false} CutIsSplitPipes(s: string, segs: seq<string>, pipes: seq<Pipe>)
    requires IsCut(s, segs, pipes)
    ensures SplitPipes(s) == (segs, pipes)
    decreases |pipes|
  {
    if pipes == [] {
      assert s == segs[0];
      SplitPipesNoBar(s);
      assert segs == [segs[0]];
    } else {
      var next := Rejoin(segs[1..], pipes[1..]);
      CutTail(s, segs, pipes);
      CutIsSplitPipes(next, segs[1..], pipes[1..]);
      assert s == segs[0] + PipeText(pipes[0]) + next;
      SplitPipesCons(segs[0], pipes[0], next);
      assert segs == [segs[0]] + segs[1..] && pipes == [pipes[0]] + pipes[1..];
    }
  }

  /** Behind the first pipe of a cut is a cut of the rest of the line, and that rest
      does not begin with `&` when the first pipe is `Std`. */
  lemma CutTail(s: string, segs: seq<string>, pipes: seq<Pipe>)
    requires IsCut(s, segs, pipes) && |pipes| > 0
    ensures IsCut(Rejoin(segs[1..], pipes[1..]), segs[1..], pipes[1..])
    ensures pipes[0] == Std ==>
              var next := Rejoin(segs[1..], pipes[1..]); next == [] || next[0] != '&'
  {
    var segs', pipes' := segs[1..], pipes[1..];
    var next := Rejoin(segs', pipes');
    forall k | 0 <= k < |segs'|
      ensures '|' !in segs'[k]
    {
      assert segs'[k] == segs[k + 1];
    }
    forall k | 0 <= k < |pipes'| && pipes'[k] == Std
      ensures segs'[k + 1] == [] || segs'[k + 1][0] != '&'
    {
      assert pipes'[k] == pipes[k + 1] && segs'[k + 1] == segs[k + 2];
    }
    if segs'[0] != [] {
      RejoinStartsWithFirst(segs', pipes');
      assert next[0] == segs'[0][0] == segs[1][0];
    } else if pipes' != [] {
      assert next == segs'[0] + PipeText(pipes'[0]) + Rejoin(segs'[1..], pipes'[1..]);
      assert next[0] == '|';
    }
  }

  /** Cutting a segment, a pipe and more text gives the segment, the pipe, and the cut of
      the text, provided a `|` is not followed by `&`. */
  lemma SplitPipesCons(a: string, pipe: Pipe, rest: string)
    requires '|' !in a
    requires pipe == Std ==> rest == [] || rest[0] != '&'
    ensures SplitPipes(a + PipeText(pipe) + rest).0 == [a] + SplitPipes(rest).0
    ensures SplitPipes(a + PipeText(pipe) + rest).1 == [pipe] + SplitPipes(rest).1
  {
    var s := a + PipeText(pipe) + rest;
    assert s[|a|] == '|' && s[..|a|] == a;
    assert forall k :: 0 <= k < |a| ==> s[k] == a[k];
    assert pipe == Err ==> s[|a| + 1] == '&';
    assert pipe == Std && rest != [] ==> s[|a| + 1] == rest[0];
    assert PipeAt(s, |a|) == pipe;
    SplitPipesAtBar(s, |a|);
    assert s[|a| + |PipeText(pipe)|..] == rest;
  }

  /** A line with a `|&` and then a `|`, and no other `|`, is cut into three segments
      joined by an `Err` pipe and then a `Std` pipe. */
  lemma PipesOfTwoBars(a: string, b: string, c: string)
    requires '|' !in a && '|' !in b && '|' !in c
    requires c == [] || c[0] != '&'
    ensures SplitPipes(a + "|&" + b + "|" + c) == ([a, b, c], [Err, Std])
  {
    SplitPipesCons(b, Std, c);
    SplitPipesNoBar(c);
    assert a + "|&" + b + "|" + c == a + PipeText(Err) + (b + PipeText(Std) + c);
    SplitPipesCons(a, Err, b + PipeText(Std) + c);
    assert [a] + ([b] + [c]) == [a, b, c];
    assert [Err] + ([Std] + []) == [Err, Std];
  }

  /** `Pipeline::new` on the line of the parsing test succeeds with three steps, joined by
      an `Err` pipe and then a `Std` pipe, and sets no redirection. */
  lemma PipesOfParsingTest(line: string, fs: R.FileSystem)
    requires line == "echo \"asd\" |& grep a | wc -c"
    ensures Parse(line, fs).Ok?
    ensures Parse(line, fs).value.pipes == [Err, Std]
    ensures |Parse(line, fs).value.steps| == 3
    ensures Parse(line, fs).value.slots == R.NoRedirections
  {
    ParsingTestCut(line);
    ParsingTestHasNoEmptySegment(SplitPipes(line).0);
    ParsingTestHasNoAngle(line);
    WithoutAnglesWithoutOperators(line);
    ParseWithoutOperators(line, fs);
  }

  /** The parsing test's line holds neither `<` nor `>`. */
  lemma ParsingTestHasNoAngle(line: string)
    requires line == "echo \"asd\" |& grep a | wc -c"
    ensures '<' !in line && '>' !in line
  {
  }

  /** The parsing test's line is cut into three segments joined by an `Err` pipe and then
      a `Std` pipe. */
  lemma ParsingTestCut(line: string)
    requires line == "echo \"asd\" |& grep a | wc -c"
    ensures SplitPipes(line) == (["echo \"asd\" ", " grep a ", " wc -c"], [Err, Std])
  {
    var a, b, c := "echo \"asd\" ", " grep a ", " wc -c";
    assert line == a + "|&" + b + "|" + c;
    PipesOfTwoBars(a, b, c);
  }

  /** Every segment of the parsing test's line holds a word. */
  lemma ParsingTestHasNoEmptySegment(segs: seq<string>)
    requires segs == ["echo \"asd\" ", " grep a ", " wc -c"]
    ensures !HasEmptySegment(segs)
  {
    NoEmptySegmentWhere(segs, [0, 1, 1]);
  }

  /** Segments that each hold a non-whitespace character, at the index `at` gives, are
      none of them empty. */
  lemma NoEmptySegmentWhere(segs: seq<string>, at: seq<nat>)
    requires |at| == |segs|
    requires forall k :: 0 <= k < |segs| ==> at[k] < |segs[k]| && !Text.IsWhitespace(segs[k][at[k]])
    ensures !HasEmptySegment(segs)
  {
    forall k | 0 <= k < |segs|
      ensures Text.Words(segs[k]) != []
    {
      Text.WordsOfNonBlank(segs[k], at[k]);
    }
  }

  /** A line without `<` and `>` holds no operator word, since every operator spelling
      holds one of them. */
  lemma WithoutAnglesWithoutOperators(raw: string)
    requires '<' !in raw && '>' !in raw
    ensures forall k :: 0 <= k < |Text.Words(raw)| ==> !R.IsRedirection(Text.Words(raw)[k])
  {
    forall k | 0 <= k < |Text.Words(raw)|
      ensures !R.IsRedirection(Text.Words(raw)[k])
    {
      var w := Text.Words(raw)[k];
      if R.IsRedirection(w) {
        R.SpellingsHoldAngle(w);
        if '<' in w {
          Text.WordsWithin(raw, k, '<');
        } else {
          Text.WordsWithin(raw, k, '>');
        }
      }
    }
  }

  // ---------------------------------------------------------------------------
  // `Pipeline::new`

  /** Some segment holds no word. */
  predicate HasEmptySegment(segs: seq<string>) {
    exists k :: 0 <= k < |segs| && Text.Words(segs[k]) == []
  }

  /** `Step::new` applied to every segment, in order, stopping at the first error. */
  function StepsOf(segs: seq<string>): (r: Result<seq<S.Step>>)
    ensures r.Fail? <==> HasEmptySegment(segs)
    ensures r.Fail? ==> r.error == IoError(InvalidInput, "Empty Program")
    ensures r.Ok? ==> |r.value| == |segs|
                      && forall k :: 0 <= k < |segs| ==> Ok(r.value[k]) == S.StepOf(segs[k])
    decreases |segs|
  {
    if segs == [] then Ok([])
    else
      var first :- S.StepOf(segs[0]);
      var rest :- StepsOf(segs[1..]);
      assert forall k :: 1 <= k < |segs| ==> segs[k] == segs[1..][k - 1];
      Ok([first] + rest)
  }

  /** What a successful `Pipeline::new` holds, writers aside: the steps, the pipes and the
      slot values the redirections left. */
  datatype Parsed = Parsed(steps: seq<S.Step>, pipes: seq<Pipe>, slots: R.SlotState)

  /** `Pipeline::new` as a function of the line: redirections first (their errors win),
      then the cut at the pipes and `Step::new` on each segment. */
  function Parse(raw: string, fs: R.FileSystem): (r: Result<Parsed>)
    ensures r.Ok? ==> |r.value.steps| > 0 && |r.value.pipes| == |r.value.steps| - 1
    ensures r.Ok? ==> forall k :: 0 <= k < |r.value.steps| ==> r.value.steps[k].CommandStep?
    ensures ScanFrom(Text.Words(raw), R.NoRedirections, fs).Fail? ==>
              r == Fail(ScanFrom(Text.Words(raw), R.NoRedirections, fs).error)
    ensures ScanFrom(Text.Words(raw), R.NoRedirections, fs).Ok? ==>
              (r.Fail? <==> HasEmptySegment(SplitPipes(raw).0))
  {
    var slots :- ScanFrom(Text.Words(raw), R.NoRedirections, fs);
    var cut := SplitPipes(raw);
    var steps :- StepsOf(cut.0);
    assert forall k :: 0 <= k < |steps| ==> S.StepOf(cut.0[k]) == Ok(steps[k]);
    Ok(Parsed(steps, cut.1, slots))
  }

  /** A line without any redirection operator and without an empty segment parses, with
      one step per segment, the pipes between them, and no redirection. */
  lemma ParseWithoutOperators(raw: string, fs: R.FileSystem)
    requires forall k :: 0 <= k < |Text.Words(raw)| ==> !R.IsRedirection(Text.Words(raw)[k])
    requires !HasEmptySegment(SplitPipes(raw).0)
    ensures Parse(raw, fs).Ok?
    ensures Parse(raw, fs).value.pipes == SplitPipes(raw).1
    ensures |Parse(raw, fs).value.steps| == |SplitPipes(raw).0|
    ensures Parse(raw, fs).value.slots == R.NoRedirections
  {
    ScanWithoutOperators(Text.Words(raw), R.NoRedirections, fs);
  }

  /** An empty segment anywhere, as in an empty line, a leading or trailing pipe, or `||`,
      makes `Pipeline::new` fail with "Empty Program" once the redirections are set. */
  lemma EmptySegmentFails(raw: string, fs: R.FileSystem, k: nat)
    requires ScanFrom(Text.Words(raw), R.NoRedirections, fs).Ok?
    requires k < |SplitPipes(raw).0| && Text.Words(SplitPipes(raw).0[k]) == []
    ensures Parse(raw, fs) == Fail(InvalidInputError("Empty Program"))
  {
  }

  /** The empty line has no step. */
  lemma EmptyLineFails(fs: R.FileSystem)
    ensures Parse("", fs) == Fail(InvalidInputError("Empty Program"))
  {
    assert Text.Words("") == [];
    assert SplitPipes("").0 == [""];
    EmptySegmentFails("", fs, 0);
  }

  /** `Pipeline::new`: the redirection scan fills three slots, then the line is cut at its
      pipes and every segment becomes a step; missing writers default to the process's
      stdout and stderr. */
  method New(raw: string, fs: R.FileSystem) returns (r: Result<Pipeline>)
    ensures r.Fail? <==> Parse(raw, fs).Fail?
    ensures r.Fail? ==> r.error == Parse(raw, fs).error
    ensures r.Ok? ==>
      var parsed := Parse(raw, fs).value;
      && r.value.steps == parsed.steps
      && r.value.pipes == parsed.pipes
      && r.value.inReader == parsed.slots.input
      && r.value.outWriter.sink == parsed.slots.output.GetOr(R.ProcessStdout)
      && r.value.errWriter.sink == parsed.slots.error.GetOr(R.ProcessStderr)
      && fresh(r.value.outWriter) && fresh(r.value.errWriter)
      && r.value.outWriter != r.value.errWriter
      && r.value.outWriter.written == [] && r.value.errWriter.written == []
  {
    var slots :- ScanRedirections(Text.Words(raw), fs);
    var cut :- CutSteps(raw);
    var outWriter: R.Writer;
    if slots.outWriter.Some? {
      outWriter := slots.outWriter.value;
    } else {
      outWriter := new R.Writer(R.ProcessStdout);
    }
    var errWriter: R.Writer;
    if slots.errWriter.Some? {
      errWriter := slots.errWriter.value;
    } else {
      errWriter := new R.Writer(R.ProcessStderr);
    }
    return Ok(Pipeline(cut.0, cut.1, slots.inReader, outWriter, errWriter));
  }

  /** The first pass of `Pipeline::new`: every word of the line is classified, and an
      operator and the word after it configure the slots. */
  method ScanRedirections(words: seq<string>, fs: R.FileSystem) returns (r: Result<R.Slots>)
    ensures r.Fail? <==> ScanFrom(words, R.NoRedirections, fs).Fail?
    ensures r.Fail? ==> r.error == ScanFrom(words, R.NoRedirections, fs).error
    ensures r.Ok? ==> fresh(r.value) && r.value.Fresh()
                      && r.value.State() == ScanFrom(words, R.NoRedirections, fs).value
                      && (r.value.outWriter.Some? ==> fresh(r.value.outWriter.value))
                      && (r.value.errWriter.Some? ==> fresh(r.value.errWriter.value))
  {
    var slots := new R.Slots();
    var i := 0;
    while i < |words|
      invariant 0 <= i <= |words|
      invariant slots.Fresh()
      invariant ScanFrom(words[i..], slots.State(), fs) == ScanFrom(words, R.NoRedirections, fs)
      invariant slots.outWriter.Some? ==> fresh(slots.outWriter.value)
      invariant slots.errWriter.Some? ==> fresh(slots.errWriter.value)
      decreases |words| - i
    {
      var w := words[i];
      i := i + 1;
      var redir := R.FromStr(w);
      if redir.Some? {
        if i == |words| {
          return Fail(InvalidInputError("Empty redirection"));
        }
        var srcOrDst := words[i];
        i := i + 1;
        var outcome := slots.ConfigureRedirection(redir.value, srcOrDst, fs);
        if outcome.Fail? {
          return Fail(outcome.error);
        }
        assert words[i - 2..][2..] == words[i..];
      } else {
        assert words[i - 1..][1..] == words[i..];
      }
    }
    return Ok(slots);
  }

  /** The steps and pipes of a line: the line cut at its pipes, and `Step::new` applied to
      every segment, stopping at the first error. */
  function Cut(raw: string): Result<(seq<S.Step>, seq<Pipe>)> {
    var steps :- StepsOf(SplitPipes(raw).0);
    Ok((steps, SplitPipes(raw).1))
  }

  /** The cut of `s` behind steps and pipes already taken off the line. */
  function Resumed(steps: seq<S.Step>, pipes: seq<Pipe>, s: string): Result<(seq<S.Step>, seq<Pipe>)> {
    var rest :- Cut(s);
    Ok((steps + rest.0, pipes + rest.1))
  }

  /** The second pass of `Pipeline::new`: the line is cut at its next pipe until none is
      left, each piece becoming a step. */
  method CutSteps(raw: string) returns (r: Result<(seq<S.Step>, seq<Pipe>)>)
    ensures r == Cut(raw)
  {
    var pipelineString := raw;
    var steps: seq<S.Step> := [];
    var pipes: seq<Pipe> := [];
    ResumedFromStart(raw);
    while true
      invariant Resumed(steps, pipes, pipelineString) == Cut(raw)
      decreases |pipelineString|
    {
      var nextPipe := Text.Find(pipelineString, '|');
      if nextPipe.None? {
        // No more pipes: the rest of the line is the last step.
        var step := S.New(pipelineString);
        CutLast(steps, pipes, pipelineString);
        if step.Fail? {
          return Fail(step.error);
        }
        return Ok((steps + [step.value], pipes));
      }
      var at := nextPipe.value;
      var nextErrPipe := Text.FindSub(pipelineString, "|&");
      var isErrPipe := nextErrPipe == Some(at);
      // The text before the pipe is the step; the pipe's one or two characters are skipped.
      var stepStr := pipelineString[..at];
      var step := S.New(stepStr);
      ghost var pipe := PipeAt(pipelineString, at);
      FirstBarKind(pipelineString, at);
      CutNext(steps, pipes, pipelineString, at);
      if step.Fail? {
        return Fail(step.error);
      }
      steps := steps + [step.value];
      if isErrPipe {
        pipes := pipes + [Err];
        pipelineString := pipelineString[at + 2..];
      } else {
        pipes := pipes + [Std];
        pipelineString := pipelineString[at + 1..];
      }
    }
  }

  lemma ResumedFromStart(raw: string)
    ensures Resumed([], [], raw) == Cut(raw)
  {
    if Cut(raw).Ok? {
      var c := Cut(raw).value;
      assert [] + c.0 == c.0 && [] + c.1 == c.1;
    }
  }

  /** The cut of a line with a pipe: `Step::new` on the text before the first pipe, then
      the cut of the text after it. */
  lemma CutAtBar(s: string, at: nat)
    requires Text.Find(s, '|') == Some(at)
    ensures at + |PipeText(PipeAt(s, at))| <= |s|
    ensures Cut(s) == (var step :- S.StepOf(s[..at]);
                       var rest :- Cut(s[at + |PipeText(PipeAt(s, at))|..]);
                       Ok(([step] + rest.0, [PipeAt(s, at)] + rest.1)))
  {
    SplitPipesAtFirst(s, at);
    var rest := SplitPipes(s[at + |PipeText(PipeAt(s, at))|..]);
    StepsOfAppend([s[..at]], rest.0);
    StepsOfSingle(s[..at]);
  }

  /** The loop of `CutSteps` at a segment that is not the last. */
  lemma CutNext(steps: seq<S.Step>, pipes: seq<Pipe>, s: string, at: nat)
    requires Text.Find(s, '|') == Some(at)
    ensures at + |PipeText(PipeAt(s, at))| <= |s|
    ensures S.StepOf(s[..at]).Fail? ==> Resumed(steps, pipes, s) == Fail(S.StepOf(s[..at]).error)
    ensures S.StepOf(s[..at]).Ok? ==>
              Resumed(steps, pipes, s)
              == Resumed(steps + [S.StepOf(s[..at]).value], pipes + [PipeAt(s, at)], s[at + |PipeText(PipeAt(s, at))|..])
  {
    CutAtBar(s, at);
    ResumedStep(steps, pipes, s, s[..at], PipeAt(s, at), s[at + |PipeText(PipeAt(s, at))|..]);
  }

  /** Resuming at a line whose cut is one segment and one pipe before the cut of `next`. */
  lemma ResumedStep(steps: seq<S.Step>, pipes: seq<Pipe>, s: string, seg: string, pipe: Pipe, next: string)
    requires Cut(s) == (var step :- S.StepOf(seg);
                        var rest :- Cut(next);
                        Ok(([step] + rest.0, [pipe] + rest.1)))
    ensures S.StepOf(seg).Fail? ==> Resumed(steps, pipes, s) == Fail(S.StepOf(seg).error)
    ensures S.StepOf(seg).Ok? ==>
              Resumed(steps, pipes, s) == Resumed(steps + [S.StepOf(seg).value], pipes + [pipe], next)
  {
    if S.StepOf(seg).Ok? && Cut(next).Ok? {
      var step, rest := S.StepOf(seg).value, Cut(next).value;
      assert steps + ([step] + rest.0) == (steps + [step]) + rest.0;
      assert pipes + ([pipe] + rest.1) == (pipes + [pipe]) + rest.1;
    }
  }

  /** The loop of `CutSteps` at the last segment. */
  lemma CutLast(steps: seq<S.Step>, pipes: seq<Pipe>, s: string)
    requires Text.Find(s, '|') == None
    ensures Resumed(steps, pipes, s) == (var step :- S.StepOf(s); Ok((steps + [step], pipes)))
  {
    SplitPipesNoBar(s);
    StepsOfSingle(s);
    assert pipes + [] == pipes;
  }

  lemma StepsOfSingle(seg: string)
    ensures StepsOf([seg]) == (var step :- S.StepOf(seg); Ok([step]))
  {
    assert [seg][1..] == [];
    assert StepsOf([]) == Ok([]);
    if S.StepOf(seg).Ok? {
      assert [S.StepOf(seg).value] + [] == [S.StepOf(seg).value];
    }
  }

  /** Running `Step::new` over two runs of segments is running it over the first and then,
      if that succeeded, over the second. */
  lemma {:induction false} StepsOfAppend(a: seq<string>, b: seq<string>)
    ensures StepsOf(a + b) ==
      (var x :- StepsOf(a);
       var y :- StepsOf(b);
       Ok(x + y))
    decreases |a|
  {
    if a == [] {
      assert a + b == b;
      if StepsOf(b).Ok? {
        assert [] + StepsOf(b).value == StepsOf(b).value;
      }
    } else {
      assert (a + b)[0] == a[0] && (a + b)[1..] == a[1..] + b;
      StepsOfAppend(a[1..], b);
      if S.StepOf(a[0]).Ok? && StepsOf(a[1..]).Ok? && StepsOf(b).Ok? {
        assert [S.StepOf(a[0]).value] + (StepsOf(a[1..]).value + StepsOf(b).value)
            == ([S.StepOf(a[0]).value] + StepsOf(a[1..]).value) + StepsOf(b).value;
      }
    }
  }

  // ---------------------------------------------------------------------------
  // `Pipeline::run`

  /** What a pipe hands to the next step: stdout only over `|`, stdout followed by stderr
      over `|&`. */
  function Forward(out: StepOutput, pipe: Pipe): seq<byte> {
    match pipe
    case Std => out.stdout
    case Err => out.stdout + out.stderr
  }

  /** The input of the first step: what the input redirection's file holds, or nothing. */
  function Input(inReader: Option<R.Reader>): seq<byte> {
    match inReader
    case Some(reader) => reader.data
    case None => []
  }

  /** Running the rest of a pipeline from the output `last` of the previous step: each
      pipe feeds the next step, and the first error stops the run. */
  function RunFrom(last: StepOutput, pipes: seq<Pipe>, steps: seq<S.Step>, rt: S.Runtime): Result<StepOutput>
    requires |pipes| <= |steps|
    decreases |pipes|
  {
    if pipes == [] then Ok(last)
    else
      var next :- S.Run(steps[0], Forward(last, pipes[0]), rt);
      RunFrom(next, pipes[1..], steps[1..], rt)
  }

  /** `Pipeline::run` as a function of the steps, the pipes and the input bytes: the
      output of the step after the last pipe. */
  function RunSpec(steps: seq<S.Step>, pipes: seq<Pipe>, input: seq<byte>, rt: S.Runtime): Result<StepOutput>
    requires |steps| > 0 ==> |pipes| < |steps|
  {
    if steps == [] then Fail(InvalidInputError("No Steps on Pipeline"))
    else
      var first :- S.Run(steps[0], input, rt);
      RunFrom(first, pipes, steps[1..], rt)
  }

  /** With no pipe, running is running the first step on the input. */
  lemma RunWithoutPipes(steps: seq<S.Step>, input: seq<byte>, rt: S.Runtime)
    requires |steps| > 0
    ensures RunSpec(steps, [], input, rt) == S.Run(steps[0], input, rt)
  {
  }

  lemma {:induction false} RunFromAppendPipe(last: StepOutput, pipes: seq<Pipe>, pipe: Pipe, steps: seq<S.Step>, rt: S.Runtime)
    requires |pipes| < |steps|
    ensures RunFrom(last, pipes + [pipe], steps, rt) ==
      (var prev :- RunFrom(last, pipes, steps, rt);
       S.Run(steps[|pipes|], Forward(prev, pipe), rt))
    decreases |pipes|
  {
    if pipes == [] {
      assert [pipe][1..] == [];
    } else {
      assert (pipes + [pipe])[1..] == pipes[1..] + [pipe];
      var r0 := S.Run(steps[0], Forward(last, pipes[0]), rt);
      if r0.Ok? {
        RunFromAppendPipe(r0.value, pipes[1..], pipe, steps[1..], rt);
      }
    }
  }

  /** The dataflow of a run, one pipe at a time: adding a pipe runs one more step, on the
      previous result forwarded through that pipe, and a failure anywhere before it is
      the failure of the whole run. */
  lemma RunAppendPipe(steps: seq<S.Step>, pipes: seq<Pipe>, pipe: Pipe, input: seq<byte>, rt: S.Runtime)
    requires |pipes| + 1 < |steps|
    ensures RunSpec(steps, pipes + [pipe], input, rt) ==
      (var prev :- RunSpec(steps, pipes, input, rt);
       S.Run(steps[|pipes| + 1], Forward(prev, pipe), rt))
  {
    var first := S.Run(steps[0], input, rt);
    if first.Ok? {
      RunFromAppendPipe(first.value, pipes, pipe, steps[1..], rt);
    }
  }

  lemma {:induction false} RunFromIgnoresExtraSteps(last: StepOutput, pipes: seq<Pipe>, steps: seq<S.Step>, extra: seq<S.Step>, rt: S.Runtime)
    requires |pipes| <= |steps|
    ensures RunFrom(last, pipes, steps + extra, rt) == RunFrom(last, pipes, steps, rt)
    decreases |pipes|
  {
    if pipes != [] {
      assert (steps + extra)[1..] == steps[1..] + extra;
      var r0 := S.Run(steps[0], Forward(last, pipes[0]), rt);
      if r0.Ok? {
        RunFromIgnoresExtraSteps(r0.value, pipes[1..], steps[1..], extra, rt);
      }
    }
  }

  /** Steps beyond the one after the last pipe are never run. */
  lemma RunIgnoresExtraSteps(steps: seq<S.Step>, pipes: seq<Pipe>, extra: seq<S.Step>, input: seq<byte>, rt: S.Runtime)
    requires |pipes| < |steps|
    ensures RunSpec(steps + extra, pipes, input, rt) == RunSpec(steps, pipes, input, rt)
  {
    assert (steps + extra)[0] == steps[0];
    assert (steps + extra)[1..] == steps[1..] + extra;
    var first := S.Run(steps[0], input, rt);
    if first.Ok? {
      RunFromIgnoresExtraSteps(first.value, pipes, steps[1..], extra, rt);
    }
  }

  lemma {:induction false} RunFromErrorFromStep(last: StepOutput, pipes: seq<Pipe>, steps: seq<S.Step>, rt: S.Runtime)
    requires |pipes| <= |steps|
    requires RunFrom(last, pipes, steps, rt).Fail?
    ensures exists k, input :: 0 <= k < |pipes| && S.Run(steps[k], input, rt) == Fail(RunFrom(last, pipes, steps, rt).error)
    decreases |pipes|
  {
    var input := Forward(last, pipes[0]);
    var r0 := S.Run(steps[0], input, rt);
    if r0.Fail? {
      assert S.Run(steps[0], input, rt) == Fail(RunFrom(last, pipes, steps, rt).error);
    } else {
      RunFromErrorFromStep(r0.value, pipes[1..], steps[1..], rt);
      var k, x :| 0 <= k < |pipes[1..]| && S.Run(steps[1..][k], x, rt) == Fail(RunFrom(r0.value, pipes[1..], steps[1..], rt).error);
      assert S.Run(steps[k + 1], x, rt) == Fail(RunFrom(last, pipes, steps, rt).error);
    }
  }

  /** A run fails only with "No Steps on Pipeline" on an empty pipeline, or with the error
      of one of the steps it reaches, on some input. */
  lemma RunErrorFromStep(steps: seq<S.Step>, pipes: seq<Pipe>, input: seq<byte>, rt: S.Runtime)
    requires |steps| > 0 ==> |pipes| < |steps|
    requires RunSpec(steps, pipes, input, rt).Fail?
    ensures steps == [] ==> RunSpec(steps, pipes, input, rt).error == IoError(InvalidInput, "No Steps on Pipeline")
    ensures steps != [] ==> exists k, x :: 0 <= k <= |pipes| && S.Run(steps[k], x, rt) == Fail(RunSpec(steps, pipes, input, rt).error)
  {
    if steps != [] {
      var first := S.Run(steps[0], input, rt);
      if first.Fail? {
        assert S.Run(steps[0], input, rt) == Fail(RunSpec(steps, pipes, input, rt).error);
      } else {
        RunFromErrorFromStep(first.value, pipes, steps[1..], rt);
        var k, x :| 0 <= k < |pipes| && S.Run(steps[1..][k], x, rt) == Fail(RunFrom(first.value, pipes, steps[1..], rt).error);
        assert S.Run(steps[k + 1], x, rt) == Fail(RunSpec(steps, pipes, input, rt).error);
      }
    }
  }

  /** `Pipeline::run`: the input reader's bytes go to the first step, each pipe forwards
      the previous output to the next step, and the final output goes to the writers —
      stdout to the output writer, stderr to the error writer — and is returned. A failing
      step stops the run before anything is written. */
  method Run(p: Pipeline, rt: S.Runtime) returns (r: Result<StepOutput>)
    requires |p.steps| > 0 ==> |p.pipes| < |p.steps|
    modifies p.outWriter, p.errWriter
    ensures r == RunSpec(p.steps, p.pipes, Input(p.inReader), rt)
    ensures r.Fail? ==> unchanged(p.outWriter, p.errWriter)
    ensures r.Ok? && p.outWriter != p.errWriter ==>
              p.outWriter.written == old(p.outWriter.written) + r.value.stdout
              && p.errWriter.written == old(p.errWriter.written) + r.value.stderr
    ensures r.Ok? && p.outWriter == p.errWriter ==>
              p.outWriter.written == old(p.outWriter.written) + r.value.stdout + r.value.stderr
  {
    var pipelineInput: seq<byte> := [];
    if p.inReader.Some? {
      pipelineInput := p.inReader.value.data;
    }
    if |p.steps| == 0 {
      return Fail(InvalidInputError("No Steps on Pipeline"));
    }
    var lastOut :- S.Run(p.steps[0], pipelineInput, rt);
    for i := 0 to |p.pipes|
      invariant RunFrom(lastOut, p.pipes[i..], p.steps[i + 1..], rt) == RunSpec(p.steps, p.pipes, pipelineInput, rt)
    {
      var currInput;
      match p.pipes[i] {
        case Std =>
          // Only stdout is collected.
          currInput := lastOut.stdout;
        case Err =>
          // Both stdout and stderr are collected, stderr after stdout.
          currInput := lastOut.stdout + lastOut.stderr;
      }
      var currStep := p.steps[i + 1];
      assert p.pipes[i..][1..] == p.pipes[i + 1..] && p.steps[i + 1..][1..] == p.steps[i + 2..];
      lastOut :- S.Run(currStep, currInput, rt);
    }
    p.outWriter.WriteAll(lastOut.stdout);
    p.errWriter.WriteAll(lastOut.stderr);
    return Ok(lastOut);
  }
}
