/** Redirection operators (src/redirection.rs): classifying a word as one of the seven
    operators, and pointing one of the pipeline's three I/O slots at the operator's target.
    Opening files and resolving socket addresses are left to a `FileSystem` oracle. */
module Redirection {
  import opened Io

  datatype Redirection =
    | ReadIn        // <
    | WriteOut      // > 1>
    | AppendOut     // >>
    | WriteErr      // 2>
    | AppendErr     // 2>>
    | WriteOutErr   // &> 2>&1
    | AppendOutErr  // &>>

  /** The spellings each operator is written with (the operator table of the shell). */
  function SpellingsOf(r: Redirection): set<string> {
    match r
    case ReadIn => {"<"}
    case WriteOut => {">", "1>"}
    case AppendOut => {">>"}
    case WriteErr => {"2>"}
    case AppendErr => {"2>>"}
    case WriteOutErr => {"&>", "2>&1"}
    case AppendOutErr => {"&>>"}
  }

  /** Every spelling of every operator. */
  function AllSpellings(): set<string> {
    {"<", ">", "1>", ">>", "2>", "2>>", "&>", "2>&1", "&>>"}
  }

  /** `Redirection::from_str`: a whole word is an operator spelling, or it is not an
      operator at all (matching is never by substring). */
  function FromStr(s: string): (r: Option<Redirection>)
    ensures r.Some? <==> s in AllSpellings()
    ensures r.Some? ==> s in SpellingsOf(r.value)
  {
    match s
    case "<" => Some(ReadIn)
    case ">" => Some(WriteOut)
    case "1>" => Some(WriteOut)
    case ">>" => Some(AppendOut)
    case "2>" => Some(WriteErr)
    case "2>>" => Some(AppendErr)
    case "&>" => Some(WriteOutErr)
    case "2>&1" => Some(WriteOutErr)
    case "&>>" => Some(AppendOutErr)
    case _ => None
  }

  /** `Redirection::is_redirection`. */
  function IsRedirection(s: string): (b: bool)
    ensures b <==> s in AllSpellings()
  {
    FromStr(s).Some?
  }

  /** Every operator spelling holds `<` or `>`. */
  lemma SpellingsHoldAngle(s: string)
    requires IsRedirection(s)
    ensures '<' in s || '>' in s
  {
  }

  /** No two operators share a spelling, so `FromStr` inverts `SpellingsOf`. */
  lemma FromStrInvertsSpellings(r: Redirection, s: string)
    requires s in SpellingsOf(r)
    ensures FromStr(s) == Some(r)
  {
  }

  // ---------------------------------------------------------------------------
  // I/O slots

  /** How the target is opened: `File::open`, `File::create`, or
      `OpenOptions::new().append(true).create(true)`. */
  datatype OpenMode = ReadExisting | CreateTruncate | CreateAppend

  /** The slot of the pipeline an operator sets. */
  datatype Slot = InSlot | OutSlot | ErrSlot

  /** The slot each operator fills: the combined operators fill only the output slot. */
  function SlotOf(r: Redirection): Slot {
    match r
    case ReadIn => InSlot
    case WriteErr | AppendErr => ErrSlot
    case WriteOut | AppendOut | WriteOutErr | AppendOutErr => OutSlot
  }

  /** The mode each operator opens its target with. */
  function ModeOf(r: Redirection): OpenMode {
    match r
    case ReadIn => ReadExisting
    case WriteOut | WriteErr | WriteOutErr => CreateTruncate
    case AppendOut | AppendErr | AppendOutErr => CreateAppend
  }

  /** The outside world the shell opens files in. */
  datatype FileSystem = FileSystem(
    /// `to_socket_addrs` succeeds on the target
    resolvesToSocket: string -> bool,
    /// the error opening a path in a mode raises, if any
    openError: (string, OpenMode) -> Option<IoError>,
    /// what reading a file opened for reading to its end yields
    contents: string -> seq<byte>)

  /** Where a writer's bytes go. */
  datatype Sink = ProcessStdout | ProcessStderr | FileSink(path: string, mode: OpenMode)

  /** An opened input: the file and the bytes it will yield. */
  datatype Reader = FileReader(path: string, data: seq<byte>)

  /** A byte sink (`Box<dyn PipelineWriter>`); `written` is everything written to it. */
  class Writer {
    const sink: Sink
    var written: seq<byte>

    constructor (sink: Sink)
      ensures this.sink == sink && written == []
    {
      this.sink := sink;
      written := [];
    }

    /** `write_all`: append the bytes, in order. */
    method WriteAll(bytes: seq<byte>)
      modifies this
      ensures written == old(written) + bytes
    {
      written := written + bytes;
    }
  }

  /** The value held by the three slots: what the input reader reads, and where the
      output and error writers write. */
  datatype SlotState = SlotState(input: Option<Reader>, output: Option<Sink>, error: Option<Sink>)

  const NoRedirections := SlotState(None, None, None)

  /** Opening `target` in `mode`: the error it raises, or the slot value it yields. */
  function Open(target: string, mode: OpenMode, fs: FileSystem): Result<()> {
    match fs.openError(target, mode)
    case Some(e) => Fail(e)
    case None => Ok(())
  }

  /** `configure_redirection` as a function of the slot values: a target that resolves as a
      socket address changes nothing; otherwise the target is opened in the operator's
      mode (an error propagates before any slot is assigned) and one slot is set. */
  function Configure(st: SlotState, r: Redirection, target: string, fs: FileSystem): Result<SlotState> {
    if fs.resolvesToSocket(target) then Ok(st)
    else
      match r
      case ReadIn =>
        var _ :- Open(target, ReadExisting, fs);
        Ok(st.(input := Some(FileReader(target, fs.contents(target)))))
      case WriteOut =>
        var _ :- Open(target, CreateTruncate, fs);
        Ok(st.(output := Some(FileSink(target, CreateTruncate))))
      case AppendOut =>
        var _ :- Open(target, CreateAppend, fs);
        Ok(st.(output := Some(FileSink(target, CreateAppend))))
      case WriteErr =>
        var _ :- Open(target, CreateTruncate, fs);
        Ok(st.(error := Some(FileSink(target, CreateTruncate))))
      case AppendErr =>
        var _ :- Open(target, CreateAppend, fs);
        Ok(st.(error := Some(FileSink(target, CreateAppend))))
      case WriteOutErr =>
        var _ :- Open(target, CreateTruncate, fs);
        Ok(st.(output := Some(FileSink(target, CreateTruncate))))
      case AppendOutErr =>
        var _ :- Open(target, CreateAppend, fs);
        Ok(st.(output := Some(FileSink(target, CreateAppend))))
  }

  /** What `Configure` does, stated by the slot and mode tables: it fails exactly when
      opening the (non-socket) target in the operator's mode fails; on success it sets the
      operator's slot to the target opened in that mode and leaves the other two alone. */
  lemma ConfigureSetsOneSlot(st: SlotState, r: Redirection, target: string, fs: FileSystem)
    ensures Configure(st, r, target, fs).Fail?
        <==> !fs.resolvesToSocket(target) && fs.openError(target, ModeOf(r)).Some?
    ensures Configure(st, r, target, fs).Fail?
        ==> Configure(st, r, target, fs).error == fs.openError(target, ModeOf(r)).value
    ensures fs.resolvesToSocket(target) ==> Configure(st, r, target, fs) == Ok(st)
    ensures Configure(st, r, target, fs).Ok? && !fs.resolvesToSocket(target) ==>
      var st' := Configure(st, r, target, fs).value;
      (SlotOf(r) == InSlot ==> st' == st.(input := Some(FileReader(target, fs.contents(target)))))
      && (SlotOf(r) == OutSlot ==> st' == st.(output := Some(FileSink(target, ModeOf(r)))))
      && (SlotOf(r) == ErrSlot ==> st' == st.(error := Some(FileSink(target, ModeOf(r)))))
  {
  }

  /** The `&mut Option` slots `configure_redirection` writes through. */
  class Slots {
    var inReader: Option<Reader>
    var outWriter: Option<Writer>
    var errWriter: Option<Writer>

    /** The slot values (a writer is known by its sink). */
    function State(): SlotState
      reads this
    {
      SlotState(
        inReader,
        if outWriter.Some? then Some(outWriter.value.sink) else None,
        if errWriter.Some? then Some(errWriter.value.sink) else None)
    }

    /** Every writer in a slot is one this configuration opened, so nothing has been
        written to it yet. */
    predicate Fresh()
      reads this, if outWriter.Some? then {outWriter.value} else {},
            if errWriter.Some? then {errWriter.value} else {}
    {
      (outWriter.Some? ==> outWriter.value.written == [])
      && (errWriter.Some? ==> errWriter.value.written == [])
      && (outWriter.Some? && errWriter.Some? ==> outWriter.value != errWriter.value)
    }

    constructor ()
      ensures State() == NoRedirections
      ensures Fresh()
    {
      inReader, outWriter, errWriter := None, None, None;
    }

    /** `Redirection::configure_redirection(&self, src_or_dst, in_reader, out_writer,
        err_writer)`: on success the slots hold `Configure` of their old value, a newly
        set writer being a freshly opened handle; on failure nothing changes. */
    method ConfigureRedirection(r: Redirection, target: string, fs: FileSystem) returns (res: Result<()>)
      requires Fresh()
      modifies this
      ensures Fresh()
      ensures res.Fail? <==> Configure(old(State()), r, target, fs).Fail?
      ensures res.Fail? ==> res.error == Configure(old(State()), r, target, fs).error
                            && unchanged(this)
      ensures res.Ok? ==> State() == Configure(old(State()), r, target, fs).value
      ensures outWriter == old(outWriter) || (outWriter.Some? && fresh(outWriter.value))
      ensures errWriter == old(errWriter) || (errWriter.Some? && fresh(errWriter.value))
      ensures SlotOf(r) != OutSlot || fs.resolvesToSocket(target) ==> outWriter == old(outWriter)
      ensures SlotOf(r) != ErrSlot || fs.resolvesToSocket(target) ==> errWriter == old(errWriter)
      ensures SlotOf(r) != InSlot || fs.resolvesToSocket(target) ==> inReader == old(inReader)
    {
      if fs.resolvesToSocket(target) {
        // A network endpoint: not implemented, every operator leaves the slots alone.
        return Ok(());
      }
      var outcome := Open(target, ModeOf(r), fs);
      if outcome.Fail? {
        return Fail(outcome.error);
      }
      match r {
        case ReadIn =>
          inReader := Some(FileReader(target, fs.contents(target)));
        case WriteErr | AppendErr =>
          var w := new Writer(FileSink(target, ModeOf(r)));
          errWriter := Some(w);
        case WriteOut | AppendOut | WriteOutErr | AppendOutErr =>
          // The combined operators set only the output writer: it is the sole
          // destination for both streams.
          var w := new Writer(FileSink(target, ModeOf(r)));
          outWriter := Some(w);
      }
      return Ok(());
    }
  }
}
