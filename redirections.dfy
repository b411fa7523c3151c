/** The earlier redirection helpers of `src/redirections.rs`: a token classifier and a
    dispatch from operator to the function that opens its target. The classifier and the
    dispatch accept different sets of operators, and both are compared here with the
    operator table of the `Redirection` module. */
module Redirections {
  import opened Io
  import R = Redirection

  /** `is_redirection`: the seven spellings it lists. */
  function IsRedirection(token: string): (b: bool)
    ensures b <==> R.IsRedirection(token) && token != "2>>" && token != "2>&1"
  {
    token in {"<", ">", "1>", "2>", ">>", "&>", "&>>"}
  }

  /** Two operators `redirect` accepts are not classified as redirections. */
  lemma ClassifierMissesTwo()
    ensures "2>>" in R.AllSpellings() && !IsRedirection("2>>")
    ensures "2>&1" in R.AllSpellings() && !IsRedirection("2>&1")
  {
  }

  /** The open function `redirect` calls for an operator (`read_in`, `write_out`,
      `append_out`, `write_err`, `append_err`, `write_out_err`, `append_out_err`), named by
      the operator it serves; any other operator panics. */
  function Dispatch(op: string): (r: R.Redirection)
    requires op in R.AllSpellings()
    ensures R.FromStr(op) == Some(r)
  {
    match op
    case "<" => R.ReadIn
    case ">" => R.WriteOut
    case "1>" => R.WriteOut
    case ">>" => R.AppendOut
    case "2>" => R.WriteErr
    case "2>>" => R.AppendErr
    case "&>" => R.WriteOutErr
    case "2>&1" => R.WriteOutErr
    case "&>>" => R.AppendOutErr
  }

  /** `redirect`: opens `filename` as the operator's function does; the only outcome is
      whether opening fails. */
  function Redirect(op: string, filename: string, fs: R.FileSystem): (r: Result<()>)
    requires op in R.AllSpellings()
    ensures r == R.Open(filename, R.ModeOf(R.FromStr(op).value), fs)
    ensures r.Fail? <==> fs.openError(filename, R.ModeOf(R.FromStr(op).value)).Some?
  {
    var mode := R.ModeOf(Dispatch(op));
    match fs.openError(filename, mode)
    case Some(e) => Fail(e)
    case None => Ok(())
  }

  /** Writes truncate, appends append, and `<` reads an existing file. */
  lemma RedirectModes(op: string, filename: string, fs: R.FileSystem)
    requires op in R.AllSpellings()
    ensures op in {">", "1>", "2>", "&>", "2>&1"} ==> Redirect(op, filename, fs) == R.Open(filename, R.CreateTruncate, fs)
    ensures op in {">>", "2>>", "&>>"} ==> Redirect(op, filename, fs) == R.Open(filename, R.CreateAppend, fs)
    ensures op == "<" ==> Redirect(op, filename, fs) == R.Open(filename, R.ReadExisting, fs)
  {
  }
}
