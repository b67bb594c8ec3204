/** The package's own command-line entry point (__init__.py): the same adapter
    as user_interface.py, written a second time over the same pipeline. */
module TrcksExampleCyclopts {
  import opened Results
  import opened Service
  import UserInterface

  type PositiveExitCode = c: int | 1 <= c <= 4 witness 1

  type ExitCode = c: int | 0 <= c <= 4

  /** The exit code and the text written to standard error. */
  datatype Exit = Exit(code: ExitCode, stderr: string)

  /** Encoding errors exit with 1, missing files with 2, directories with 3 and
      permission errors with 4, on either side. */
  function ToPositiveExitCode(lit: FailureLiteral): (c: PositiveExitCode)
    ensures c == 1 <==> lit.Cause() == InvalidValue
    ensures c == 2 <==> lit.Cause() == FileNotFound
    ensures c == 3 <==> lit.Cause() == IsADirectory
    ensures c == 4 <==> lit.Cause() == PermissionDenied
  {
    match lit
    case EncodingErrorInInputFile | EncodingErrorInOutputFile => 1
    case InputFileNotFound | OutputFileNotFound => 2
    case InputPathIsADirectory | OutputPathIsADirectory => 3
    case NotEnoughPermissionsForInputFile | NotEnoughPermissionsForOutputFile => 4
  }

  /** The match in _default: exit 0 and print nothing on success; on failure
      print "Error: " and the literal on one line and exit with its code. */
  function Report(result: Result<FailureLiteral, ()>): (e: Exit)
    ensures e.code == 0 <==> result.Success?
    ensures result.Success? ==> e.stderr == ""
    ensures result.Failure? ==> e.code == ToPositiveExitCode(result.reason)
    ensures result.Failure? ==> e.stderr == "Error: " + result.reason.Text() + "\n"
  {
    match result
    case Failure(lit) => Exit(ToPositiveExitCode(lit), "Error: " + lit.Text() + "\n")
    case Success(_) => Exit(0, "")
  }

  /** Both entry points map every literal to the same exit code and report every
      pipeline result alike. */
  lemma AgreesWithUserInterface(lit: FailureLiteral, result: Result<FailureLiteral, ()>)
    ensures ToPositiveExitCode(lit) == UserInterface.ToPositiveExitCode(lit)
    ensures Report(result).code == UserInterface.Report(result).code
    ensures Report(result).stderr == UserInterface.Report(result).stderr
  {
  }

  /** _default(input, output): run the pipeline on the disk, then report. */
  method Default(fs: FileSystem, input: Path, output: Path, read: ReadOutcome, write: WriteOutcome)
    returns (e: Exit)
    requires OsReadAgrees(fs.entries, input, read)
    modifies fs
    ensures e == Report(PipelineResult(read, write))
    ensures fs.entries == PipelineEffect(old(fs.entries), output, read, write)
  {
    var result := fs.ExtractTransformLoad(input, output, read, write);
    e := Report(result);
  }
}
