/** The command-line adapter of user_interface.py: run the pipeline once, write
    "Error: <literal>" to standard error on failure, and exit with 0 on success or
    with the positive code of the failure's cause. */
module UserInterface {
  import opened Results
  import opened Service

  type PositiveExitCode = c: int | 1 <= c <= 4 witness 1

  type ExitCode = c: int | 0 <= c <= 4

  /** The exit code and the text written to standard error. */
  datatype Exit = Exit(code: ExitCode, stderr: string)

  /** Encoding errors exit with 1, missing files with 2, directories with 3 and
      permission errors with 4, on either side. */
  function ToPositiveExitCode(lit: FailureLiteral): (c: PositiveExitCode)
    ensures c == 1 <==> lit.Cause() == InvalidValue
    ensures c == 2 <==> lit.Cause() == FileNotFound
    ensures c == 3 <==> lit.Cause() == IsADirectory
    ensures c == 4 <==> lit.Cause() == PermissionDenied
  {
    match lit
    case EncodingErrorInInputFile | EncodingErrorInOutputFile => 1
    case InputFileNotFound | OutputFileNotFound => 2
    case InputPathIsADirectory | OutputPathIsADirectory => 3
    case NotEnoughPermissionsForInputFile | NotEnoughPermissionsForOutputFile => 4
  }

  /** The read-side and the write-side literal of one cause exit alike, and
      literals of different causes exit differently. */
  lemma ExitCodeIsTheCause(a: FailureLiteral, b: FailureLiteral)
    ensures ToPositiveExitCode(a) == ToPositiveExitCode(b) <==> a.Cause() == b.Cause()
  {
  }

  /** The match in _default: exit 0 and print nothing on success; on failure
      print "Error: " and the literal on one line and exit with its code. */
  function Report(result: Result<FailureLiteral, ()>): (e: Exit)
    ensures e.code == 0 <==> result.Success?
    ensures result.Success? ==> e.stderr == ""
    ensures result.Failure? ==> e.code == ToPositiveExitCode(result.reason)
    ensures result.Failure? ==> e.stderr == "Error: " + result.reason.Text() + "\n"
  {
    match result
    case Failure(lit) => Exit(ToPositiveExitCode(lit), "Error: " + lit.Text() + "\n")
    case Success(_) => Exit(0, "")
  }

  /** The text on standard error tells exactly which result the pipeline had. */
  lemma {:induction false} StderrIdentifiesResult(r1: Result<FailureLiteral, ()>, r2: Result<FailureLiteral, ()>)
    ensures Report(r1).stderr == Report(r2).stderr <==> r1 == r2
  {
    if Report(r1).stderr == Report(r2).stderr {
      var e1, e2 := Report(r1).stderr, Report(r2).stderr;
      if r1.Failure? && r2.Failure? {
        var t1, t2 := r1.reason.Text(), r2.reason.Text();
        assert |t1| == |e1| - 8 == |e2| - 8 == |t2|;
        assert t1 == e1[7..|e1| - 1] == e2[7..|e2| - 1] == t2;
        TextInjective(r1.reason, r2.reason);
      } else if r1.Success? && r2.Success? {
        assert r1.value == () == r2.value;
      }
    }
  }

  /** _default(input, output): run the pipeline on the disk, then report. */
  method Default(fs: FileSystem, input: Path, output: Path, read: ReadOutcome, write: WriteOutcome)
    returns (e: Exit)
    requires OsReadAgrees(fs.entries, input, read)
    modifies fs
    ensures e == Report(PipelineResult(read, write))
    ensures fs.entries == PipelineEffect(old(fs.entries), output, read, write)
  {
    var result := fs.ExtractTransformLoad(input, output, read, write);
    e := Report(result);
  }

  /** A run over "Hello, World!" exits with 0, prints nothing, writes
      "Length: 13" and leaves the input as it was. */
  lemma HelloWorldScenario(entries: map<Path, Entry>, input: Path, output: Path)
    requires input != output
    requires input in entries && entries[input] == File("Hello, World!")
    ensures var read := ReadOk("Hello, World!");
            var after := PipelineEffect(entries, output, read, Written);
            && Report(PipelineResult(read, Written)) == Exit(0, "")
            && output in after && after[output] == File("Length: 13")
            && input in after && after[input] == File("Hello, World!")
  {
    HelloWorldLength();
  }

  /** A run with a missing input exits with 2, prints "Error: Input file not
      found" and does not create the output. */
  lemma MissingInputScenario(entries: map<Path, Entry>, input: Path, output: Path, write: WriteOutcome)
    requires input !in entries && output !in entries
    ensures var read := ReadError(FileNotFound);
            && Report(PipelineResult(read, write)) == Exit(2, "Error: Input file not found\n")
            && output !in PipelineEffect(entries, output, read, write)
  {
  }
}
