/** The extract-transform-load pipeline of service.py: read the input file,
    replace its text by "Length: <character count>", write that to the output
    file, and report one of eight failure literals when a file access fails.

    The operating system is not modelled: what opening and reading the input, or
    opening and writing the output, produced is given as an outcome, and the disk
    is a map from path to entry that only the write stage changes. */
module Service {
  import opened Results
  import Decimal

  type Path = string

  /** What is stored at a path. */
  datatype Entry = File(text: string) | Directory

  /** The four exceptions the stages catch: FileNotFoundError,
      IsADirectoryError, PermissionError and ValueError (a decoding or encoding
      error is a ValueError). */
  datatype ErrorKind = FileNotFound | IsADirectory | PermissionDenied | InvalidValue

  /** Which stage reports a failure. */
  datatype Side = InputSide | OutputSide

  /** What opening the input path for reading and reading it to the end produced. */
  datatype ReadOutcome = ReadOk(content: string) | ReadError(kind: ErrorKind)

  /** What opening the output path for writing and writing the text produced:
      the open itself can fail, or the open succeeds (creating or truncating the
      file) and the write raises a ValueError because the text cannot be encoded. */
  datatype WriteOutcome = Written | OpenError(kind: ErrorKind) | EncodeError

  /** The union of the read-side and the write-side literal types. */
  datatype FailureLiteral =
    | EncodingErrorInInputFile
    | InputFileNotFound
    | InputPathIsADirectory
    | NotEnoughPermissionsForInputFile
    | EncodingErrorInOutputFile
    | NotEnoughPermissionsForOutputFile
    | OutputFileNotFound
    | OutputPathIsADirectory
  {
    /** The literal's text, as printed after "Error: ": one of the eight strings
        of the two literal types. */
    function Text(): (t: string)
      ensures t in ExtractFailureTexts + LoadFailureTexts
    {
      match this
      case EncodingErrorInInputFile => "Encoding error in input file"
      case InputFileNotFound => "Input file not found"
      case InputPathIsADirectory => "Input path is a directory"
      case NotEnoughPermissionsForInputFile => "Not enough permissions for input file"
      case EncodingErrorInOutputFile => "Encoding error in output file"
      case NotEnoughPermissionsForOutputFile => "Not enough permissions for output file"
      case OutputFileNotFound => "Output file not found"
      case OutputPathIsADirectory => "Output path is a directory"
    }

    /** The stage whose literal type holds this literal. */
    function Side(): (side: Side)
      ensures side == InputSide <==> Text() in ExtractFailureTexts
      ensures side == OutputSide <==> Text() in LoadFailureTexts
    {
      match this
      case EncodingErrorInInputFile | InputFileNotFound
         | InputPathIsADirectory | NotEnoughPermissionsForInputFile => InputSide
      case _ => OutputSide
    }

    /** The exception the literal reports; the literals of one cause are the
        pairs that the exit-code mapping groups in one case. */
    function Cause(): (kind: ErrorKind)
      ensures kind == InvalidValue
              <==> Text() in {"Encoding error in input file", "Encoding error in output file"}
      ensures kind == FileNotFound
              <==> Text() in {"Input file not found", "Output file not found"}
      ensures kind == IsADirectory
              <==> Text() in {"Input path is a directory", "Output path is a directory"}
      ensures kind == PermissionDenied
              <==> Text() in {"Not enough permissions for input file", "Not enough permissions for output file"}
    {
      match this
      case EncodingErrorInInputFile | EncodingErrorInOutputFile => InvalidValue
      case InputFileNotFound | OutputFileNotFound => FileNotFound
      case InputPathIsADirectory | OutputPathIsADirectory => IsADirectory
      case NotEnoughPermissionsForInputFile | NotEnoughPermissionsForOutputFile => PermissionDenied
    }
  }

  /** The texts of the read-side literal type. */
  const ExtractFailureTexts: set<string> := {
    "Encoding error in input file",
    "Input file not found",
    "Input path is a directory",
    "Not enough permissions for input file"
  }

  /** The texts of the write-side literal type. */
  const LoadFailureTexts: set<string> := {
    "Encoding error in output file",
    "Not enough permissions for output file",
    "Output file not found",
    "Output path is a directory"
  }

  /** A literal is on the read side exactly when its text is one of the read-side
      texts, on the write side exactly when it is one of the write-side texts,
      and no text is on both sides. */
  lemma LiteralTypes(lit: FailureLiteral)
    ensures lit.Side() == InputSide <==> lit.Text() in ExtractFailureTexts
    ensures lit.Side() == OutputSide <==> lit.Text() in LoadFailureTexts
    ensures ExtractFailureTexts !! LoadFailureTexts
  {
  }

  /** Different literals have different texts, so the text identifies the failure. */
  lemma TextInjective(a: FailureLiteral, b: FailureLiteral)
    ensures a.Text() == b.Text() <==> a == b
  {
  }

  /** The read stage: the file's whole text, or the read-side literal of the
      exception raised. */
  function Extract(read: ReadOutcome): (r: Result<FailureLiteral, string>)
    ensures r.Success? <==> read.ReadOk?
    ensures r.Success? ==> r.value == read.content
    ensures r.Failure? ==> r.reason.Side() == InputSide && r.reason.Cause() == read.kind
  {
    match read
    case ReadOk(s) => Success(s)
    case ReadError(FileNotFound) => Failure(InputFileNotFound)
    case ReadError(IsADirectory) => Failure(InputPathIsADirectory)
    case ReadError(PermissionDenied) => Failure(NotEnoughPermissionsForInputFile)
    case ReadError(InvalidValue) => Failure(EncodingErrorInInputFile)
  }

  /** Every read-side literal is reported for exactly one exception. */
  lemma ExtractClassifiesEveryInputLiteral(lit: FailureLiteral)
    requires lit.Side() == InputSide
    ensures Extract(ReadError(lit.Cause())) == Failure(lit)
    ensures forall kind :: Extract(ReadError(kind)) == Failure(lit) <==> kind == lit.Cause()
  {
  }

  /** The transform stage: "Length: " followed by the number of characters. */
  function Transform(s: string): (t: string)
    ensures |t| > 8 && t[..8] == "Length: "
    ensures Decimal.AllDigits(t[8..])
  {
    "Length: " + Decimal.NatToString(|s|)
  }

  /** The transformed text is the prefix "Length: " followed by decimal digits
      without a leading zero that read back as the character count. */
  lemma TransformReadsBack(s: string)
    ensures |Transform(s)| > 8 && Transform(s)[..8] == "Length: "
    ensures Decimal.AllDigits(Transform(s)[8..])
    ensures Decimal.ParseDigits(Transform(s)[8..]) == |s|
    ensures Transform(s)[8] == '0' ==> s == []
    ensures s == [] ==> Transform(s) == "Length: 0"
  {
    assert Transform(s)[8..] == Decimal.NatToString(|s|);
    Decimal.ParseNatToString(|s|);
  }

  /** Two texts transform alike exactly when they have the same length. */
  lemma TransformDependsOnlyOnLength(s: string, t: string)
    ensures Transform(s) == Transform(t) <==> |s| == |t|
  {
    if Transform(s) == Transform(t) {
      assert Transform(s)[8..] == Decimal.NatToString(|s|);
      assert Transform(t)[8..] == Decimal.NatToString(|t|);
      Decimal.NatToStringInjective(|s|, |t|);
    }
  }

  lemma HelloWorldLength()
    ensures Transform("Hello, World!") == "Length: 13"
  {
    assert Decimal.NatToString(13) == "13";
  }

  /** What the write stage reports: success, or the write-side literal of the
      exception raised. */
  function LoadResult(write: WriteOutcome): (r: Result<FailureLiteral, ()>)
    ensures r.Success? <==> write.Written?
    ensures write.OpenError? ==> r.Failure? && r.reason.Side() == OutputSide && r.reason.Cause() == write.kind
    ensures write.EncodeError? ==> r.Failure? && r.reason.Side() == OutputSide && r.reason.Cause() == InvalidValue
  {
    match write
    case Written => Success(())
    case OpenError(FileNotFound) => Failure(OutputFileNotFound)
    case OpenError(IsADirectory) => Failure(OutputPathIsADirectory)
    case OpenError(PermissionDenied) => Failure(NotEnoughPermissionsForOutputFile)
    case OpenError(InvalidValue) => Failure(EncodingErrorInOutputFile)
    case EncodeError => Failure(EncodingErrorInOutputFile)
  }

  /** The write stage as a step of the railway: _load(output) applied to the text. */
  function Load(write: WriteOutcome): (step: string -> Result<FailureLiteral, ()>)
    ensures forall s :: step(s).Success? <==> write.Written?
    ensures forall s :: step(s).Failure? ==> step(s).reason.Side() == OutputSide
  {
    s => LoadResult(write)
  }

  /** What the write stage leaves on disk: the text, nothing changed when the
      open failed, or an empty file when the open created or truncated it and
      the write failed. */
  function AfterLoad(entries: map<Path, Entry>, output: Path, s: string, write: WriteOutcome): (after: map<Path, Entry>)
    ensures write.OpenError? ==> after == entries
    ensures !write.OpenError? ==> output in after && after == entries[output := after[output]]
    ensures write.Written? ==> after[output] == File(s)
    ensures write.EncodeError? ==> after[output] == File("")
  {
    match write
    case Written => entries[output := File(s)]
    case OpenError(_) => entries
    case EncodeError => entries[output := File("")]
  }

  /** extract_transform_load: read, then transform, then write. */
  function PipelineResult(read: ReadOutcome, write: WriteOutcome): (r: Result<FailureLiteral, ()>)
    ensures r.Success? <==> read.ReadOk? && write.Written?
    ensures read.ReadError? ==> r == Failure(Extract(read).reason)
    ensures read.ReadOk? ==> r == LoadResult(write)
  {
    MapSuccessToResult(MapSuccess(Extract(read), Transform), Load(write))
  }

  /** The disk after extract_transform_load: the write stage runs only when the
      read stage succeeded. */
  function PipelineEffect(entries: map<Path, Entry>, output: Path, read: ReadOutcome, write: WriteOutcome): (after: map<Path, Entry>)
    ensures read.ReadError? ==> after == entries
    ensures read.ReadOk? ==> after == AfterLoad(entries, output, Transform(read.content), write)
  {
    match MapSuccess(Extract(read), Transform)
    case Failure(_) => entries
    case Success(s) => AfterLoad(entries, output, s, write)
  }

  /** The assumptions about the read outcome that the lemmas rely on: the text
      read is the file's, a not-found error is reported only for a missing entry,
      and a directory error only for a directory. A permission or decoding error
      may be reported for any path (a missing file under a directory that cannot
      be searched gives a permission error). */
  predicate OsReadAgrees(entries: map<Path, Entry>, input: Path, read: ReadOutcome): (ok: bool)
    ensures ok && read.ReadOk? ==> input in entries && entries[input].File? && Extract(read) == Success(entries[input].text)
    ensures ok && read == ReadError(FileNotFound) ==> input !in entries
  {
    match read
    case ReadOk(s) => input in entries && entries[input] == File(s)
    case ReadError(FileNotFound) => input !in entries
    case ReadError(IsADirectory) => input in entries && entries[input].Directory?
    case ReadError(_) => true
  }

  /** What a real operating system guarantees about the write outcome: a file can
      be opened for writing only where there is a file or nothing, and a directory
      error is reported only for a directory. */
  predicate OsWriteAgrees(entries: map<Path, Entry>, output: Path, write: WriteOutcome): (ok: bool)
    ensures ok && output in entries && entries[output].Directory? ==> write.OpenError?
  {
    match write
    case Written => output !in entries || entries[output].File?
    case EncodeError => output !in entries || entries[output].File?
    case OpenError(IsADirectory) => output in entries && entries[output].Directory?
    case OpenError(_) => true
  }

  /** Short circuit: when the read stage fails, the pipeline fails with the same
      literal, the write stage does not run and the disk is untouched. */
  lemma ReadFailureShortCircuits(entries: map<Path, Entry>, output: Path, read: ReadOutcome, write: WriteOutcome)
    requires read.ReadError?
    ensures PipelineResult(read, write) == Failure(Extract(read).reason)
    ensures PipelineResult(read, write).reason.Side() == InputSide
    ensures PipelineEffect(entries, output, read, write) == entries
  {
  }

  /** The pipeline succeeds exactly when both file accesses do; a read-side
      literal means the read failed, a write-side literal that the read
      succeeded and the write failed. */
  lemma PipelineOutcome(read: ReadOutcome, write: WriteOutcome)
    ensures PipelineResult(read, write).Success? <==> read.ReadOk? && write.Written?
    ensures PipelineResult(read, write).Failure? && PipelineResult(read, write).reason.Side() == InputSide
            <==> read.ReadError?
    ensures PipelineResult(read, write).Failure? && PipelineResult(read, write).reason.Side() == OutputSide
            <==> read.ReadOk? && !write.Written?
  {
  }

  /** On success the output file holds the transformed text of the input file,
      whatever was at the output path before. */
  lemma SuccessWritesTransform(entries: map<Path, Entry>, input: Path, output: Path, read: ReadOutcome, write: WriteOutcome)
    requires OsReadAgrees(entries, input, read)
    requires PipelineResult(read, write).Success?
    ensures input in entries && entries[input].File?
    ensures PipelineEffect(entries, output, read, write) == entries[output := File(Transform(entries[input].text))]
  {
  }

  /** Only the output path can change, and only after a successful read. */
  lemma OnlyOutputChanges(entries: map<Path, Entry>, output: Path, read: ReadOutcome, write: WriteOutcome)
    ensures var after := PipelineEffect(entries, output, read, write);
            after == entries || (read.ReadOk? && output in after && after == entries[output := after[output]])
  {
  }

  /** The input file is never changed when it is not also the output. */
  lemma InputUnchanged(entries: map<Path, Entry>, input: Path, output: Path, read: ReadOutcome, write: WriteOutcome)
    requires input != output
    ensures var after := PipelineEffect(entries, output, read, write);
            (input in after <==> input in entries) && (input in entries ==> after[input] == entries[input])
  {
  }

  /** When the input is also the output, a successful run replaces the input's
      text by its length line. */
  lemma SamePathOverwritesInput(entries: map<Path, Entry>, path: Path, read: ReadOutcome, write: WriteOutcome)
    requires OsReadAgrees(entries, path, read)
    requires PipelineResult(read, write).Success?
    ensures path in entries && entries[path].File?
    ensures path in PipelineEffect(entries, path, read, write)
    ensures PipelineEffect(entries, path, read, write)[path] == File(Transform(entries[path].text))
  {
    SuccessWritesTransform(entries, path, path, read, write);
  }

  /** A write whose open fails leaves the disk as it was: a missing output stays
      missing, a directory stays a directory. */
  lemma OpenFailureLeavesDisk(entries: map<Path, Entry>, output: Path, read: ReadOutcome, write: WriteOutcome)
    requires write.OpenError?
    ensures PipelineEffect(entries, output, read, write) == entries
  {
  }

  /** Whatever the outcome the operating system may report, a directory at the
      output path is still a directory afterwards, and the run fails. */
  lemma OutputDirectoryStays(entries: map<Path, Entry>, output: Path, read: ReadOutcome, write: WriteOutcome)
    requires output in entries && entries[output].Directory?
    requires OsWriteAgrees(entries, output, write)
    ensures output in PipelineEffect(entries, output, read, write)
    ensures PipelineEffect(entries, output, read, write)[output] == Directory
    ensures PipelineResult(read, write).Failure?
  {
  }

  /** A write that fails after the open leaves an empty output file. */
  lemma EncodeFailureTruncates(entries: map<Path, Entry>, output: Path, content: string)
    ensures PipelineEffect(entries, output, ReadOk(content), EncodeError) == entries[output := File("")]
    ensures PipelineResult(ReadOk(content), EncodeError) == Failure(EncodingErrorInOutputFile)
  {
  }

  /** The disk, which the write stage changes in place. */
  class FileSystem {
    var entries: map<Path, Entry>

    constructor (entries: map<Path, Entry>)
      ensures this.entries == entries
    {
      this.entries := entries;
    }

    /** _load(output)(s): open the output for writing, write s, close. */
    method Load(output: Path, s: string, write: WriteOutcome) returns (r: Result<FailureLiteral, ()>)
      modifies this
      ensures r == LoadResult(write)
      ensures entries == AfterLoad(old(entries), output, s, write)
    {
      r := LoadResult(write);
      match write
      case Written =>
        entries := entries[output := File(s)];
      case OpenError(_) =>
      case EncodeError =>
        entries := entries[output := File("")];
    }

    /** extract_transform_load(input, output); read is what reading the input
        produced. */
    method ExtractTransformLoad(input: Path, output: Path, read: ReadOutcome, write: WriteOutcome)
      returns (r: Result<FailureLiteral, ()>)
      requires OsReadAgrees(entries, input, read)
      modifies this
      ensures r == PipelineResult(read, write)
      ensures entries == PipelineEffect(old(entries), output, read, write)
      ensures r.Success? ==> input in old(entries) && old(entries)[input].File?
                             && output in entries && entries[output] == File(Transform(old(entries)[input].text))
    {
      var transformed := MapSuccess(Extract(read), Transform);
      match transformed
      case Failure(reason) =>
        r := Failure(reason);
      case Success(s) =>
        r := Load(output, s, write);
    }
  }
}
