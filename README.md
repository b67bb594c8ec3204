# trcks-example-cyclopts in Dafny

A model of a small command-line program that reads a text file, replaces its
text by `Length: <number of characters>`, and writes that line to an output
file. The program is written in the railway style of the trcks library: each
stage returns either `("success", value)` or `("failure", literal)`, and a
failure skips every later stage. A failed file access becomes one of eight
failure literals: four for the input side and four for the output side. The
command-line entry point prints `Error: <literal>` to standard error. It exits
with 1 for an encoding error, 2 for a missing file, 3 for a directory and 4 for
a permission error. It exits with 0 on success.

Modules:

- `Results` (the trcks `Result`): the two-track result and the combinators
  `MapSuccess` (map_success) and `MapSuccessToResult` (map_success_to_result).
- `Decimal`: Python's decimal rendering of a non-negative `int`, with a parser
  that reads it back.
- `Service` (src/trcks_example_cyclopts/service.py): the failure literals, the
  read stage `Extract`, the transform `Transform`, the write stage
  (`LoadResult` for what it reports, `AfterLoad` for what it leaves on disk),
  and the chained pipeline (`PipelineResult`, `PipelineEffect`). The disk is
  the class `FileSystem`. Its field `entries` maps paths to files and
  directories. Its methods `Load` and `ExtractTransformLoad` update that map in
  place, and their contracts tie them to the pure functions.
- `UserInterface` (src/trcks_example_cyclopts/user_interface.py) and
  `TrcksExampleCyclopts` (src/trcks_example_cyclopts/__init__.py): the two
  copies of the command-line adapter. `ToPositiveExitCode` maps a literal to
  its exit code. `Report` is the match in `_default`. `Default` runs the
  pipeline on the disk and reports.

The operating system is not modelled. What opening and reading the input
produced is a `ReadOutcome`. What opening and writing the output produced is a
`WriteOutcome`. Both are parameters. `OsReadAgrees` and `OsWriteAgrees` state
the few facts about them that the lemmas rely on: the text read is the file's
text, a not-found error is reported only for a missing path, and a directory
error only for a directory. A permission or decoding error may be reported for
any path; for example, a missing file under a directory that cannot be searched
gives a permission error. The lemmas that need these facts take them as
`requires`.

Two names in the source do not resolve to code shown here.
user_interface.py:24 calls `service.read_transform_write`, but service.py
defines `extract_transform_load` (service.py:73). `__init__.py` imports a module
`_service`, which is not part of this model. Both are modelled as the pipeline
of service.py.

The model also shows that "the input file is never modified" needs the input
and output paths to differ. When they are the same path, a successful run
replaces the input's text by its length line (`SamePathOverwritesInput`).

## Model

| member | source | states |
|---|---|---|
| Results.MapSuccess | src/trcks_example_cyclopts/service.py:77 | a failure passes through with its literal unchanged; a success value is replaced by the function's image |
| Results.MapSuccessToResult | src/trcks_example_cyclopts/service.py:78 | a failure passes through unchanged and the next step is not applied; a success value's result is the step's result |
| Results.MapSuccessIsBindOfSuccess | src/trcks_example_cyclopts/service.py:76-78 | map_success equals map_success_to_result with a step that always succeeds |
| Results.MapSuccessToResultFailure | src/trcks_example_cyclopts/service.py:73-80 | a chained result fails exactly when the input or the step failed |
| Decimal.NatToString | src/trcks_example_cyclopts/service.py:70 | the rendering of a count is a non-empty string of decimal digits, with a leading zero only for 0 |
| Decimal.ParseNatToString | src/trcks_example_cyclopts/service.py:70 | reading the rendered digits back gives the count that was rendered |
| Decimal.NatToStringInjective | src/trcks_example_cyclopts/service.py:70 | two counts render alike exactly when they are equal |
| Service.FailureLiteral.Text | src/trcks_example_cyclopts/service.py:11-23 | every literal's text is one of the eight strings of the two literal types |
| Service.FailureLiteral.Side | src/trcks_example_cyclopts/service.py:11-27 | a literal is read-side exactly when its text is in the read-side literal type, and write-side exactly when it is in the write-side type |
| Service.FailureLiteral.Cause | src/trcks_example_cyclopts/user_interface.py:37-49 | the literals of one cause are exactly the two texts that one case of the exit-code mapping groups together |
| Service.LiteralTypes | src/trcks_example_cyclopts/service.py:11-27 | a literal is read-side exactly when its text is one of the four read-side texts, write-side exactly when it is one of the four write-side texts, and the two sets of texts are disjoint |
| Service.TextInjective | src/trcks_example_cyclopts/service.py:11-23 | the eight literal texts are pairwise distinct |
| Service.Extract | src/trcks_example_cyclopts/service.py:30-45 | success exactly when the read succeeded, with the whole text; otherwise a read-side literal whose cause is the exception raised |
| Service.ExtractClassifiesEveryInputLiteral | src/trcks_example_cyclopts/service.py:34-43 | every read-side literal is reported for exactly one exception kind, its cause |
| Service.Transform | src/trcks_example_cyclopts/service.py:69-70 | the transformed text is "Length: " followed by decimal digits |
| Service.TransformReadsBack | src/trcks_example_cyclopts/service.py:69-70 | the transformed text is "Length: " followed by digits that parse back to the number of characters; the empty text gives exactly "Length: 0" |
| Service.TransformDependsOnlyOnLength | src/trcks_example_cyclopts/service.py:69-70 | two texts transform alike exactly when they have the same number of characters |
| Service.HelloWorldLength | tests/trcks_example_cyclopts/test_user_interface.py:67 | "Hello, World!" transforms to "Length: 13" |
| Service.LoadResult | src/trcks_example_cyclopts/service.py:48-64 | success exactly when the write went through; an open failure gives the write-side literal of its exception; a failing write gives the output encoding literal |
| Service.Load | src/trcks_example_cyclopts/service.py:48-66 | the step _load(output) succeeds on any text exactly when the write went through, and otherwise fails with a write-side literal |
| Service.AfterLoad | src/trcks_example_cyclopts/service.py:50-52 | a failed open leaves the disk as it was; otherwise only the output path changes, holding the text after a completed write and an empty file after a failed write |
| Service.PipelineResult | src/trcks_example_cyclopts/service.py:73-80 | the chained result succeeds exactly when read and write succeed; a failed read gives the read stage's literal; after a good read the result is the write stage's |
| Service.PipelineEffect | src/trcks_example_cyclopts/service.py:73-80 | a failed read leaves the disk as it was; after a good read the disk is what the write stage leaves when given the transformed text |
| Service.OsReadAgrees | src/trcks_example_cyclopts/service.py:32-33 | under the read assumptions, a good read yields the text of the file at the input path, and not-found is reported only for a missing path |
| Service.OsWriteAgrees | src/trcks_example_cyclopts/service.py:51-52 | under the write assumptions, opening a directory for writing always fails at the open |
| Service.ReadFailureShortCircuits | src/trcks_example_cyclopts/service.py:73-80 | a failed read makes the pipeline fail with the read stage's literal, and the disk is not touched |
| Service.PipelineOutcome | src/trcks_example_cyclopts/service.py:73-80 | the pipeline succeeds exactly when read and write both succeed; a read-side literal exactly when the read failed; a write-side literal exactly when the read succeeded and the write failed |
| Service.SuccessWritesTransform | src/trcks_example_cyclopts/service.py:73-80 | on success the output path holds a file with the transformed text of the input file, and nothing else on disk changed |
| Service.OnlyOutputChanges | src/trcks_example_cyclopts/service.py:48-52 | the disk after a run is the disk before, or it differs only at the output path and only after a successful read |
| Service.InputUnchanged | src/trcks_example_cyclopts/service.py:30-33 | when the input and output paths differ, the input entry is the same before and after the run |
| Service.SamePathOverwritesInput | src/trcks_example_cyclopts/service.py:51-52 | for every disk and path, when the input is also the output, a successful run replaces the input file's text by the transform of that text |
| Service.OpenFailureLeavesDisk | src/trcks_example_cyclopts/service.py:50-54 | a write whose open fails leaves the disk as it was, so a missing output is not created |
| Service.OutputDirectoryStays | tests/trcks_example_cyclopts/test_user_interface.py:162-186 | a directory at the output path is still a directory after the run, and the run fails |
| Service.EncodeFailureTruncates | src/trcks_example_cyclopts/service.py:50-62 | a write that fails after the open leaves an empty output file, and the run reports the output encoding literal |
| Service.FileSystem.Load | src/trcks_example_cyclopts/service.py:48-66 | returns the write stage's report and updates the disk by the write's effect |
| Service.FileSystem.ExtractTransformLoad | src/trcks_example_cyclopts/service.py:73-80 | returns the chained result, updates the disk only through the write stage, and on success leaves the transformed input text at the output path |
| UserInterface.ToPositiveExitCode | src/trcks_example_cyclopts/user_interface.py:35-51 | total over the eight literals; 1, 2, 3 and 4 exactly for encoding, not-found, directory and permission causes |
| UserInterface.ExitCodeIsTheCause | src/trcks_example_cyclopts/user_interface.py:37-49 | two literals share an exit code exactly when they share a cause, so both sides of one cause exit alike |
| UserInterface.Report | src/trcks_example_cyclopts/user_interface.py:25-32 | exit code 0 exactly on success, with nothing on standard error; on failure the literal's code and the line "Error: " + literal |
| UserInterface.StderrIdentifiesResult | src/trcks_example_cyclopts/user_interface.py:25-30 | the text on standard error determines the pipeline's result |
| UserInterface.Default | src/trcks_example_cyclopts/user_interface.py:17-32 | runs the pipeline once on the disk and reports its result |
| UserInterface.HelloWorldScenario | tests/trcks_example_cyclopts/test_user_interface.py:54-67 | "Hello, World!" exits with 0, prints nothing, writes "Length: 13" and keeps the input |
| UserInterface.MissingInputScenario | tests/trcks_example_cyclopts/test_user_interface.py:105-116 | a missing input exits with 2, prints "Error: Input file not found" and creates no output |
| TrcksExampleCyclopts.ToPositiveExitCode | src/trcks_example_cyclopts/__init__.py:35-49 | total over the eight literals; 1, 2, 3 and 4 exactly for encoding, not-found, directory and permission causes |
| TrcksExampleCyclopts.Report | src/trcks_example_cyclopts/__init__.py:25-32 | exit code 0 exactly on success, with nothing on standard error; on failure the literal's code and the line "Error: " + literal |
| TrcksExampleCyclopts.AgreesWithUserInterface | src/trcks_example_cyclopts/__init__.py:25-49 | both entry points give every literal the same exit code and report every result alike |
| TrcksExampleCyclopts.Default | src/trcks_example_cyclopts/__init__.py:17-32 | runs the pipeline once on the disk and reports its result |

## Left out

- Real file access: `Path.open`, `read`, `write` and closing the file are not modelled. Their outcomes are parameters (`ReadOutcome`, `WriteOutcome`).
- Text decoding and encoding: a file's entry holds its text as reading in text mode returns it. Decoding has already happened, and line endings are already translated ("\r\n" and "\r" become "\n"), so the character count is that of the translated text. The translation itself is not modelled. An undecodable file is one whose read outcome is an `InvalidValue` error. The write's encoding failure is the `EncodeError` outcome.
- Platform differences: on Windows a directory is reported as a permission error. The model takes whichever error kind the operating system reports and does not decide it.
- Exceptions other than the four caught kinds propagate out of the program. They are not part of the model.
- The trcks `Wrapper` class is not modelled; only what map_to_result, map_success and map_success_to_result do to a result. `Wrapper(input_).map_to_result(_extract)` is `Extract` applied to the read outcome.
- Service.FileSystem.ExtractTransformLoad: calls the write stage through a `match` on the transformed result instead of passing `_load(output)` to map_success_to_result, because a method cannot be passed as a function value. The pure `PipelineResult` uses the combinator, and the method's contract equates the two.
- cyclopts argument parsing and `sys.exit`: `Default` takes the paths as parameters and returns the exit code.
- The print to standard error: `Report` returns the text the print would write, including its final newline.
- Python strings may hold lone surrogate code points; Dafny characters are Unicode scalar values, so such strings are not modelled.
