# pdb2distance_attribute-allatom, modelled in Dafny

The script prepares per-atom distance attributes for a molecular
visualisation tool. It runs four stages:

1. It filters two structure files in the wwPDB PDB format down to their
   `ATOM` records (`extract_atom_lines`).
2. It pairs those records by position. For each pair it writes a
   pseudobond line (`#0:<resSeq>.<chain>@<atom> #1:...`) and a
   `distance` command for the tool (`generate_files`).
3. It runs the tool. This stage is not modelled.
4. It turns every line of the tool's report that contains `Distance` into a
   tab-separated attribute record behind a fixed two-line header
   (`extract_and_transform_distances`).

How files are modelled:

- A file is a `seq<string>`.
- An input file is the lines that iterating over it yields, each with its
  line terminator.
- An output file is the strings passed to `write`, in order.

How exceptions are modelled:

- The pairing stage and the transformer can raise an `IndexError` on their
  data. Each catches it and keeps what it had already written.
- So `GenerateFiles` and `ExtractAndTransformDistances` return their output
  together with a `Status`: `Completed`, or `Aborted(e)` with `e` naming the
  `IndexError` raised.
- The filter stage raises nothing on its data: `startswith` never fails.
  Its only exceptions are reading and decoding errors, which are left out.
  So `ExtractAtomLines` returns just its output.

Each stage is a method with a loop. The loop is proved against a recursive
specification function over the input: `FilterAtoms`, `Generate` (= `Run`
over `ZipSteps`) and `TransformBody`/`AttributeFile`. The properties the
script relies on are lemmas about those functions.

The model relies on the Python string behaviour the script uses, modelled
in `PyStr`:

- `startswith`
- the `in` substring test
- slices, which clamp their bounds
- indexing, which raises
- `strip()` and `split()`, using Python's whitespace set

Files:

- `py_str.dfy` holds `PyStr`.
- `outcomes.dfy` holds the exception and status types.
- `sequences.dfy` holds a shared sequence fact.
- There is one file per stage: `atom_filter.dfy`, `pair_generator.dfy` and
  `distance_attributes.dfy`.
- `pipeline.dfy` holds the main sequence.

## Model

| member | source | states |
|---|---|---|
| PyStr.IsSpace | pdb2distance_attribute-allatom.py:20-28 | The characters `isspace()` accepts, which `strip()` and `split()` remove: `\t` to `\r`, `\x1c` to `\x1f`, space, `\x85`, `\xa0`, U+1680, U+2000 to U+200A, U+2028, U+2029, U+202F, U+205F and U+3000. |
| PyStr.StartsWith | pdb2distance_attribute-allatom.py:8 | `s.startswith(p)`: `p` is no longer than `s` and equals its first `len(p)` characters. |
| PyStr.Slice | pdb2distance_attribute-allatom.py:20-28 | `s[lo:hi]` never fails. Its length is the bounds clamped to the string, and character k is `s[lo + k]`. |
| PyStr.SliceFrom | pdb2distance_attribute-allatom.py:60 | `s[lo:]` has `max(0, len - lo)` characters, and character k is `s[lo + k]`. |
| PyStr.Contains | pdb2distance_attribute-allatom.py:55 | `pat in s`, as a scan from the left: `s` starts with `pat`, or its tail contains it. |
| PyStr.OccursThenContains | pdb2distance_attribute-allatom.py:55 | If the marker occurs at any index, `in` reports it. |
| PyStr.ContainsThenOccurs | pdb2distance_attribute-allatom.py:55 | When `in` is true, the marker occurs at some index. |
| PyStr.ContainsIffOccurs | pdb2distance_attribute-allatom.py:55 | `pat in s` holds exactly when `pat` occurs at some index of `s`. |
| PyStr.TrimLeft | pdb2distance_attribute-allatom.py:20-28 | `lstrip()`: drops whitespace characters from the front while there are any. |
| PyStr.TrimRight | pdb2distance_attribute-allatom.py:20-28 | `rstrip()`: drops whitespace characters from the back while there are any. |
| PyStr.Strip | pdb2distance_attribute-allatom.py:20-28 | `strip()` is `rstrip()` after `lstrip()`. |
| PyStr.TrimLeftSpec | pdb2distance_attribute-allatom.py:20-28 | `lstrip` returns a suffix. The removed prefix is all whitespace, and the result does not start with whitespace. |
| PyStr.TrimRightSpec | pdb2distance_attribute-allatom.py:20-28 | `rstrip` returns a prefix. The removed suffix is all whitespace, and the result does not end with whitespace. |
| PyStr.StripSpec | pdb2distance_attribute-allatom.py:20-28 | `strip` returns a piece of the string with only whitespace around it. That piece neither starts nor ends with whitespace. |
| PyStr.TrimLeftSkips | pdb2distance_attribute-allatom.py:20-28 | `lstrip` removes exactly a whitespace prefix that is followed by non-whitespace. |
| PyStr.TrimRightSkips | pdb2distance_attribute-allatom.py:20-28 | `rstrip` removes exactly a whitespace suffix that follows non-whitespace. |
| PyStr.StripPadded | pdb2distance_attribute-allatom.py:20-28 | This is the converse of StripSpec: text that neither starts nor ends with whitespace strips back to itself, whatever whitespace pads it. |
| PyStr.StripChar | pdb2distance_attribute-allatom.py:22 | A one-character string strips to nothing if it is whitespace, and to itself otherwise. |
| PyStr.SplitFrom | pdb2distance_attribute-allatom.py:56 | The character scan behind `split()`: whitespace ends the pending word, and other characters extend it. A non-empty word is emitted when it ends or at the end of the string. |
| PyStr.Split | pdb2distance_attribute-allatom.py:56 | `split()` with no argument is the scan started with no pending word. |
| PyStr.SplitFromWords | pdb2distance_attribute-allatom.py:56 | Every token the scan emits is non-empty and free of whitespace. |
| PyStr.SplitWords | pdb2distance_attribute-allatom.py:56 | Every token of `split()` is non-empty and free of whitespace. |
| PyStr.SplitSkipsSpace | pdb2distance_attribute-allatom.py:56 | Leading whitespace does not change `split()`. |
| PyStr.SplitFromWord | pdb2distance_attribute-allatom.py:56 | Non-whitespace characters extend the word being read. |
| PyStr.SplitToken | pdb2distance_attribute-allatom.py:56 | A word followed by whitespace, or by the end of the string, is split off as the first token. |
| PyStr.SplitWordSpace | pdb2distance_attribute-allatom.py:56 | A word, then a single space, then more text: the word is the first token. |
| PyStr.SplitWordGap | pdb2distance_attribute-allatom.py:56 | A word, then any run of whitespace, then more text: the word is the first token. |
| PyStr.SplitJoinSpaced | pdb2distance_attribute-allatom.py:56 | This is a round trip: `split()` of words joined by single spaces gives the words back. |
| AtomFilter.IsAtomRecord | pdb2distance_attribute-allatom.py:8 | A line is kept when it starts with `ATOM`. |
| AtomFilter.FilterAtoms | pdb2distance_attribute-allatom.py:7-9 | The lines that start with `ATOM`, in input order. The result is never longer than the input. |
| AtomFilter.ExtractAtomLines | pdb2distance_attribute-allatom.py:4-12 | The output file equals `FilterAtoms` of the input. |
| AtomFilter.FilterAtomsSound | pdb2distance_attribute-allatom.py:7-9 | Every line written starts with `ATOM` and is a line of the input. |
| AtomFilter.FilterAtomsIsSubsequence | pdb2distance_attribute-allatom.py:7-9 | The output keeps the input order, because it is a subsequence of the input. |
| AtomFilter.FilterAtomsCounts | pdb2distance_attribute-allatom.py:7-9 | Each `ATOM` line is written as often as it occurs in the input. Any other line is never written. |
| AtomFilter.FilterAtomsKeepsAtomFile | pdb2distance_attribute-allatom.py:7-9 | A file of `ATOM` lines only passes through unchanged. |
| AtomFilter.FilterAtomsIdempotent | pdb2distance_attribute-allatom.py:7-9 | Filtering a filtered file changes nothing. |
| AtomFilter.FilterAtomsAppend | pdb2distance_attribute-allatom.py:7-9 | The filter works line by line: a concatenation of two files is filtered piece by piece. |
| PairGenerator.ExtractFields | pdb2distance_attribute-allatom.py:20-23 | Field extraction succeeds exactly when the line has a column 22 (`line[21]`). Otherwise it raises the string `IndexError`. |
| PairGenerator.ExtractFieldsColumns | pdb2distance_attribute-allatom.py:20-28 | The fields come from these columns: atom name 13-16, residue name 18-20, chain 22 (empty if blank), sequence number from what the line has of 23-26. Each field is stripped and no wider than its columns. |
| PairGenerator.ExtractFieldsOfLayout | pdb2distance_attribute-allatom.py:20-23 | A record laid out column by column yields its four stripped columns. |
| PairGenerator.PairRef | pdb2distance_attribute-allatom.py:31 | The text shared by both writes: `#0:<resSeq1>.<chain1>@<atom1> #1:<resSeq2>.<chain2>@<atom2>`. |
| PairGenerator.PseudobondLine | pdb2distance_attribute-allatom.py:31 | The pseudobond line: that text followed by a newline. |
| PairGenerator.DistanceQueryLine | pdb2distance_attribute-allatom.py:34 | The command line: `distance `, that text, then a newline. |
| PairGenerator.QueryLineIsPrefixedPseudobond | pdb2distance_attribute-allatom.py:31-34 | The command line is the pseudobond line with `distance ` in front. |
| PairGenerator.PairLines | pdb2distance_attribute-allatom.py:19-34 | A pair is skipped exactly when it is not two `ATOM` lines. A pair raises exactly when it is two `ATOM` lines and one of them lacks column 22. Otherwise it writes two lines that differ only by the `distance ` prefix. |
| PairGenerator.ZipSteps | pdb2distance_attribute-allatom.py:18 | `zip` over the two files: one iteration per index below the shorter length, pairing line k with line k. |
| PairGenerator.Generate | pdb2distance_attribute-allatom.py:14-37 | The stage as a function of its inputs: the loop run over the `zip` of the two files. |
| PairGenerator.Run | pdb2distance_attribute-allatom.py:18-34 | Both outputs have equal length, at most one line per iteration. |
| PairGenerator.GenerateFiles | pdb2distance_attribute-allatom.py:14-37 | The two outputs and the status equal `Generate` of the two inputs. |
| PairGenerator.RunUnfold | pdb2distance_attribute-allatom.py:18 | The loop from position i on is iteration i followed by the loop from i+1 on. |
| PairGenerator.WriteStep | pdb2distance_attribute-allatom.py:19-37 | For one iteration: a skip writes nothing, an emit appends one line to each output, and a failure stops with what was written. |
| PairGenerator.ZipStepsAt | pdb2distance_attribute-allatom.py:18 | `zip` gives as many iterations as the shorter file has lines, and iteration j handles line j of each file. |
| PairGenerator.ZipStepsCons | pdb2distance_attribute-allatom.py:18 | `zip` is the first pair, then the `zip` of the rest. |
| PairGenerator.ZipStepsAppend | pdb2distance_attribute-allatom.py:18 | `zip` of two concatenations of equal-length prefixes is the concatenation of the two `zip`s. |
| PairGenerator.RunParallel | pdb2distance_attribute-allatom.py:31-34 | If every emitting iteration writes matching lines, then command line k is pseudobond line k with `distance ` in front. |
| PairGenerator.GenerateParallelOutputs | pdb2distance_attribute-allatom.py:31-34 | For all inputs, command line k is pseudobond line k with `distance ` in front. |
| PairGenerator.RunAllEmit | pdb2distance_attribute-allatom.py:18-34 | If every iteration writes, the loop completes with one line per iteration. |
| PairGenerator.GenerateAllAtoms | pdb2distance_attribute-allatom.py:18-34 | Suppose both files hold only `ATOM` lines of 22 or more characters. Then the stage completes with `min(len1, len2)` lines. |
| PairGenerator.RunAbortsIff | pdb2distance_attribute-allatom.py:36-37 | The loop stops early exactly when some iteration raises. |
| PairGenerator.GenerateAbortsIff | pdb2distance_attribute-allatom.py:22-27 | The stage aborts exactly when some positional pair of `ATOM` lines has a line without column 22. |
| PairGenerator.StepThenAssociates | pdb2distance_attribute-allatom.py:18-34 | An iteration followed by two pieces of the loop is the same as the iteration and the first piece, then the second piece. |
| PairGenerator.RunAppend | pdb2distance_attribute-allatom.py:18 | Iterations cut in two run piece by piece, and an exception in the first piece ends everything. |
| PairGenerator.GenerateAppend | pdb2distance_attribute-allatom.py:18 | Pairing is positional: two files cut at the same position are processed piece by piece. |
| PairGenerator.SkippedPairKeepsAlignment | pdb2distance_attribute-allatom.py:18-19 | A pair that is not two `ATOM` lines writes nothing and does not shift the pairing of the lines after it. |
| PairGenerator.CutAtSkippedPair | pdb2distance_attribute-allatom.py:18-19 | A skipped pair between two pieces joins their outputs unchanged. |
| PairGenerator.AbortAtFirstBadPair | pdb2distance_attribute-allatom.py:18-37 | At the first bad pair, the outputs keep every line of the pairs before it, the status is the string `IndexError`, and no later line matters. |
| PairGenerator.CutAtBadPair | pdb2distance_attribute-allatom.py:22-37 | A bad pair after a completed prefix aborts, keeping exactly the prefix's output. |
| PairGenerator.KeptPairsOfAtomFiles | pdb2distance_attribute-allatom.py:18-19 | On files of `ATOM` lines only, no pair is skipped: the kept pairs are the whole `zip`. |
| PairGenerator.RunWritesNonSkip | pdb2distance_attribute-allatom.py:18-34 | Output line k comes from the k-th iteration that does something. If the loop completes, every such iteration has written. |
| PairGenerator.NonSkipZipIsKeptPairs | pdb2distance_attribute-allatom.py:18-19 | The iterations that do something are exactly those of the pairs of `ATOM` lines, in order. |
| PairGenerator.GenerateFormatsKeptPairs | pdb2distance_attribute-allatom.py:18-34 | Output line k formats the k-th pair of `ATOM` lines. If the stage completes, every such pair has its line. |
| PairGenerator.ResidueNameUnused | pdb2distance_attribute-allatom.py:21 | The residue name is cut but never written: changing columns 18-20 of either line changes nothing. |
| PairGenerator.ExampleRecord1 | pdb2distance_attribute-allatom.py:19 | The alanine CA record starts with `ATOM` and has the stated column layout. |
| PairGenerator.ExampleRecord2 | pdb2distance_attribute-allatom.py:19 | The glycine CB record starts with `ATOM` and has the stated column layout. |
| PairGenerator.ExampleColumns1 | pdb2distance_attribute-allatom.py:20-23 | The stripped columns of the first example are `CA`, `ALA`, `A` and `5`. |
| PairGenerator.ExampleColumns2 | pdb2distance_attribute-allatom.py:25-28 | The stripped columns of the second example are `CB`, `GLY`, `B` and `7`. |
| PairGenerator.ExampleRef | pdb2distance_attribute-allatom.py:31 | The example atoms format as `#0:5.A@CA #1:7.B@CB`. |
| PairGenerator.ExamplePair | pdb2distance_attribute-allatom.py:19-34 | The alanine CA / glycine CB records give `#0:5.A@CA #1:7.B@CB` and `distance #0:5.A@CA #1:7.B@CB`. |
| DistanceAttributes.Header | pdb2distance_attribute-allatom.py:49-51 | The two header lines, `attribute: distance` and `recipient: atoms`, each with its newline. |
| DistanceAttributes.IsDistanceLine | pdb2distance_attribute-allatom.py:55 | A line is transformed when `Distance` occurs in it. The test is case-sensitive and the marker may appear anywhere. |
| DistanceAttributes.TransformLine | pdb2distance_attribute-allatom.py:56-63 | A matching line gives a record exactly when it splits into at least six tokens. Otherwise it raises the list `IndexError`. |
| DistanceAttributes.TransformLineColumns | pdb2distance_attribute-allatom.py:58-63 | A record starts with a tab. Split back, it is the third token without its first two characters (absent if that leaves nothing), then the sixth token. |
| DistanceAttributes.TransformBody | pdb2distance_attribute-allatom.py:54-63 | At most one record is written per input line. |
| DistanceAttributes.AttributeFile | pdb2distance_attribute-allatom.py:47-63 | The attribute file is the header followed by the records of the loop. |
| DistanceAttributes.ExtractAndTransformDistances | pdb2distance_attribute-allatom.py:47-66 | The output is the header followed by the records of `TransformBody`, and the status is its status. The output always starts with the two header lines. |
| DistanceAttributes.TransformUnfold | pdb2distance_attribute-allatom.py:54-55 | The loop from line i on is line i (ignored unless it contains `Distance`), then the loop from i+1 on. |
| DistanceAttributes.WriteLine | pdb2distance_attribute-allatom.py:56-66 | A record is appended after what is written, and an exception stops with what is written. |
| DistanceAttributes.TransformAbortsIff | pdb2distance_attribute-allatom.py:55-66 | The stage aborts exactly when some line contains `Distance` and has fewer than six tokens. The error is then the list `IndexError`. |
| DistanceAttributes.LineThenAssociates | pdb2distance_attribute-allatom.py:54-63 | A line followed by two pieces of the loop is the same as the line and the first piece, then the second piece. |
| DistanceAttributes.TransformAppend | pdb2distance_attribute-allatom.py:54 | The loop works line by line: a report cut in two is transformed piece by piece. |
| DistanceAttributes.AbortAtFirstMalformedLine | pdb2distance_attribute-allatom.py:54-66 | At the first malformed line, the records of the lines before it stay, the status is the list `IndexError`, and no later line matters. |
| DistanceAttributes.NoMalformedCompletes | pdb2distance_attribute-allatom.py:54-63 | A report without malformed lines is processed to its end. |
| DistanceAttributes.CutAtMalformed | pdb2distance_attribute-allatom.py:54-66 | A malformed line after a completed prefix aborts, keeping exactly the prefix's records. |
| DistanceAttributes.MalformedAborts | pdb2distance_attribute-allatom.py:55-58 | A malformed first line aborts at once with nothing written after the header. |
| DistanceAttributes.TransformFormatsDistanceLines | pdb2distance_attribute-allatom.py:54-63 | Record k is the transformation of the k-th line containing `Distance`. If the stage completes, every such line has its record. |
| DistanceAttributes.ExampleLayout | pdb2distance_attribute-allatom.py:55 | The example report line is its six tokens separated by runs of spaces, and it starts with `Distance`. |
| DistanceAttributes.ExampleTokens | pdb2distance_attribute-allatom.py:56 | The example tokens hold no whitespace, and the gaps are all whitespace. |
| DistanceAttributes.ExampleSplit | pdb2distance_attribute-allatom.py:56 | `"Distance   foo  12AB  bar  baz  3.14".split()` gives its six tokens. |
| DistanceAttributes.ExampleTransform | pdb2distance_attribute-allatom.py:55-63 | That line contains `Distance` and becomes `"\tAB\t3.14\n"`. |
| Pipeline.RunPipeline | pdb2distance_attribute-allatom.py:83-87 | The filtered files, pair files and attribute file are what the stage functions give for the two structure files and the tool's report. |
| Pipeline.FilteredRecordsHaveChain | pdb2distance_attribute-allatom.py:83-85 | If every `ATOM` line of an input has column 22, then every line of its filtered file is such a line. |
| Pipeline.PipelinePairCount | pdb2distance_attribute-allatom.py:83-85 | Suppose every `ATOM` line of both inputs has column 22. Then the pair files complete with `min(#ATOM lines 1, #ATOM lines 2)` lines each. |
| Pipeline.PipelinePairsAreAligned | pdb2distance_attribute-allatom.py:83-85 | In the pipeline no pair is skipped: the pairs formatted are the k-th `ATOM` lines of both inputs, for every k below the smaller count. |

## Left out

- `run_chimera` (lines 39-45) is left out because it runs an external program through a shell. The model takes the tool's report as the parameter `report` of `Pipeline.RunPipeline`. That report file is opened for appending across runs, which the model does not capture either.
- The command-line handling and fixed file names of the main block (lines 68-81) are left out, and so are all console messages (`print`).
- Opening, reading and writing files, and their I/O errors, are left out. This includes a `UnicodeDecodeError` raised by `for line in infile` (lines 7, 18 and 54) on bytes that do not decode. Such an error stops a stage partway and leaves a partial output, but `FilterAtoms`, `Generate` and `TransformBody` read every line. The only exceptions modelled are the two `IndexError`s the stages can raise on the text of their lines.
- Reading a file back: the stages meet only through the file system. The model assumes a file that was written is read back as the lines written to it. Newline translation on other platforms is not modelled.
- The value of the sixth token is never interpreted as a number by the script, so the model keeps it as text.
- `Pipeline.PipelinePairCount` needs every `ATOM` line to have at least 22 characters. The script indexes column 22 directly, so a shorter `ATOM` line raises and ends the pairing stage. The plain statement "line count equals the minimum of the two `ATOM` line counts" is therefore not true of the code as written, and the model follows the code.
