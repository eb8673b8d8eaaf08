# tinyimg quality search and command line, in Dafny

tinyimg re-encodes an image at the lowest quality level whose difference from
the original stays within a tolerance `eps`, then runs a lossless optimizer on
the result. This project models the two parts of `Program.cs` that hold its
logic:

- **The quality search** (`QualitySearch`, `quality_search.dfy`). The search is a
  binary search over the integer quality range 1..100. It keeps the bounds
  `min < max` and probes `middle = (max + min) / 2` while `max - min > 1`. A probe
  whose difference score is above `eps` is "too different" and raises `min`.
  Any other probe lowers `max`. The search returns the last probed `middle`.
  Encoding the image at a quality and comparing it with the original is an
  oracle here: a function `diff: int -> real` and the tolerance `eps: real`.
  The method exposes ghost outputs next to the returned quality: the sequence
  of probes, the bounds before each probe, and the final bounds. Together they
  are the run of the search, and the contract ties each probe to the midpoint
  rule and each new pair of bounds to the oracle's verdict. Lemmas about runs
  give what the loop guarantees.
- **The argument parser** (`CommandLine`, `command_line.dfy`). `ParseArgs` walks
  the argument list with an index. Help flags (`/?`, `--help`, `-h`) stop it with
  an empty result. `/e` takes the next token as the tolerance. `/k` keeps the
  originals. Any other token is a file. The files are then paired with output
  names. The meaning of the argument list is given by a recursive function,
  `Scan`, and `ParseArgs` is proved to produce exactly what `Scan` describes.
  The lemmas about `Scan` give the parser's rules: which inputs stop it, which
  tolerance wins, and which tokens become files.

`double.TryParse` is a parameter `tryParse: string -> Option<real>`. On failure
the model writes 0 to the tolerance, as .NET does for a failed `out` parse. The
path helpers (`Path.GetDirectoryName`, `Path.GetFileNameWithoutExtension`,
`Path.GetExtension`, `Path.Combine`) are the four fields of a `PathRules` value.

Where the tool's design description and the code disagree, the model follows
the code. The description says the following:

- With `eps = 0` and an oracle that accepts only quality 100, the search returns
  100. The code returns 99, the last probe. See Findings.
- The returned quality is an accepted one. The code may return a probe that was
  just rejected. `GetOptimalCompressionQuality` states exactly when.
- With one source and one destination and no `/k`, the output goes to the
  destination. In the code, the two-file pair rule applies only WITH `/k`
  (`Program.cs:126`). Without `/k`, every file is overwritten in place.

## Model

| member | source | states |
|---|---|---|
| `QualitySearch.GetOptimalCompressionQuality` | Program.cs:56-83 | The method returns its run of the search. The run starts from the bounds 1 and 100. Each probe is the midpoint of the current bounds, rounded down, taken while they are more than 1 apart. A rejected probe becomes the new lower bound and an accepted one the new upper bound. The result is the last probe and lies in [2,99], and the loop runs 6 or 7 times. The final bounds are adjacent and lie within [1,100]. The result is the final `min` exactly when it was rejected, and the final `max` otherwise. Each final bound is its initial value or a probe judged accordingly. Every rejected probe is at or below `min` and every accepted one at or above `max`. All probes rejected gives 99 and all accepted gives 2. With a threshold oracle, `max` is the least accepted quality above 1 (or 100 if none is), and the result is `max` or `max - 1`. |
| `QualitySearch.TraceExtends` | Program.cs:64-80 | A run extended by one more round of the loop body is still a run of the search. |
| `QualitySearch.TraceJudged` | Program.cs:64-80 | In any run, the bounds stay ordered within [1,100]. Each bound is its initial value or a probe judged accordingly. Every probe lies strictly between 1 and 100, with rejected probes at or below the lower bound and accepted ones at or above the upper bound. The last probe is the bound it moved. |
| `QualitySearch.RunLength` | Program.cs:64-80 | The gap after `k` rounds lies in row `k` of the halving table 99, 49-50, 24-25, 12-13, 6-7, 3-4, 1-2, 1. So a run reaches a gap of 1 after 6 or 7 probes and has no eighth. |
| `QualitySearch.FinalBounds` | Program.cs:76-82 | Take adjacent final bounds, each its initial value or a probe judged accordingly. If every quality in 2..99 is rejected, the result is 99. If every one is accepted, the result is 2. With a threshold oracle, `max` is the least accepted quality above 1, and the result is `max` or `max - 1`. |
| `QualitySearch.ZeroToleranceAsWritten` | Program.cs:76-82 | With `eps = 0` and a score `(100 - q) / 100`, the search as written returns 99, which its own oracle rejects. |
| `QualitySearch.GetLeastAcceptableQuality` | Program.cs:56-83 | This is the corrected search, which returns the final `max`. Its result lies in [2,100] and is accepted unless it is 100. With a threshold oracle it is the least accepted quality above 1. |
| `QualitySearch.ZeroToleranceCorrected` | Program.cs:76-82 | With the same oracle, the corrected search returns 100. |
| `QualitySearch.LinearRun` | Program.cs:64-80 | With the score `(100 - q) / 100` and a tolerance in [0.29, 0.31), the probes are 50, 75, 62, 68, 71, 69, 70. The final bounds are 70 and 71 when the tolerance is below 0.3, and 69 and 70 otherwise. |
| `QualitySearch.ToleranceOnBoundary` | Program.cs:76-82 | A score equal to the tolerance is accepted. With `eps = 0.3` and the same score, the search returns 70, whose score is exactly 0.3. |
| `QualitySearch.ThresholdAsWritten` | Program.cs:76-82 | With `eps = 0.295` and the same score, the search as written returns 70, which its oracle rejects, although 71 was probed and accepted. |
| `QualitySearch.ThresholdCorrected` | Program.cs:76-82 | With the same oracle, the corrected search returns 71, the least acceptable quality. |
| `CommandLine.ParseArgs` | Program.cs:85-143 | The tolerance is the last value written by the scan, or 0.02. The result is empty after a help flag or a bad `/e`, and when there are no files. With `/k` and exactly two files it is `[(files[0], files[1])]`. Otherwise it has one pair per file, in order, with the file as input. The output is the file itself, or `<dir>/<stem>_tiny<ext>` under `/k`. |
| `CommandLine.PairFiles` | Program.cs:126-140 | With `overwrite` off and exactly two files, the result is the single pair (first, second). Otherwise it has one pair per file, in input order. Each pair has the file as input and, as output, the file itself or its `_tiny` name when `overwrite` is off. |
| `CommandLine.ScanAppend` | Program.cs:93-118 | The scan works left to right. A prefix that scans cleanly adds its files, its `/k` and its tolerance to the scan of the rest. |
| `CommandLine.HelpAborts` | Program.cs:97-101 | A help flag at any position stops the parse with the usage result. |
| `CommandLine.BadEpsAborts` | Program.cs:102-113 | An `/e` that is last, or is followed by a token that does not parse, stops the parse with the usage result. |
| `CommandLine.NoEpsOptionKeepsDefault` | Program.cs:88-107 | Without an `/e` argument the tolerance stays 0.02. |
| `CommandLine.EpsValueConsumed` | Program.cs:102-107 | A well-formed `/e v` after a clean prefix is consumed whole. The scan continues with the rest as if `/e v` were absent, except that the tolerance becomes `v`. So `v` never becomes a file. |
| `CommandLine.LastEpsWins` | Program.cs:102-107 | With no `/e` after a well-formed `/e v`, the tolerance is `v`, so the last `/e` wins. |
| `CommandLine.PlainArgumentsAreFiles` | Program.cs:114-117 | Arguments that are not options all become files, in order, without `/k`. |
| `CommandLine.ScannedFilesAndKeep` | Program.cs:90-118 | After a clean scan, every file is a non-option argument. `/k` is recorded exactly when it is present. |

## Left out

- `Main` and `ProcessImage` (Program.cs:15-54) are not modelled. They do file I/O, ImageMagick decoding and encoding with fixed filter and colour settings, and the lossless `ImageOptimizer` pass. All of these are foreign-library calls.
- `MagickImage.Compare` with the fuzz metric is not modelled. The oracle `diff` stands in for it, and the test `diff > eps` is done on `real` rather than on IEEE doubles. So `0.02` is exact here, and rounding is not modelled.
- The search decodes the same input stream repeatedly without rewinding it (Program.cs:44, 62, 66). The model assumes each decode sees the same image, so `diff` is a function of the quality alone.
- The tolerance is a `real`, so the values NaN and ±Infinity are not represented. `double.TryParse` accepts them, so `/e NaN` and `/e Infinity` reach the search. There every test `diff > eps` is false, every probe is accepted, and the search returns 2. With `/e -Infinity` every probe is rejected, and the search returns 99.
- Number parsing is not modelled. `double.TryParse`, with its culture-dependent number formats, is the parameter `tryParse`. The lemmas that need a help flag, `/e` or `/k` not to parse as a number take it as a premise.
- The path operations are not modelled. They follow .NET's platform rules and are parameters in the model. `Path.GetDirectoryName` may return null for a root path, and `Path.Combine` then throws; that exception is not modelled.
- The DEBUG-only console output and the usage text (Program.cs:21-23, 29-31, 73-75) are not modelled.

## Findings

| source | as written | input that shows it | evidently intended | confidence | as-written member | corrected member |
|---|---|---|---|---|---|---|
| Program.cs:82 | returns the last probed `middle`, which is the final `min` whenever the last probe was rejected | `eps = 0` with a score `(100 - q) / 100`: every probe is rejected and the result is 99, whose score is 0.01 > 0 | return the final `max`, the lowest quality the search saw accepted (or 100) | medium, not executed | `QualitySearch.ZeroToleranceAsWritten` | `QualitySearch.GetLeastAcceptableQuality` |
| Program.cs:82 | returns the last probed `middle` even when a higher probe was accepted | `eps = 0.295` with a score `(100 - q) / 100`: the probes are 50, 75, 62, 68, 71, 69, 70, and 71 is accepted but the last probe 70 (score 0.30) is rejected and returned | return the final `max`, here 71 | medium, not executed | `QualitySearch.ThresholdAsWritten` | `QualitySearch.GetLeastAcceptableQuality` |
