# Tree-construction test results: outcomes and verdict

The gosub engine's tree-construction test harness compares the node tree and
the parse errors a parser produced against the ones a fixture expects. It
records one outcome per tree line and one per error. Each outcome is one of
Success, Missing, Additional, IncorrectPosition and Mismatch. A test passes
when every recorded outcome is Success.

This project models `src/testing/tree_construction/result.rs`:

- `result.dfy`, module `TreeConstructionResult`:
  - the `ResultStatus` tag;
  - the record types `TreeLineResult`, `ErrorMessagePosition` and `ErrorResult`;
  - the aggregate `TestResult` with its derived `Default`;
  - the verdict `TestResult::is_success`, modelled as the two `Iterator::all`
    calls it chains with `&&`.
- `classifier.dfy`, module `PositionalClassifier`: a positional classifier that
  fills the records. **This classifier is not in the modelled source.** It is a
  specification derived only from the doc comments on the outcome tags
  (`result.rs:3-12`). It lines up expected and actual entries by index:
  - an entry present only in expected is Missing;
  - an entry present only in actual is Additional;
  - for errors, the same message at a different line or column is
    IncorrectPosition;
  - any other difference is Mismatch.

  It exists so that the verdict can be related to its meaning: a classified
  test passes exactly when the actual tree and errors equal the expected ones.

All entities are immutable values, so they are modelled as datatypes, and the
verdict is a function over sequences.

## Model

| member | source | states |
|---|---|---|
| `TreeConstructionResult.AllStatuses` | src/testing/tree_construction/result.rs:1-13 | the outcome tag has exactly five pairwise-distinct values; every value appears once, and Success differs from the other four |
| `TreeConstructionResult.All` | src/testing/tree_construction/result.rs:61-67 | `Iterator::all` as a front-to-back walk that stops at the first failure; it is true exactly when every element satisfies the predicate, and vacuously true on an empty sequence |
| `TreeConstructionResult.TestResult.IsSuccess` | src/testing/tree_construction/result.rs:60-68 | the verdict is true exactly when every tree line's `result` equals Success and every error's `result` equals Success |
| `TreeConstructionResult.TestResult.Default` | src/testing/tree_construction/result.rs:50-56 | the derived default has both vectors empty and passes |
| `TreeConstructionResult.IsSuccessIffOnlySuccessOccurs` | src/testing/tree_construction/result.rs:60-68 | a test passes exactly when Success is the only outcome that occurs in either vector |
| `TreeConstructionResult.FailingTreeLineFailsTest` | src/testing/tree_construction/result.rs:61-63 | one tree line whose outcome is Missing, Additional, IncorrectPosition or Mismatch fails the test, whatever the other records hold |
| `TreeConstructionResult.FailingErrorFailsTest` | src/testing/tree_construction/result.rs:64-67 | one error whose outcome is not Success fails the test, even when every tree line passed |
| `TreeConstructionResult.VerdictIsConjunctionOfParts` | src/testing/tree_construction/result.rs:61-67 | the tree check and the error check are independent; the verdict is the conjunction of the verdicts on each vector alone |
| `TreeConstructionResult.VerdictIgnoresRecordFields` | src/testing/tree_construction/result.rs:61-67 | two results whose records agree position by position on `result` get the same verdict, whatever their index, actual, expected, message, line or column |
| `TreeConstructionResult.VerdictIgnoresOrder` | src/testing/tree_construction/result.rs:61-67 | permuting the entries of either vector does not change the verdict |
| `TreeConstructionResult.VerdictOfConcatenation` | src/testing/tree_construction/result.rs:61-67 | on concatenated vectors, the verdict is the conjunction of the verdicts on the two parts |
| `TreeConstructionResult.AppendingSuccessKeepsVerdict` | src/testing/tree_construction/result.rs:61-67 | appending a Success record to either vector leaves the verdict unchanged, so a passing result keeps passing |
| `TreeConstructionResult.DocCommentDisagreesWithCode` | src/testing/tree_construction/result.rs:59-68 | a literal reading of the doc comment ("empty or ... not Success") rejects an all-Success result that the code accepts, and accepts a Missing result that the code rejects |
| `TreeConstructionResult.DocCommentRejectsEveryPass` | src/testing/tree_construction/result.rs:59-68 | when both vectors are non-empty, every result the code accepts is one the doc comment's literal reading rejects |
| `PositionalClassifier.ClassifyLine` | src/testing/tree_construction/result.rs:3-12 | a tree position is Success iff both sides are present and equal; Mismatch iff both are present and differ; Missing iff only expected has it; Additional iff only actual has it; never IncorrectPosition (classifier not in the source) |
| `PositionalClassifier.ClassifyError` | src/testing/tree_construction/result.rs:3-12 | an error position is Success iff both sides are equal; IncorrectPosition iff the messages are equal and the line or column differs; Mismatch iff the messages differ; Missing and Additional as for lines (classifier not in the source) |
| `PositionalClassifier.ClassifyLines` | src/testing/tree_construction/result.rs:15-25 | one tree record per position, up to the longer of expected and actual, each classified as above (classifier not in the source) |
| `PositionalClassifier.ClassifyErrors` | src/testing/tree_construction/result.rs:37-47 | one error record per position, up to the longer of expected and actual, each classified as above (classifier not in the source) |
| `PositionalClassifier.Classify` | src/testing/tree_construction/result.rs:49-56 | a test result built from both comparisons, with as many records in each vector as the longer side (classifier not in the source) |
| `PositionalClassifier.TrailingLinesAreMissingOrAdditional` | src/testing/tree_construction/result.rs:5-8 | positions past the end of the actual tree are all Missing; positions past the end of the expected tree are all Additional |
| `PositionalClassifier.LinesNeverIncorrectPosition` | src/testing/tree_construction/result.rs:9-10 | IncorrectPosition applies to errors only and never appears among classified tree lines |
| `PositionalClassifier.LinesAllSuccessIffEqual` | src/testing/tree_construction/result.rs:3-12 | every classified tree line is Success exactly when the expected and actual trees are equal |
| `PositionalClassifier.ErrorsAllSuccessIffEqual` | src/testing/tree_construction/result.rs:3-12 | every classified error is Success exactly when the expected and actual error lists are equal, in order and with the same line and column |
| `PositionalClassifier.ClassifiedVerdict` | src/testing/tree_construction/result.rs:60-68 | applied to a classified test, `is_success` holds exactly when the actual tree and errors equal the expected ones |
| `PositionalClassifier.MovedErrorFails` | src/testing/tree_construction/result.rs:9-10 | an error with the expected message at a different line or column is IncorrectPosition, and it fails the test |

## Findings

| source | as written | input that shows it | evidently intended | confidence | as-written member | corrected member |
|---|---|---|---|---|---|---|
| src/testing/tree_construction/result.rs:59 | the doc comment on `is_success` says it returns true when both vectors are "either empty or have a result that is not Success" | one tree line with result Success and no errors: the comment's reading says false, the code returns true | what the code does: true exactly when every entry is Success (the comment's "not" is a slip) | high for the comment, not executed | `TreeConstructionResult.DocCommentDisagreesWithCode` | `TreeConstructionResult.TestResult.IsSuccess` |

The model follows the code, not the comment. The literal reading of the
comment is the predicate `DocumentedVerdict`.

## Left out

- `crates/gosub_webexecutor/src/js/array.rs` is a trait for JavaScript-engine
  array bindings with no method bodies and nothing to do with test results.
  It is not part of this model.
- The source does not contain the code that builds `TreeLineResult` and
  `ErrorResult` records. That code compares parser output against fixtures,
  loads fixture files, runs the parser and prints the report. It is not part
  of this model. `PositionalClassifier` stands in for the comparison only. It
  is a specification taken from the tag doc comments. It is not a model of
  any source routine.
- `PositionalClassifier` fills the absent side of an `ErrorResult` with
  `ErrorMessagePosition("", 0, 0)`, because the record's fields are not
  optional. The filler the real harness uses is not known.
- `usize` fields (`index`, `line`, `col`) are modelled as `nat`. The verdict
  does no arithmetic on them, so the 64-bit bound plays no part.
- Short-circuit evaluation of `&&` and `all` is not observable in a pure
  predicate. `All` walks in the same order, but the model makes no claim
  about evaluation cost.
- Rendering results to a terminal or CI log and running test cases in
  parallel are left out. They are I/O and concurrency and do not affect the
  verdict.
- No "re-classify the projections" idempotence property is stated. With
  empty-string fillers for absent tree lines, it does not hold in general.
  An `Additional` line re-classified against a filler `""` becomes a
  `Mismatch`.
