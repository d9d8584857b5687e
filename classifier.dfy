/**
  A positional classifier that fills the result records. The routines that
  build `TreeLineResult` and `ErrorResult` values are NOT part of this model's
  source: this module is a specification only, derived from the doc comments
  on the outcome tags (src/testing/tree_construction/result.rs:3-12), so that
  the tags have a meaning the verdict can be checked against.

  Expected and actual sequences are aligned by index. Where one side has no
  entry, a tree record holds the empty string and an error record holds
  `NoError`, since `ErrorResult` has no optional fields.
 */
module PositionalClassifier {
  import opened TreeConstructionResult

  function Max(a: nat, b: nat): nat { if a < b then b else a }

  /** Stand-in for the absent side of an error record (lines and columns start at 1). */
  const NoError := ErrorMessagePosition("", 0, 0)

  /** The record for position `i` of the tree: compared by exact string equality. */
  function ClassifyLine(expected: seq<string>, actual: seq<string>, i: nat): (r: TreeLineResult)
    requires i < Max(|expected|, |actual|)
    ensures r.index == i
    ensures r.expected == (if i < |expected| then expected[i] else "")
    ensures r.actual == (if i < |actual| then actual[i] else "")
    ensures r.result == Success <==> i < |expected| && i < |actual| && expected[i] == actual[i]
    ensures r.result == Mismatch <==> i < |expected| && i < |actual| && expected[i] != actual[i]
    ensures r.result == Missing <==> |actual| <= i
    ensures r.result == Additional <==> |expected| <= i
    ensures r.result != IncorrectPosition
  {
    if i < |expected| && i < |actual| then
      TreeLineResult(i, actual[i], expected[i], if actual[i] == expected[i] then Success else Mismatch)
    else if i < |expected| then
      TreeLineResult(i, "", expected[i], Missing)
    else
      TreeLineResult(i, actual[i], "", Additional)
  }

  /** The record for position `i` of the errors: message first, then line and column. */
  function ClassifyError(expected: seq<ErrorMessagePosition>, actual: seq<ErrorMessagePosition>, i: nat)
    : (r: ErrorResult)
    requires i < Max(|expected|, |actual|)
    ensures r.index == i
    ensures r.expected == (if i < |expected| then expected[i] else NoError)
    ensures r.actual == (if i < |actual| then actual[i] else NoError)
    ensures r.result == Success <==> i < |expected| && i < |actual| && expected[i] == actual[i]
    ensures r.result == IncorrectPosition <==>
      i < |expected| && i < |actual| && expected[i].message == actual[i].message &&
      (expected[i].line != actual[i].line || expected[i].col != actual[i].col)
    ensures r.result == Mismatch <==>
      i < |expected| && i < |actual| && expected[i].message != actual[i].message
    ensures r.result == Missing <==> |actual| <= i
    ensures r.result == Additional <==> |expected| <= i
  {
    if i < |expected| && i < |actual| then
      var e, a := expected[i], actual[i];
      var status :=
        if e.message == a.message && e.line == a.line && e.col == a.col then Success
        else if e.message == a.message then IncorrectPosition
        else Mismatch;
      ErrorResult(a, e, i, status)
    else if i < |expected| then
      ErrorResult(NoError, expected[i], i, Missing)
    else
      ErrorResult(actual[i], NoError, i, Additional)
  }

  /** One record per position, up to the longer of the two sequences. */
  function ClassifyLines(expected: seq<string>, actual: seq<string>): (r: seq<TreeLineResult>)
    ensures |r| == Max(|expected|, |actual|)
    ensures forall i :: 0 <= i < |r| ==> r[i] == ClassifyLine(expected, actual, i)
  {
    seq(Max(|expected|, |actual|), i requires 0 <= i < Max(|expected|, |actual|) => ClassifyLine(expected, actual, i))
  }

  /** One record per position, up to the longer of the two sequences. */
  function ClassifyErrors(expected: seq<ErrorMessagePosition>, actual: seq<ErrorMessagePosition>)
    : (r: seq<ErrorResult>)
    ensures |r| == Max(|expected|, |actual|)
    ensures forall i :: 0 <= i < |r| ==> r[i] == ClassifyError(expected, actual, i)
  {
    seq(Max(|expected|, |actual|), i requires 0 <= i < Max(|expected|, |actual|) => ClassifyError(expected, actual, i))
  }

  /** The result of one test case, both comparisons run side by side. */
  function Classify(
    expectedTree: seq<string>, actualTree: seq<string>,
    expectedErrors: seq<ErrorMessagePosition>, actualErrors: seq<ErrorMessagePosition>)
    : (t: TestResult)
    ensures |t.treeResults| == Max(|expectedTree|, |actualTree|)
    ensures |t.errorResults| == Max(|expectedErrors|, |actualErrors|)
  {
    TestResult(ClassifyLines(expectedTree, actualTree), ClassifyErrors(expectedErrors, actualErrors))
  }

  /** Past the end of the actual tree every position is Missing; past the expected, Additional. */
  lemma TrailingLinesAreMissingOrAdditional(expected: seq<string>, actual: seq<string>)
    ensures forall i :: |actual| <= i < |expected| ==> ClassifyLines(expected, actual)[i].result == Missing
    ensures forall i :: |expected| <= i < |actual| ==> ClassifyLines(expected, actual)[i].result == Additional
  {
  }

  /** A tree record is never IncorrectPosition: that outcome belongs to errors only. */
  lemma LinesNeverIncorrectPosition(expected: seq<string>, actual: seq<string>)
    ensures forall i :: 0 <= i < |ClassifyLines(expected, actual)| ==>
      ClassifyLines(expected, actual)[i].result != IncorrectPosition
  {
  }

  /** Every tree position is Success exactly when the two trees are identical. */
  lemma {:induction false} LinesAllSuccessIffEqual(expected: seq<string>, actual: seq<string>)
    ensures (forall i :: 0 <= i < |ClassifyLines(expected, actual)| ==>
      ClassifyLines(expected, actual)[i].result == Success) <==> expected == actual
  {
    var r := ClassifyLines(expected, actual);
    if forall i :: 0 <= i < |r| ==> r[i].result == Success {
      if |r| > 0 {
        assert r[|r| - 1].result == Success;
      }
      assert |expected| == |actual|;
      forall i | 0 <= i < |expected| ensures expected[i] == actual[i] {
        assert r[i].result == Success;
      }
    }
  }

  /** Every error position is Success exactly when the two error lists are identical. */
  lemma {:induction false} ErrorsAllSuccessIffEqual(expected: seq<ErrorMessagePosition>, actual: seq<ErrorMessagePosition>)
    ensures (forall i :: 0 <= i < |ClassifyErrors(expected, actual)| ==>
      ClassifyErrors(expected, actual)[i].result == Success) <==> expected == actual
  {
    var r := ClassifyErrors(expected, actual);
    if forall i :: 0 <= i < |r| ==> r[i].result == Success {
      if |r| > 0 {
        assert r[|r| - 1].result == Success;
      }
      assert |expected| == |actual|;
      forall i | 0 <= i < |expected| ensures expected[i] == actual[i] {
        assert r[i].result == Success;
      }
    }
  }

  /**
    A classified test passes exactly when the parser produced the expected tree
    and the expected errors, in order, with the same positions.
   */
  lemma {:induction false} ClassifiedVerdict(
    expectedTree: seq<string>, actualTree: seq<string>,
    expectedErrors: seq<ErrorMessagePosition>, actualErrors: seq<ErrorMessagePosition>)
    ensures Classify(expectedTree, actualTree, expectedErrors, actualErrors).IsSuccess()
      <==> expectedTree == actualTree && expectedErrors == actualErrors
  {
    LinesAllSuccessIffEqual(expectedTree, actualTree);
    ErrorsAllSuccessIffEqual(expectedErrors, actualErrors);
  }

  /** An error list with the right messages at the wrong positions is reported as such and fails. */
  lemma {:induction false} MovedErrorFails(e: ErrorMessagePosition, a: ErrorMessagePosition)
    requires e.message == a.message && (e.line, e.col) != (a.line, a.col)
    ensures ClassifyErrors([e], [a])[0].result == IncorrectPosition
    ensures !Classify([], [], [e], [a]).IsSuccess()
  {
  }
}
