/**
  Outcome records of the tree-construction test harness and the single
  pass/fail verdict derived from them (src/testing/tree_construction/result.rs).

  The records are plain values that nothing mutates after they are built, so
  every entity is a datatype and the verdict is a function over sequences.
  The `usize` fields are modelled as `nat`: no arithmetic is done on them.
 */
module TreeConstructionResult {

  /** The closed five-valued outcome tag; equality is the derived one. */
  datatype ResultStatus =
    | Success            // a correct match
    | Missing            // in expected, not found in actual (too few)
    | Additional         // in actual, not found in expected (too many)
    | IncorrectPosition  // the right error, reported at the wrong position
    | Mismatch           // the tree line or the message differs

  /** Every outcome, once each: the tag has exactly five distinct values. */
  function AllStatuses(): (all: seq<ResultStatus>)
    ensures |all| == 5
    ensures forall s: ResultStatus :: Ordinal(s) < |all| && all[Ordinal(s)] == s
    ensures forall i, j :: 0 <= i < j < |all| ==> all[i] != all[j]
    ensures all[0] == Success && forall k :: 1 <= k < |all| ==> all[k] != Success
  {
    [Success, Missing, Additional, IncorrectPosition, Mismatch]
  }

  /** Position of an outcome in declaration order. */
  function Ordinal(s: ResultStatus): nat
  {
    match s
    case Success => 0
    case Missing => 1
    case Additional => 2
    case IncorrectPosition => 3
    case Mismatch => 4
  }

  /** The result for a single line of the serialised node tree. */
  datatype TreeLineResult = TreeLineResult(
    index: nat,          // line number inside the generated tree
    actual: string,      // the line the parser produced
    expected: string,    // the line the fixture expects
    result: ResultStatus)

  /** An error message together with the line and column it was raised at. */
  datatype ErrorMessagePosition = ErrorMessagePosition(message: string, line: nat, col: nat)

  /** The result for a single parser error; both sides are always present. */
  datatype ErrorResult = ErrorResult(
    actual: ErrorMessagePosition,
    expected: ErrorMessagePosition,
    index: nat,          // 0-based index of the error
    result: ResultStatus)

  /**
    `Iterator::all`: walks the sequence front to back and stops at the first
    element that fails `p`. Its contract is the quantified reading.
   */
  function All<T>(s: seq<T>, p: T -> bool): (r: bool)
    ensures r <==> forall i :: 0 <= i < |s| ==> p(s[i])
  {
    if s == [] then true
    else if !p(s[0]) then false
    else
      assert forall i :: 1 <= i < |s| ==> s[i] == s[1..][i - 1];
      All(s[1..], p)
  }

  predicate TreeLineSucceeded(r: TreeLineResult) { r.result == Success }

  predicate ErrorSucceeded(r: ErrorResult) { r.result == Success }

  /** The combined result of one test: every tree line and every parser error. */
  datatype TestResult = TestResult(treeResults: seq<TreeLineResult>, errorResults: seq<ErrorResult>)
  {
    /** `#[derive(Default)]`: both vectors empty, which already passes. */
    static function Default(): (r: TestResult)
      ensures r.treeResults == [] && r.errorResults == []
      ensures r.IsSuccess()
    {
      TestResult([], [])
    }

    /** The verdict: every tree line and every error compared equal to Success. */
    function IsSuccess(): (ok: bool)
      ensures ok <==>
        (forall i :: 0 <= i < |treeResults| ==> treeResults[i].result == Success) &&
        (forall j :: 0 <= j < |errorResults| ==> errorResults[j].result == Success)
    {
      All(treeResults, TreeLineSucceeded) && All(errorResults, ErrorSucceeded)
    }
  }

  /** The outcomes that occur anywhere in a test result. */
  function StatusesPresent(t: TestResult): (present: set<ResultStatus>)
    ensures forall i :: 0 <= i < |t.treeResults| ==> t.treeResults[i].result in present
    ensures forall j :: 0 <= j < |t.errorResults| ==> t.errorResults[j].result in present
    ensures forall s :: s in present ==>
      (exists i :: 0 <= i < |t.treeResults| && t.treeResults[i].result == s) ||
      (exists j :: 0 <= j < |t.errorResults| && t.errorResults[j].result == s)
  {
    (set r | r in t.treeResults :: r.result) + (set e | e in t.errorResults :: e.result)
  }

  /** The verdict depends on nothing but which outcomes occur. */
  lemma IsSuccessIffOnlySuccessOccurs(t: TestResult)
    ensures t.IsSuccess() <==> StatusesPresent(t) <= {Success}
  {
  }

  /** One tree line with any outcome other than Success fails the whole test. */
  lemma FailingTreeLineFailsTest(t: TestResult, k: nat)
    requires k < |t.treeResults| && t.treeResults[k].result != Success
    ensures !t.IsSuccess()
  {
  }

  /** One error with any outcome other than Success fails the whole test. */
  lemma FailingErrorFailsTest(t: TestResult, k: nat)
    requires k < |t.errorResults| && t.errorResults[k].result != Success
    ensures !t.IsSuccess()
  {
  }

  /**
    The two checks are independent: the verdict is the conjunction of the
    verdict on the tree lines alone and the verdict on the errors alone.
   */
  lemma VerdictIsConjunctionOfParts(t: TestResult)
    ensures t.IsSuccess() ==
      (TestResult(t.treeResults, []).IsSuccess() && TestResult([], t.errorResults).IsSuccess())
  {
  }

  /**
    Changing the index, the actual or expected text, or the message, line or
    column of any record never changes the verdict: only `result` is read.
   */
  lemma VerdictIgnoresRecordFields(t: TestResult, u: TestResult)
    requires |t.treeResults| == |u.treeResults| && |t.errorResults| == |u.errorResults|
    requires forall i :: 0 <= i < |t.treeResults| ==> t.treeResults[i].result == u.treeResults[i].result
    requires forall j :: 0 <= j < |t.errorResults| ==> t.errorResults[j].result == u.errorResults[j].result
    ensures t.IsSuccess() == u.IsSuccess()
  {
  }

  /** The order of the entries in either vector does not matter. */
  lemma VerdictIgnoresOrder(t: TestResult, u: TestResult)
    requires multiset(t.treeResults) == multiset(u.treeResults)
    requires multiset(t.errorResults) == multiset(u.errorResults)
    ensures t.IsSuccess() == u.IsSuccess()
  {
    assert StatusesPresent(t) == StatusesPresent(u) by {
      forall r ensures r in t.treeResults <==> r in u.treeResults {
        assert r in t.treeResults <==> r in multiset(t.treeResults);
        assert r in u.treeResults <==> r in multiset(u.treeResults);
      }
      forall e ensures e in t.errorResults <==> e in u.errorResults {
        assert e in t.errorResults <==> e in multiset(t.errorResults);
        assert e in u.errorResults <==> e in multiset(u.errorResults);
      }
    }
    IsSuccessIffOnlySuccessOccurs(t);
    IsSuccessIffOnlySuccessOccurs(u);
  }

  /** On concatenated vectors the verdict is the conjunction of the parts' verdicts. */
  lemma VerdictOfConcatenation(a: TestResult, b: TestResult)
    ensures TestResult(a.treeResults + b.treeResults, a.errorResults + b.errorResults).IsSuccess()
      == (a.IsSuccess() && b.IsSuccess())
  {
    var c := TestResult(a.treeResults + b.treeResults, a.errorResults + b.errorResults);
    if a.IsSuccess() && b.IsSuccess() {
      forall i | 0 <= i < |c.treeResults| ensures c.treeResults[i].result == Success {
        if i >= |a.treeResults| {
          assert c.treeResults[i] == b.treeResults[i - |a.treeResults|];
        }
      }
      forall j | 0 <= j < |c.errorResults| ensures c.errorResults[j].result == Success {
        if j >= |a.errorResults| {
          assert c.errorResults[j] == b.errorResults[j - |a.errorResults|];
        }
      }
    }
    if c.IsSuccess() {
      forall i | 0 <= i < |a.treeResults| ensures a.treeResults[i].result == Success {
        assert a.treeResults[i] == c.treeResults[i];
      }
      forall j | 0 <= j < |a.errorResults| ensures a.errorResults[j].result == Success {
        assert a.errorResults[j] == c.errorResults[j];
      }
      forall i | 0 <= i < |b.treeResults| ensures b.treeResults[i].result == Success {
        assert b.treeResults[i] == c.treeResults[|a.treeResults| + i];
      }
      forall j | 0 <= j < |b.errorResults| ensures b.errorResults[j].result == Success {
        assert b.errorResults[j] == c.errorResults[|a.errorResults| + j];
      }
    }
  }

  /** Appending a successful record keeps the verdict unchanged (a pass stays a pass). */
  lemma AppendingSuccessKeepsVerdict(t: TestResult, line: TreeLineResult, error: ErrorResult)
    requires line.result == Success && error.result == Success
    ensures TestResult(t.treeResults + [line], t.errorResults).IsSuccess() == t.IsSuccess()
    ensures TestResult(t.treeResults, t.errorResults + [error]).IsSuccess() == t.IsSuccess()
  {
    VerdictOfConcatenation(t, TestResult([line], []));
    VerdictOfConcatenation(t, TestResult([], [error]));
    assert t.errorResults + [] == t.errorResults;
    assert t.treeResults + [] == t.treeResults;
  }

  /**
    A literal reading of the doc comment on `is_success`: each vector is either
    empty or holds an entry whose result is not Success. The code does not do
    this; it checks every entry against Success.
   */
  predicate DocumentedVerdict(t: TestResult)
  {
    && (t.treeResults == [] || exists i :: 0 <= i < |t.treeResults| && t.treeResults[i].result != Success)
    && (t.errorResults == [] || exists j :: 0 <= j < |t.errorResults| && t.errorResults[j].result != Success)
  }

  /** Inputs on which the doc comment's reading and the code disagree, both ways. */
  lemma DocCommentDisagreesWithCode()
    ensures var passing := TestResult([TreeLineResult(0, "<html>", "<html>", Success)], []);
      passing.IsSuccess() && !DocumentedVerdict(passing)
    ensures var failing := TestResult([TreeLineResult(0, "", "<html>", Missing)], []);
      !failing.IsSuccess() && DocumentedVerdict(failing)
  {
  }

  /** Whenever both vectors hold entries, the comment's reading rejects every passing test. */
  lemma DocCommentRejectsEveryPass(t: TestResult)
    requires t.treeResults != [] && t.errorResults != []
    ensures t.IsSuccess() ==> !DocumentedVerdict(t)
  {
  }
}
