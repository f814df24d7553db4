/** The failure records of packages/core/models/TestFailure.ts: a failing
    test as fetched from CI, its failure category, and the classified form
    the analyzer produces. */
module TestFailureModel {
  import opened Wrappers

  /** The six failure categories, each with its string tag. */
  datatype FailureType = SNAPSHOT | ASSERTION | MOCK | TYPE_ERROR | PROPERTY_CHANGE | UNKNOWN {
    function Tag(): (tag: string)
      ensures tag != []
    {
      match this
      case SNAPSHOT => "snapshot"
      case ASSERTION => "assertion"
      case MOCK => "mock"
      case TYPE_ERROR => "type_error"
      case PROPERTY_CHANGE => "property_change"
      case UNKNOWN => "unknown"
    }
  }

  /** All categories, in declaration order. */
  const AllFailureTypes: seq<FailureType> :=
    [SNAPSHOT, ASSERTION, MOCK, TYPE_ERROR, PROPERTY_CHANGE, UNKNOWN]

  /** The enumeration has exactly six members and their tags are pairwise
      distinct, so a tag identifies its category. */
  lemma {:induction false} FailureTypeTagsDistinct()
    ensures |AllFailureTypes| == 6
    ensures forall t: FailureType :: t in AllFailureTypes
    ensures forall i, j :: 0 <= i < j < |AllFailureTypes| ==>
      AllFailureTypes[i].Tag() != AllFailureTypes[j].Tag()
  {
    forall t: FailureType ensures t in AllFailureTypes {
      match t
      case SNAPSHOT => assert AllFailureTypes[0] == t;
      case ASSERTION => assert AllFailureTypes[1] == t;
      case MOCK => assert AllFailureTypes[2] == t;
      case TYPE_ERROR => assert AllFailureTypes[3] == t;
      case PROPERTY_CHANGE => assert AllFailureTypes[4] == t;
      case UNKNOWN => assert AllFailureTypes[5] == t;
    }
  }

  /** The test runner tag; the source admits only 'jest'. */
  datatype Runner = Jest

  /** An opaque point in time (the source's `Date`). */
  datatype Timestamp = Timestamp(millis: int)

  /** One failing test. `branch` is not declared on the source's interface,
      but the CI client sets it and the fix generator reads it. */
  datatype TestFailure = TestFailure(
    testName: string,
    testFile: string,
    errorMessage: string,
    stackTrace: string,
    jobId: string,
    buildNumber: int,
    commitSha: string,
    branch: Option<string>,
    timestamp: Timestamp,
    runner: Runner)

  /** A test failure together with its category, a confidence score and the
      code excerpt it concerns. The failure's own fields are kept whole in
      `failure`. */
  datatype AnalyzedFailure = AnalyzedFailure(
    failure: TestFailure,
    failureType: FailureType,
    confidence: real,
    affectedCode: string)
  {
    function TestFile(): string { failure.testFile }
  }
}
