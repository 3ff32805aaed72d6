/** apps/api/src/domain/stage.ts: the lifecycle's stage sequence and the
    ordering rule for a requested move. Stage values are strings, as Prisma's
    enum values are at run time, so a value outside the sequence can reach the
    rule and is rejected by it. */
module Stages {
  import opened Wrappers
  import opened Errors

  type Stage = string

  const INGESTION: Stage := "INGESTION"
  const TRANSFORMATION: Stage := "TRANSFORMATION"
  const ENRICHMENT: Stage := "ENRICHMENT"
  const VALIDATION: Stage := "VALIDATION"
  const VISUALIZATION: Stage := "VISUALIZATION"
  const DEPLOYMENT: Stage := "DEPLOYMENT"

  const STAGE_SEQUENCE: seq<Stage> :=
    [INGESTION, TRANSFORMATION, ENRICHMENT, VALIDATION, VISUALIZATION, DEPLOYMENT]

  const MSG_UNKNOWN_STAGE := "Unknown stage transition"
  const MSG_SAME_STAGE := "Initiative is already in the requested stage"
  const MSG_STAGE_SKIP := "Cannot skip stages in lifecycle progression"
  const MSG_REGRESSION := "Stage regression is not permitted without override"

  predicate IsStage(s: Stage) {
    s in STAGE_SEQUENCE
  }

  /** The sequence holds six distinct stages, INGESTION first and DEPLOYMENT last. */
  lemma SequenceIsSixDistinctStages()
    ensures |STAGE_SEQUENCE| == 6
    ensures STAGE_SEQUENCE[0] == INGESTION && STAGE_SEQUENCE[5] == DEPLOYMENT
    ensures forall i, j :: 0 <= i < j < |STAGE_SEQUENCE| ==> STAGE_SEQUENCE[i] != STAGE_SEQUENCE[j]
  {
    assert INGESTION[0] == 'I' && TRANSFORMATION[0] == 'T' && ENRICHMENT[0] == 'E';
    assert VALIDATION[1] == 'A' && VISUALIZATION[1] == 'I' && DEPLOYMENT[0] == 'D';
  }

  /** `Array.prototype.indexOf`: the first position of `x`, or -1. */
  function IndexOf<T(==)>(xs: seq<T>, x: T): (i: int)
    ensures -1 <= i < |xs|
    ensures i == -1 <==> x !in xs
    ensures 0 <= i ==> xs[i] == x && x !in xs[..i]
  {
    if |xs| == 0 then -1
    else if xs[0] == x then 0
    else
      var j := IndexOf(xs[1..], x);
      assert j >= 0 ==> xs[..j + 1] == [xs[0]] + xs[1..][..j];
      if j == -1 then -1 else j + 1
  }

  function StageIndex(s: Stage): (i: int)
    ensures -1 <= i < 6
    ensures i == -1 <==> !IsStage(s)
    ensures 0 <= i ==> STAGE_SEQUENCE[i] == s
  {
    IndexOf(STAGE_SEQUENCE, s)
  }

  /** Every stage is found at its own position. */
  lemma StageIndexOfPosition(i: nat)
    requires i < 6
    ensures StageIndex(STAGE_SEQUENCE[i]) == i
  {
    SequenceIsSixDistinctStages();
  }

  /** `getNextStage`: the stage after `current`, none after DEPLOYMENT or for
      an unknown value. */
  function GetNextStage(current: Stage): (next: Option<Stage>)
    ensures next.Some? <==> IsStage(current) && current != DEPLOYMENT
    ensures next.Some? ==> StageIndex(current) < 5 && next.value == STAGE_SEQUENCE[StageIndex(current) + 1]
  {
    var index := StageIndex(current);
    if index == -1 || index >= |STAGE_SEQUENCE| - 1 then None
    else Some(STAGE_SEQUENCE[index + 1])
  }

  /** The stage after position i is the one at position i + 1; nothing follows
      the last; and no stage is its own successor. */
  lemma NextStageOfPosition(i: nat)
    requires i < 6
    ensures GetNextStage(STAGE_SEQUENCE[i]) == if i < 5 then Some(STAGE_SEQUENCE[i + 1]) else None
    ensures GetNextStage(STAGE_SEQUENCE[i]) != Some(STAGE_SEQUENCE[i])
  {
    StageIndexOfPosition(i);
    SequenceIsSixDistinctStages();
  }

  /** No value is its own successor. */
  lemma NoStageFollowsItself(s: Stage)
    ensures GetNextStage(s) != Some(s)
  {
    if IsStage(s) {
      NextStageOfPosition(StageIndex(s));
    }
  }

  /** `ensureValidTransition`: `Pass` when the move may go ahead, otherwise the
      400 error the source throws, checked in the source's order. */
  function EnsureValidTransition<D>(current: Stage, target: Stage, allowRegression: bool): (r: Outcome<HttpError<D>>)
    ensures r.Pass? <==>
      IsStage(current) && IsStage(target) &&
      (StageIndex(target) == StageIndex(current) + 1 ||
       (StageIndex(target) < StageIndex(current) && allowRegression))
    ensures r.Fail? ==> r.error.status == 400 && r.error.details.None?
    ensures !IsStage(current) || !IsStage(target) ==> r == Fail(BadRequest(MSG_UNKNOWN_STAGE, None))
    ensures IsStage(current) && current == target ==> r == Fail(BadRequest(MSG_SAME_STAGE, None))
    ensures IsStage(current) && IsStage(target) && StageIndex(target) > StageIndex(current) + 1 ==>
      r == Fail(BadRequest(MSG_STAGE_SKIP, None))
    ensures IsStage(current) && IsStage(target) && StageIndex(target) < StageIndex(current) && !allowRegression ==>
      r == Fail(BadRequest(MSG_REGRESSION, None))
  {
    var fromIndex := StageIndex(current);
    var toIndex := StageIndex(target);
    if fromIndex == -1 || toIndex == -1 then Fail(BadRequest(MSG_UNKNOWN_STAGE, None))
    else if toIndex == fromIndex then Fail(BadRequest(MSG_SAME_STAGE, None))
    else if toIndex == fromIndex + 1 then Pass
    else if toIndex > fromIndex + 1 then Fail(BadRequest(MSG_STAGE_SKIP, None))
    else if !allowRegression then Fail(BadRequest(MSG_REGRESSION, None))
    else Pass
  }

  /** Without the override a move that passes goes to the next stage, and the
      next stage always passes, whatever the override. */
  lemma ForwardMoveIsNextStage<D>(current: Stage, target: Stage, allowRegression: bool)
    ensures !allowRegression && EnsureValidTransition<D>(current, target, false).Pass? ==>
      GetNextStage(current) == Some(target)
    ensures GetNextStage(current) == Some(target) ==>
      EnsureValidTransition<D>(current, target, allowRegression).Pass?
  {
    if GetNextStage(current) == Some(target) {
      var i := StageIndex(current);
      StageIndexOfPosition(i + 1);
    }
  }

  /** Staying put is never allowed, not even with the override. */
  lemma SameStageAlwaysRejected<D>(s: Stage, allowRegression: bool)
    ensures EnsureValidTransition<D>(s, s, allowRegression).Fail?
  {
  }

  /** Every backward move is allowed exactly when the override is given. */
  lemma BackwardMoveNeedsOverride<D>(i: nat, j: nat, allowRegression: bool)
    requires j < i < 6
    ensures EnsureValidTransition<D>(STAGE_SEQUENCE[i], STAGE_SEQUENCE[j], allowRegression).Pass? <==> allowRegression
  {
    StageIndexOfPosition(i);
    StageIndexOfPosition(j);
  }

  /** Moving two or more stages ahead is never allowed, not even with the override. */
  lemma SkipAlwaysRejected<D>(i: nat, j: nat, allowRegression: bool)
    requires i + 2 <= j < 6
    ensures EnsureValidTransition<D>(STAGE_SEQUENCE[i], STAGE_SEQUENCE[j], allowRegression)
      == Fail(BadRequest(MSG_STAGE_SKIP, None))
  {
    StageIndexOfPosition(i);
    StageIndexOfPosition(j);
  }

  /** The cases the source's own tests exercise. */
  lemma UnitTestCases<D>()
    ensures GetNextStage(INGESTION) == Some(TRANSFORMATION)
    ensures GetNextStage(DEPLOYMENT) == None
    ensures EnsureValidTransition<D>(INGESTION, TRANSFORMATION, false).Pass?
    ensures EnsureValidTransition<D>(INGESTION, ENRICHMENT, false) == Fail(BadRequest(MSG_STAGE_SKIP, None))
    ensures EnsureValidTransition<D>(ENRICHMENT, TRANSFORMATION, false) == Fail(BadRequest(MSG_REGRESSION, None))
    ensures EnsureValidTransition<D>(ENRICHMENT, TRANSFORMATION, true).Pass?
  {
    NextStageOfPosition(0);
    NextStageOfPosition(5);
    StageIndexOfPosition(0);
    StageIndexOfPosition(1);
    StageIndexOfPosition(2);
  }
}
