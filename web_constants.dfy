/** apps/web/src/constants.ts: the front end's own copy of the stage
    sequence, the stage labels and `getNextStage`. */
module WebConstants {
  import opened Wrappers
  import opened Text
  import opened Stages

  /** The front end's `STAGE_SEQUENCE`, written out separately from the API's. */
  const WEB_STAGE_SEQUENCE: seq<string> :=
    ["INGESTION", "TRANSFORMATION", "ENRICHMENT", "VALIDATION", "VISUALIZATION", "DEPLOYMENT"]

  /** Both sides list the same six stages in the same order. */
  lemma SameSequenceAsApi()
    ensures WEB_STAGE_SEQUENCE == STAGE_SEQUENCE
  {
  }

  /** `STAGE_LABELS`: each label is its stage with every letter after the
      first in lower case. */
  function StageLabel(s: Stage): (title: string)
    requires s in WEB_STAGE_SEQUENCE
    ensures |title| == |s| && title[0] == s[0]
    ensures forall i :: 1 <= i < |s| ==> title[i] == LowerChar(s[i])
  {
    match s
    case "INGESTION" => "Ingestion"
    case "TRANSFORMATION" => "Transformation"
    case "ENRICHMENT" => "Enrichment"
    case "VALIDATION" => "Validation"
    case "VISUALIZATION" => "Visualization"
    case _ => "Deployment"
  }

  /** The front end's `getNextStage`. */
  function WebGetNextStage(current: Stage): (next: Option<Stage>)
    ensures next.Some? ==> next.value in WEB_STAGE_SEQUENCE
    ensures next.None? <==> current !in WEB_STAGE_SEQUENCE || current == WEB_STAGE_SEQUENCE[5]
  {
    var index := IndexOf(WEB_STAGE_SEQUENCE, current);
    if index == -1 || index == |WEB_STAGE_SEQUENCE| - 1 then None
    else Some(WEB_STAGE_SEQUENCE[index + 1])
  }

  /** The front end and the API agree on the next stage of every value,
      stage or not. */
  lemma WebNextStageAgreesWithApi(current: Stage)
    ensures WebGetNextStage(current) == GetNextStage(current)
  {
    SameSequenceAsApi();
  }

  /** The stage after position `i < 5` is the one at `i + 1`; there is none
      after DEPLOYMENT; and no stage is its own successor. */
  lemma WebNextStageOfPosition(i: nat)
    requires i < 6
    ensures i < 5 ==> WebGetNextStage(WEB_STAGE_SEQUENCE[i]) == Some(WEB_STAGE_SEQUENCE[i + 1])
    ensures WebGetNextStage("DEPLOYMENT") == None
    ensures forall s :: WebGetNextStage(s) != Some(s)
  {
    SameSequenceAsApi();
    NextStageOfPosition(i);
    forall s ensures WebGetNextStage(s) != Some(s) {
      WebNextStageAgreesWithApi(s);
      NoStageFollowsItself(s);
    }
  }
}
