/** apps/web/src/components/LifecycleBoard.tsx: the board groups the
    initiatives by stage and, for each card, derives the checklist progress,
    the readiness flags and the advance button from the initiative's rows.
    The rendering itself is not modelled. */
module LifecycleBoard {
  import opened Wrappers
  import opened Stages
  import opened Records
  import opened Gate
  import opened Updates
  import opened WebConstants

  /** What the board reads of an initiative: its stage and its own rows. */
  datatype BoardInitiative = BoardInitiative(
    id: Id, stage: Stage, checklistItems: seq<ChecklistItem>, approvals: seq<StageApproval>)

  datatype ChecklistProgress = ChecklistProgress(items: seq<ChecklistItem>, completed: nat, total: nat)

  /** The board's own `REQUIRED_APPROVAL_ROLES`. */
  const BOARD_REQUIRED_ROLES: seq<ApprovalRole> := [ProjectManager, DataArchitect]

  const LABEL_ADVANCING := "Advancing\U{2026}"
  const LABEL_AWAITING_APPROVALS := "Awaiting stage approvals"
  const LABEL_COMPLETE_CHECKLIST := "Complete checklist to advance"
  const DEFAULT_APPROVER := "Approver"
  const BOARD_ACTOR := "web-ui"

  /** The items of `stage`, in their order. */
  function ItemsOfStage(items: seq<ChecklistItem>, stage: Stage): (r: seq<ChecklistItem>)
    ensures |r| <= |items|
    ensures forall it <- r :: it in items && it.stage == stage
    ensures forall it <- items :: it.stage == stage ==> it in r
  {
    if |items| == 0 then []
    else
      var rest := ItemsOfStage(items[1..], stage);
      assert forall it <- items[1..] :: it in items;
      if items[0].stage == stage then [items[0]] + rest else rest
  }

  /** `items.filter((item) => item.completed).length`. */
  function CountCompleted(items: seq<ChecklistItem>): (n: nat)
    ensures n <= |items|
  {
    if |items| == 0 then 0
    else (if items[0].completed then 1 else 0) + CountCompleted(items[1..])
  }

  /** Every item is counted exactly when every item is completed. */
  lemma {:induction false} CountCompletedAll(items: seq<ChecklistItem>)
    ensures CountCompleted(items) == |items| <==> forall it <- items :: it.completed
  {
    if |items| > 0 {
      CountCompletedAll(items[1..]);
      assert forall it <- items[1..] :: it in items;
      assert forall it <- items :: it == items[0] || it in items[1..];
    }
  }

  /** `deriveChecklistProgress`: exactly the initiative's items of `stage`,
      how many of them are completed, and how many there are. */
  function DeriveChecklistProgress(initiative: BoardInitiative, stage: Stage): (p: ChecklistProgress)
    ensures p.total == |p.items| && p.completed <= p.total
    ensures forall it <- p.items :: it in initiative.checklistItems && it.stage == stage
    ensures forall it <- initiative.checklistItems :: it.stage == stage ==> it in p.items
  {
    var items := ItemsOfStage(initiative.checklistItems, stage);
    ChecklistProgress(items, CountCompleted(items), |items|)
  }

  /** `checklistReady` for the column `stage`: no items, or every one
      counted as completed. It holds exactly when no item of the stage is
      unfinished, which is the server's checklist check. */
  function ChecklistReady(initiative: BoardInitiative, stage: Stage): (r: bool)
    ensures r <==> forall it <- initiative.checklistItems :: it.stage == stage ==> it.completed
    ensures r <==> IncompleteItems(initiative.checklistItems, stage) == []
  {
    var p := DeriveChecklistProgress(initiative, stage);
    CountCompletedAll(p.items);
    IncompleteItemsEmptyIff(initiative.checklistItems, stage);
    assert forall i :: 0 <= i < |initiative.checklistItems| ==>
      initiative.checklistItems[i] in initiative.checklistItems;
    p.total == 0 || p.completed == p.total
  }

  /** `approvalsReady`: every board role has an approved approval among the
      initiative's approvals of `stage`. It holds exactly when the server
      finds no role missing. */
  function ApprovalsReady(initiative: BoardInitiative, stage: Stage): (r: bool)
    ensures r <==> MissingApprovals(initiative.approvals, stage) == []
  {
    var approvalsForStage := ApprovalsOfStage(initiative.approvals, stage);
    MissingApprovalsInRoleOrder(initiative.approvals, stage);
    assert BOARD_REQUIRED_ROLES[0] == ProjectManager && BOARD_REQUIRED_ROLES[1] == DataArchitect;
    assert forall role <- BOARD_REQUIRED_ROLES :: role == ProjectManager || role == DataArchitect;
    forall role <- BOARD_REQUIRED_ROLES :: exists a <- approvalsForStage :: a.role == role && a.approved
  }

  /** `readyForTransition`: the server would find neither an unfinished item
      nor a missing approval for the stage. */
  function ReadyForTransition(initiative: BoardInitiative, stage: Stage): (r: bool)
    ensures r <==> (IncompleteItems(initiative.checklistItems, stage) == []
                    && MissingApprovals(initiative.approvals, stage) == [])
  {
    ChecklistReady(initiative, stage) && ApprovalsReady(initiative, stage)
  }

  /** A card the board shows as ready, at a stage with a successor, passes
      every server check of the move to that successor whose inputs the card
      has; the scope-of-work checks are the ones it does not see. Conversely,
      a move to the next stage without the override that the server accepts
      was shown as ready. */
  lemma BoardReadinessMatchesServer(initiative: BoardInitiative, scope: Option<ScopeOfWork>)
    requires GetNextStage(initiative.stage).Some?
    ensures var next := GetNextStage(initiative.stage).value;
      ReadyForTransition(initiative, initiative.stage)
      && !LeavesIngestionUnapproved(initiative.stage, scope) && !DeploysWithoutSignOff(next, scope)
      <==>
      CheckTransition(initiative.stage, scope, initiative.approvals, initiative.checklistItems, next, false) == Pass
  {
    var next := GetNextStage(initiative.stage).value;
    ForwardMoveIsNextStage<GateDetails>(initiative.stage, next, false);
    MissingApprovalsInRoleOrder(initiative.approvals, initiative.stage);
    IncompleteItemsEmptyIff(initiative.checklistItems, initiative.stage);
    assert forall i :: 0 <= i < |initiative.checklistItems| ==> initiative.checklistItems[i] in initiative.checklistItems;
  }

  /** The advance button of a card: where it leads, what it says, whether it
      is disabled. */
  datatype AdvanceButton = AdvanceButton(target: Stage, title: string, disabled: bool)

  /** The card footer's button: absent without a next stage; its label is
      chosen in the order advancing, ready, checklist done, otherwise. */
  function CardButton(initiative: BoardInitiative, stage: Stage, isAdvancing: bool): (b: Option<AdvanceButton>)
    requires stage in WEB_STAGE_SEQUENCE
    ensures b.None? <==> stage == DEPLOYMENT
    ensures b.Some? ==> b.value.target == WebGetNextStage(stage).value
    ensures b.Some? ==> (b.value.disabled <==> !ReadyForTransition(initiative, stage) || isAdvancing)
    ensures b.Some? ==>
      b.value.title == (
        if isAdvancing then LABEL_ADVANCING
        else if ReadyForTransition(initiative, stage) then "Move to " + StageLabel(b.value.target)
        else if ChecklistReady(initiative, stage) then LABEL_AWAITING_APPROVALS
        else LABEL_COMPLETE_CHECKLIST)
  {
    SameSequenceAsApi();
    match WebGetNextStage(stage)
    case None => None
    case Some(nextStage) =>
      var ready := ReadyForTransition(initiative, stage);
      Some(AdvanceButton(
        nextStage,
        if isAdvancing then LABEL_ADVANCING
        else if ready then "Move to " + StageLabel(nextStage)
        else if ChecklistReady(initiative, stage) then LABEL_AWAITING_APPROVALS
        else LABEL_COMPLETE_CHECKLIST,
        !ready || isAdvancing))
  }

  /** The button is enabled only on a ready card that is not advancing, and
      an enabled button always names the stage it moves to. */
  lemma EnabledButtonMovesToNextStage(initiative: BoardInitiative, stage: Stage, isAdvancing: bool)
    requires stage in WEB_STAGE_SEQUENCE
    requires CardButton(initiative, stage, isAdvancing).Some?
    ensures var b := CardButton(initiative, stage, isAdvancing).value;
      !b.disabled ==>
        && ReadyForTransition(initiative, stage)
        && b.title == "Move to " + StageLabel(b.target)
        && b.target == GetNextStage(stage).value
  {
    WebNextStageAgreesWithApi(stage);
  }

  /** The request an enabled advance button sends. */
  function AdvanceRequest(target: Stage): (req: TransitionRequest)
    ensures req.targetStage == target && req.allowRegression.None? && req.actor == Some(BOARD_ACTOR)
    ensures IsStage(target) ==> ValidTransitionRequest(req)
  {
    TransitionRequest(target, None, Some(BOARD_ACTOR), None)
  }

  /** The payload of an approval toggle: a name only when approving, the
      fallback name when none is known. */
  function ApprovalTogglePayload(approved: bool, approverName: Option<string>): (p: ApprovalPatch)
    ensures p.approved == approved && p.notes.None?
    ensures approved <==> p.approvedBy.Some?
    ensures !ApprovalNameMissing(p)
    ensures approved ==> p.approvedBy == Some(approverName.GetOr(DEFAULT_APPROVER))
    ensures approverName.None? || |approverName.value| >= 2 ==> ValidApprovalPatch(p)
  {
    ApprovalPatch(approved, if approved then Some(approverName.GetOr(DEFAULT_APPROVER)) else None, None)
  }

  /** The initiatives of `stage` among `xs`, in their order. */
  function OfStage(xs: seq<BoardInitiative>, stage: Stage): (r: seq<BoardInitiative>)
    ensures |r| <= |xs|
  {
    if |xs| == 0 then []
    else OfStage(xs[..|xs| - 1], stage) + (if xs[|xs| - 1].stage == stage then [xs[|xs| - 1]] else [])
  }

  /** Appending one initiative adds it to its own stage's list only. */
  lemma OfStageSnoc(xs: seq<BoardInitiative>, x: BoardInitiative, stage: Stage)
    ensures OfStage(xs + [x], stage) == OfStage(xs, stage) + (if x.stage == stage then [x] else [])
  {
    assert (xs + [x])[..|xs|] == xs;
  }

  /** An initiative is in the group of `stage` exactly when it is one of the
      list and sits at `stage`; so it is in its own group and in no other. */
  lemma {:induction false} OfStageExactly(xs: seq<BoardInitiative>, stage: Stage, x: BoardInitiative)
    ensures x in OfStage(xs, stage) <==> x in xs && x.stage == stage
  {
    if |xs| > 0 {
      OfStageExactly(xs[..|xs| - 1], stage, x);
      assert xs == xs[..|xs| - 1] + [xs[|xs| - 1]];
    }
  }

  /** `initiativesByStage`: a group for every stage of the sequence, filled by
      pushing each initiative onto the group of its stage; initiatives at a
      stage the sequence lacks are dropped. */
  method InitiativesByStage(initiatives: seq<BoardInitiative>) returns (groups: map<Stage, seq<BoardInitiative>>)
    ensures groups.Keys == set s <- WEB_STAGE_SEQUENCE
    ensures forall s :: s in groups ==> groups[s] == OfStage(initiatives, s)
  {
    groups := map[];
    for k := 0 to |WEB_STAGE_SEQUENCE|
      invariant groups.Keys == set s <- WEB_STAGE_SEQUENCE[..k]
      invariant forall s :: s in groups ==> groups[s] == []
    {
      assert WEB_STAGE_SEQUENCE[..k + 1] == WEB_STAGE_SEQUENCE[..k] + [WEB_STAGE_SEQUENCE[k]];
      groups := groups[WEB_STAGE_SEQUENCE[k] := []];
    }
    assert WEB_STAGE_SEQUENCE[..|WEB_STAGE_SEQUENCE|] == WEB_STAGE_SEQUENCE;
    for i := 0 to |initiatives|
      invariant groups.Keys == set s <- WEB_STAGE_SEQUENCE
      invariant forall s :: s in groups ==> groups[s] == OfStage(initiatives[..i], s)
    {
      var initiative := initiatives[i];
      assert initiatives[..i + 1] == initiatives[..i] + [initiative];
      forall s ensures OfStage(initiatives[..i + 1], s) ==
        OfStage(initiatives[..i], s) + (if initiative.stage == s then [initiative] else []) {
        OfStageSnoc(initiatives[..i], initiative, s);
      }
      if initiative.stage in groups {
        groups := groups[initiative.stage := groups[initiative.stage] + [initiative]];
      }
    }
    assert initiatives[..|initiatives|] == initiatives;
  }

  /** Every initiative at a stage of the sequence is placed in the group of
      its own stage and in no other group; every stage has a group, empty or not. */
  lemma GroupingPlacesEachInitiativeOnce(
    initiatives: seq<BoardInitiative>, groups: map<Stage, seq<BoardInitiative>>, x: BoardInitiative)
    requires groups.Keys == set s <- WEB_STAGE_SEQUENCE
    requires forall s :: s in groups ==> groups[s] == OfStage(initiatives, s)
    requires x in initiatives
    ensures forall s <- WEB_STAGE_SEQUENCE :: s in groups
    ensures forall s :: s in groups ==> (x in groups[s] <==> s == x.stage)
    ensures x.stage in WEB_STAGE_SEQUENCE ==> x.stage in groups
  {
    forall s | s in groups ensures x in groups[s] <==> s == x.stage {
      OfStageExactly(initiatives, s, x);
    }
  }
}
