/** The guard chain of the `POST /:id/transition` handler in
    apps/api/src/routes/initiatives.ts (lines 340-406): which move is
    allowed, which error a refused move gets, and the status after a move.
    Everything here is a function of an initiative's rows as the handler
    loads them. */
module Gate {
  import opened Wrappers
  import opened Errors
  import opened Stages
  import opened Records

  /** The two roles that must sign off every stage, in the order missing
      roles are reported. */
  const REQUIRED_APPROVAL_ROLES: seq<ApprovalRole> := [ProjectManager, DataArchitect]

  const MSG_SCOPE_NOT_APPROVED :=
    "Scope of Work must be approved by PM and Data Architect before progressing beyond Ingestion."
  const MSG_SCOPE_NOT_SIGNED_OFF := "Scope of Work must be fully signed off before deployment."
  const MSG_MISSING_APPROVALS := "Stage progression requires approvals."
  const MSG_INCOMPLETE_CHECKLIST := "Cannot advance stage until all exit checklist items are completed."

  /** An unfinished checklist item as the error lists it. */
  datatype ChecklistRef = ChecklistRef(id: Id, title: string)

  /** The `details` of the two errors that carry any. */
  datatype GateDetails =
    | MissingApprovalsDetail(missingApprovals: seq<ApprovalRole>)
    | IncompleteItemsDetail(items: seq<ChecklistRef>)

  type GateError = HttpError<GateDetails>

  /** `approvals.filter((approval) => approval.stage === stage)`. */
  function ApprovalsOfStage(approvals: seq<StageApproval>, stage: Stage): (r: seq<StageApproval>)
    ensures forall a <- r :: a in approvals && a.stage == stage
    ensures forall a <- approvals :: a.stage == stage ==> a in r
  {
    if |approvals| == 0 then []
    else
      var rest := ApprovalsOfStage(approvals[1..], stage);
      assert forall a <- approvals[1..] :: a in approvals;
      if approvals[0].stage == stage then [approvals[0]] + rest else rest
  }

  /** Some approval of `stage` has `role` and is approved. */
  predicate HasApproval(approvals: seq<StageApproval>, stage: Stage, role: ApprovalRole) {
    exists a <- ApprovalsOfStage(approvals, stage) :: a.role == role && a.approved
  }

  /** The `roles` that `stage` has no approval for, in their order. */
  function RolesMissing(roles: seq<ApprovalRole>, approvals: seq<StageApproval>, stage: Stage): (r: seq<ApprovalRole>)
    ensures forall role :: role in r <==> role in roles && !HasApproval(approvals, stage, role)
  {
    if |roles| == 0 then []
    else
      (if HasApproval(approvals, stage, roles[0]) then [] else [roles[0]])
      + RolesMissing(roles[1..], approvals, stage)
  }

  /** `missingApprovals`: the required roles without an approval for `stage`;
      empty exactly when both roles have approved the stage. */
  function MissingApprovals(approvals: seq<StageApproval>, stage: Stage): (r: seq<ApprovalRole>)
    ensures forall role :: role in r <==> role in REQUIRED_APPROVAL_ROLES && !HasApproval(approvals, stage, role)
    ensures r == [] <==>
      HasApproval(approvals, stage, ProjectManager) && HasApproval(approvals, stage, DataArchitect)
  {
    var r := RolesMissing(REQUIRED_APPROVAL_ROLES, approvals, stage);
    assert REQUIRED_APPROVAL_ROLES[0] == ProjectManager && REQUIRED_APPROVAL_ROLES[1] == DataArchitect;
    assert forall role <- REQUIRED_APPROVAL_ROLES :: role == ProjectManager || role == DataArchitect;
    assert r != [] ==> r[0] in r;
    r
  }

  /** The missing roles are reported project manager first, each at most
      once, and none exactly when both roles have approved the stage. */
  lemma MissingApprovalsInRoleOrder(approvals: seq<StageApproval>, stage: Stage)
    ensures MissingApprovals(approvals, stage) ==
      (if HasApproval(approvals, stage, ProjectManager) then [] else [ProjectManager])
      + (if HasApproval(approvals, stage, DataArchitect) then [] else [DataArchitect])
    ensures MissingApprovals(approvals, stage) == [] <==>
      HasApproval(approvals, stage, ProjectManager) && HasApproval(approvals, stage, DataArchitect)
  {
    var roles := REQUIRED_APPROVAL_ROLES;
    assert roles[1..] == [DataArchitect] && roles[1..][1..] == [];
    assert RolesMissing(roles[1..], approvals, stage) ==
      (if HasApproval(approvals, stage, DataArchitect) then [] else [DataArchitect])
      + RolesMissing([], approvals, stage);
  }

  predicate IsIncompleteRef(items: seq<ChecklistItem>, stage: Stage, ref: ChecklistRef) {
    exists it <- items :: it.stage == stage && !it.completed && it.id == ref.id && it.title == ref.title
  }

  /** The unfinished checklist items of `stage`, as (id, title), in order:
      the list names exactly the items of the stage that are not completed. */
  function IncompleteItems(items: seq<ChecklistItem>, stage: Stage): (r: seq<ChecklistRef>)
    ensures |r| <= |items|
    ensures forall ref :: ref in r <==> IsIncompleteRef(items, stage, ref)
  {
    if |items| == 0 then []
    else
      var rest := IncompleteItems(items[1..], stage);
      assert forall it <- items[1..] :: it in items;
      assert forall it <- items :: it == items[0] || it in items[1..];
      if items[0].stage == stage && !items[0].completed
      then [ChecklistRef(items[0].id, items[0].title)] + rest
      else rest
  }

  /** The list is empty exactly when every item of the stage is completed. */
  lemma {:induction false} IncompleteItemsEmptyIff(items: seq<ChecklistItem>, stage: Stage)
    ensures IncompleteItems(items, stage) == [] <==>
      forall i :: 0 <= i < |items| && items[i].stage == stage ==> items[i].completed
  {
    if |items| > 0 {
      IncompleteItemsEmptyIff(items[1..], stage);
      assert forall i :: 1 <= i < |items| ==> items[i] == items[1..][i - 1];
    }
  }

  /** Leaving INGESTION needs an approved or signed-off scope, when one exists. */
  predicate LeavesIngestionUnapproved(stage: Stage, scope: Option<ScopeOfWork>) {
    scope.Some? && stage == INGESTION && scope.value.status !in {Approved, SignedOff}
  }

  /** Entering DEPLOYMENT needs a signed-off scope, when one exists. */
  predicate DeploysWithoutSignOff(target: Stage, scope: Option<ScopeOfWork>) {
    scope.Some? && target == DEPLOYMENT && scope.value.status != SignedOff
  }

  /** The handler's checks from `ensureValidTransition` to the checklist, in
      order; the first that fails decides the error. `approvals` and `items`
      are the initiative's own rows. */
  function CheckTransition(
    stage: Stage, scope: Option<ScopeOfWork>, approvals: seq<StageApproval>,
    items: seq<ChecklistItem>, target: Stage, allowRegression: bool): (r: Outcome<GateError>)
    ensures r.Pass? <==>
      && EnsureValidTransition<GateDetails>(stage, target, allowRegression).Pass?
      && !LeavesIngestionUnapproved(stage, scope)
      && !DeploysWithoutSignOff(target, scope)
      && HasApproval(approvals, stage, ProjectManager) && HasApproval(approvals, stage, DataArchitect)
      && (allowRegression || forall i :: 0 <= i < |items| && items[i].stage == stage ==> items[i].completed)
    ensures r.Fail? ==> r.error.status == 400
    // the first failing check wins
    ensures EnsureValidTransition<GateDetails>(stage, target, allowRegression).Fail? ==>
      r == EnsureValidTransition(stage, target, allowRegression)
    ensures EnsureValidTransition<GateDetails>(stage, target, allowRegression).Pass? ==>
      && (LeavesIngestionUnapproved(stage, scope) ==>
            r == Fail(BadRequest(MSG_SCOPE_NOT_APPROVED, None)))
      && (!LeavesIngestionUnapproved(stage, scope) && DeploysWithoutSignOff(target, scope) ==>
            r == Fail(BadRequest(MSG_SCOPE_NOT_SIGNED_OFF, None)))
      && (!LeavesIngestionUnapproved(stage, scope) && !DeploysWithoutSignOff(target, scope)
          && MissingApprovals(approvals, stage) != [] ==>
            r == Fail(BadRequest(MSG_MISSING_APPROVALS,
                                 Some(MissingApprovalsDetail(MissingApprovals(approvals, stage))))))
      && (!LeavesIngestionUnapproved(stage, scope) && !DeploysWithoutSignOff(target, scope)
          && MissingApprovals(approvals, stage) == [] && !allowRegression
          && IncompleteItems(items, stage) != [] ==>
            r == Fail(BadRequest(MSG_INCOMPLETE_CHECKLIST,
                                 Some(IncompleteItemsDetail(IncompleteItems(items, stage))))))
  {
    MissingApprovalsInRoleOrder(approvals, stage);
    IncompleteItemsEmptyIff(items, stage);
    var order := EnsureValidTransition<GateDetails>(stage, target, allowRegression);
    if order.Fail? then order
    else if LeavesIngestionUnapproved(stage, scope) then Fail(BadRequest(MSG_SCOPE_NOT_APPROVED, None))
    else if DeploysWithoutSignOff(target, scope) then Fail(BadRequest(MSG_SCOPE_NOT_SIGNED_OFF, None))
    else
      var missing := MissingApprovals(approvals, stage);
      if |missing| > 0 then
        Fail(BadRequest(MSG_MISSING_APPROVALS, Some(MissingApprovalsDetail(missing))))
      else if !allowRegression && |IncompleteItems(items, stage)| > 0 then
        Fail(BadRequest(MSG_INCOMPLETE_CHECKLIST, Some(IncompleteItemsDetail(IncompleteItems(items, stage)))))
      else Pass
  }

  /** Under the override the checklist is not looked at at all, but the
      approvals still are. */
  lemma RegressionSkipsOnlyTheChecklist(
    stage: Stage, scope: Option<ScopeOfWork>, approvals: seq<StageApproval>,
    items1: seq<ChecklistItem>, items2: seq<ChecklistItem>, target: Stage)
    ensures CheckTransition(stage, scope, approvals, items1, target, true)
         == CheckTransition(stage, scope, approvals, items2, target, true)
    ensures !HasApproval(approvals, stage, ProjectManager) ==>
      CheckTransition(stage, scope, approvals, items1, target, true).Fail?
  {
  }

  /** Only the approvals of the stage being left matter; approvals recorded
      for the target or any other stage change nothing. */
  lemma OnlyCurrentStageApprovalsMatter(
    stage: Stage, scope: Option<ScopeOfWork>, approvals1: seq<StageApproval>,
    approvals2: seq<StageApproval>, items: seq<ChecklistItem>, target: Stage, allowRegression: bool)
    requires ApprovalsOfStage(approvals1, stage) == ApprovalsOfStage(approvals2, stage)
    ensures CheckTransition(stage, scope, approvals1, items, target, allowRegression)
         == CheckTransition(stage, scope, approvals2, items, target, allowRegression)
  {
    MissingApprovalsInRoleOrder(approvals1, stage);
    MissingApprovalsInRoleOrder(approvals2, stage);
    assert HasApproval(approvals1, stage, ProjectManager) == HasApproval(approvals2, stage, ProjectManager);
    assert HasApproval(approvals1, stage, DataArchitect) == HasApproval(approvals2, stage, DataArchitect);
    assert MissingApprovals(approvals1, stage) == MissingApprovals(approvals2, stage);
  }

  /** An initiative at INGESTION whose scope is still a draft cannot move,
      whatever its checklist and approvals say. */
  lemma DraftScopeHoldsIngestion(
    scope: ScopeOfWork, approvals: seq<StageApproval>, items: seq<ChecklistItem>)
    requires scope.status == Draft
    ensures CheckTransition(INGESTION, Some(scope), approvals, items, TRANSFORMATION, false)
         == Fail(BadRequest(MSG_SCOPE_NOT_APPROVED, None))
  {
    StageIndexOfPosition(0);
    StageIndexOfPosition(1);
  }

  /** With a signed-off scope, a finished checklist and both approvals,
      VISUALIZATION may move on to DEPLOYMENT. */
  lemma ReadyVisualizationDeploys(
    scope: ScopeOfWork, approvals: seq<StageApproval>, items: seq<ChecklistItem>)
    requires scope.status == SignedOff
    requires HasApproval(approvals, VISUALIZATION, ProjectManager)
    requires HasApproval(approvals, VISUALIZATION, DataArchitect)
    requires forall it <- items :: it.stage == VISUALIZATION ==> it.completed
    ensures CheckTransition(VISUALIZATION, Some(scope), approvals, items, DEPLOYMENT, false) == Pass
  {
    StageIndexOfPosition(4);
    StageIndexOfPosition(5);
    SequenceIsSixDistinctStages();
    assert forall i :: 0 <= i < |items| ==> items[i] in items;
  }

  /** `nextStatus`: DEPLOYMENT completes the initiative; any other move takes
      a completed initiative back to ON_TRACK and leaves other statuses be. */
  function NextStatus(target: Stage, status: InitiativeStatus): (r: InitiativeStatus)
    ensures r == Complete <==> target == DEPLOYMENT
    ensures target != DEPLOYMENT && status == Complete ==> r == OnTrack
    ensures target != DEPLOYMENT && status != Complete ==> r == status
  {
    if target == DEPLOYMENT then Complete
    else if status == Complete then OnTrack
    else status
  }

  /** An approval reset to its unsigned state. */
  function Unapproved(a: StageApproval): (r: StageApproval)
    ensures r.id == a.id && r.initiativeId == a.initiativeId && r.stage == a.stage && r.role == a.role
    ensures !r.approved && r.approvedBy.None? && r.approvedAt.None? && r.notes.None?
  {
    a.(approved := false, approvedBy := None, approvedAt := None, notes := None)
  }

  /** `stageApproval.updateMany` for the initiative's approvals of `stage`. */
  function ResetApprovals(approvals: seq<StageApproval>, initiativeId: Id, stage: Stage): (r: seq<StageApproval>)
    ensures |r| == |approvals|
    ensures forall i :: 0 <= i < |approvals| ==>
      r[i] == if approvals[i].initiativeId == initiativeId && approvals[i].stage == stage
              then Unapproved(approvals[i]) else approvals[i]
  {
    seq(|approvals|, i requires 0 <= i < |approvals| =>
      if approvals[i].initiativeId == initiativeId && approvals[i].stage == stage
      then Unapproved(approvals[i]) else approvals[i])
  }

  /** `include: { approvals: true }` and `checklistItems: true`: the rows
      that belong to one initiative. */
  function ApprovalsOf(approvals: seq<StageApproval>, initiativeId: Id): (r: seq<StageApproval>)
    ensures forall a <- r :: a in approvals && a.initiativeId == initiativeId
    ensures forall a <- approvals :: a.initiativeId == initiativeId ==> a in r
  {
    if |approvals| == 0 then []
    else
      var rest := ApprovalsOf(approvals[1..], initiativeId);
      assert forall a <- approvals[1..] :: a in approvals;
      if approvals[0].initiativeId == initiativeId then [approvals[0]] + rest else rest
  }

  function ItemsOf(items: seq<ChecklistItem>, initiativeId: Id): (r: seq<ChecklistItem>)
    ensures forall it <- r :: it in items && it.initiativeId == initiativeId
    ensures forall it <- items :: it.initiativeId == initiativeId ==> it in r
  {
    if |items| == 0 then []
    else
      var rest := ItemsOf(items[1..], initiativeId);
      assert forall it <- items[1..] :: it in items;
      if items[0].initiativeId == initiativeId then [items[0]] + rest else rest
  }

  /** After the reset the initiative has no approval for the stage it
      entered: both roles are missing for it. */
  lemma ResetStageHasNoApprovals(approvals: seq<StageApproval>, initiativeId: Id, stage: Stage)
    ensures MissingApprovals(ApprovalsOf(ResetApprovals(approvals, initiativeId, stage), initiativeId), stage)
         == REQUIRED_APPROVAL_ROLES
  {
    var mine := ApprovalsOf(ResetApprovals(approvals, initiativeId, stage), initiativeId);
    forall role ensures !HasApproval(mine, stage, role) {
      forall a <- ApprovalsOfStage(mine, stage) ensures !a.approved {
        var r := ResetApprovals(approvals, initiativeId, stage);
        assert a in r;
        var i :| 0 <= i < |r| && r[i] == a;
      }
    }
    MissingApprovalsInRoleOrder(mine, stage);
  }

  /** A stage entered by a move cannot be left again until both roles sign
      it off afresh: whatever the next request, it is refused. */
  lemma EnteredStageNeedsFreshApprovals(
    approvals: seq<StageApproval>, initiativeId: Id, entered: Stage, scope: Option<ScopeOfWork>,
    items: seq<ChecklistItem>, next: Stage, allowRegression: bool)
    ensures CheckTransition(entered, scope,
                            ApprovalsOf(ResetApprovals(approvals, initiativeId, entered), initiativeId),
                            items, next, allowRegression).Fail?
  {
    ResetStageHasNoApprovals(approvals, initiativeId, entered);
    MissingApprovalsInRoleOrder(ApprovalsOf(ResetApprovals(approvals, initiativeId, entered), initiativeId), entered);
  }
}
