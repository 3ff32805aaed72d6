/** The initiative routes of apps/api/src/routes/initiatives.ts over an
    in-memory store: each table the handlers touch is a field, each handler a
    method that reads and writes the fields step by step. Timestamps are the
    `now` parameter; ids come from the store's counter. */
module Store {
  import opened Wrappers
  import opened Errors
  import opened Stages
  import opened Records
  import opened Gate
  import opened Updates

  const MSG_INITIATIVE_NOT_FOUND := "Initiative not found"
  const MSG_CHECKLIST_NOT_FOUND := "Checklist item not found"
  const MSG_SCOPE_NOT_FOUND := "Scope of Work not found"
  const MSG_APPROVAL_NOT_FOUND := "Stage approval not found"
  const MSG_APPROVER_REQUIRED := "Approver name is required when approving a stage."
  const MSG_ACCESS_NOT_FOUND := "Access request not found"
  const MSG_RISK_NOT_FOUND := "Risk not found"
  const MSG_SIGN_OFF_NEEDS_APPROVALS := "SOW cannot be signed off without both approvals."
  const SYSTEM_ACTOR := "system"

  /** Why a handler refused a request: an `HttpError` it threw, or the
      refinement of a request schema (a validation error, answered with 400). */
  datatype Failure = Http(error: GateError) | Invalid(message: string)

  /** The scope of work of an initiative, if it has one (`initiativeId` is unique). */
  function ScopeOf(scopes: map<Id, ScopeOfWork>, initiativeId: Id): (r: Option<ScopeOfWork>)
    ensures r.Some? <==> initiativeId in scopes
    ensures r.Some? ==> r.value == scopes[initiativeId]
  {
    if initiativeId in scopes then Some(scopes[initiativeId]) else None
  }

  /** `findUnique({ where: { id } })` over the checklist table. */
  function ItemIndex(items: seq<ChecklistItem>, id: Id): (r: Option<nat>)
    ensures r.Some? ==> r.value < |items| && items[r.value].id == id
    ensures r.None? ==> forall it <- items :: it.id != id
  {
    if |items| == 0 then None
    else if items[0].id == id then Some(0)
    else match ItemIndex(items[1..], id)
      case None => None
      case Some(k) => Some(k + 1)
  }

  /** `findUnique({ where: { id } })` over the approval table. */
  function ApprovalIndex(approvals: seq<StageApproval>, id: Id): (r: Option<nat>)
    ensures r.Some? ==> r.value < |approvals| && approvals[r.value].id == id
    ensures r.None? ==> forall a <- approvals :: a.id != id
  {
    if |approvals| == 0 then None
    else if approvals[0].id == id then Some(0)
    else match ApprovalIndex(approvals[1..], id)
      case None => None
      case Some(k) => Some(k + 1)
  }

  predicate InitiativesValid(initiatives: map<Id, Initiative>, bound: nat) {
    forall k :: k in initiatives ==> initiatives[k].id == k && k < bound && IsStage(initiatives[k].stage)
  }

  predicate ScopesValid(scopes: map<Id, ScopeOfWork>, initiatives: map<Id, Initiative>, bound: nat) {
    forall k :: k in scopes ==> k in initiatives && scopes[k].initiativeId == k && scopes[k].id < bound
  }

  predicate ItemsValid(items: seq<ChecklistItem>, bound: nat) {
    forall it <- items :: it.id < bound && (it.completed <==> it.completedAt.Some?)
  }

  predicate ApprovalsValid(approvals: seq<StageApproval>, bound: nat) {
    forall a <- approvals :: a.id < bound && ApprovalIsSigned(a)
  }

  predicate HistoryValid(history: seq<HistoryEntry>, bound: nat) {
    forall e <- history :: e.id < bound
  }

  /** No two items share an id: `id` is the table's primary key. */
  predicate ItemIdsUnique(items: seq<ChecklistItem>) {
    forall i, j :: 0 <= i < j < |items| ==> items[i].id != items[j].id
  }

  /** No two approvals share an id. */
  predicate ApprovalIdsUnique(approvals: seq<StageApproval>) {
    forall i, j :: 0 <= i < j < |approvals| ==> approvals[i].id != approvals[j].id
  }

  /** With unique ids the lookup finds the one row that has the id. */
  lemma {:induction false} ItemIndexOfUnique(items: seq<ChecklistItem>, i: nat)
    requires ItemIdsUnique(items) && i < |items|
    ensures ItemIndex(items, items[i].id) == Some(i)
  {
    if i > 0 {
      assert items[1..][i - 1] == items[i];
      ItemIndexOfUnique(items[1..], i - 1);
    }
  }

  lemma {:induction false} ApprovalIndexOfUnique(approvals: seq<StageApproval>, i: nat)
    requires ApprovalIdsUnique(approvals) && i < |approvals|
    ensures ApprovalIndex(approvals, approvals[i].id) == Some(i)
  {
    if i > 0 {
      assert approvals[1..][i - 1] == approvals[i];
      ApprovalIndexOfUnique(approvals[1..], i - 1);
    }
  }

  class InitiativeStore {
    var initiatives: map<Id, Initiative>
    var checklistItems: seq<ChecklistItem>
    var approvals: seq<StageApproval>
    var history: seq<HistoryEntry>
    /** Keyed by the initiative, as `initiativeId` is unique on the table. */
    var scopes: map<Id, ScopeOfWork>
    var risks: map<Id, Risk>
    var accessRequests: map<Id, AccessProvision>
    /** The next id to hand out; every row's id is below it. */
    var nextId: nat

    /** The store's invariant: keys are ids, ids are below the counter,
        initiatives sit at known stages, each scope belongs to an initiative,
        a completed item has a completion time and only completed ones do,
        and a signed approval names its approver. */
    predicate Valid()
      reads this
    {
      && InitiativesValid(initiatives, nextId)
      && ScopesValid(scopes, initiatives, nextId)
      && ItemsValid(checklistItems, nextId)
      && ApprovalsValid(approvals, nextId)
      && HistoryValid(history, nextId)
      && ItemIdsUnique(checklistItems) && ApprovalIdsUnique(approvals)
      && (forall k :: k in risks ==> risks[k].id == k)
      && (forall k :: k in accessRequests ==> accessRequests[k].id == k)
    }

    constructor()
      ensures Valid()
      ensures initiatives == map[] && scopes == map[] && risks == map[] && accessRequests == map[]
      ensures checklistItems == [] && approvals == [] && history == [] && nextId == 0
    {
      initiatives := map[];
      checklistItems := [];
      approvals := [];
      history := [];
      scopes := map[];
      risks := map[];
      accessRequests := map[];
      nextId := 0;
    }

    /** `POST /`: the initiative at INGESTION, its six exit-gate items, the
        creation history entry, a draft scope and twelve unsigned approvals.
        Ids are handed out in that order from the counter. */
    method Create(req: CreateRequest, now: Instant) returns (id: Id)
      requires Valid()
      modifies this
      ensures Valid()
      ensures id == old(nextId) && id !in old(initiatives) && id !in old(scopes)
      ensures initiatives == old(initiatives)[id := NewInitiative(id, req)]
      ensures checklistItems == old(checklistItems) + InitialChecklist(id, id + 1)
      ensures history == old(history) + [CreationEntry(id + 7, id, now)]
      ensures scopes == old(scopes)[id := InitialScope(id + 8, id, req)]
      ensures approvals == old(approvals) + InitialApprovals(id, id + 9)
      ensures risks == old(risks) && accessRequests == old(accessRequests)
      ensures nextId == old(nextId) + 21
    {
      id := nextId;
      assert id !in initiatives && id !in scopes;
      CreateInitiativeRows(req, now);
      assert nextId == id + 8;
      ghost var afterRows := (initiatives, checklistItems, history);
      CreateScope(id, req);
      assert nextId == id + 9;
      ghost var afterScope := scopes;
      CreateApprovals(id);
      assert (initiatives, checklistItems, history) == afterRows && scopes == afterScope;
    }

    /** `tx.initiative.create` with its nested checklist items and history
        entry: the initiative row, then its six items, then the entry. */
    method CreateInitiativeRows(req: CreateRequest, now: Instant)
      requires Valid()
      modifies this
      ensures Valid()
      ensures var id := old(nextId);
        && initiatives == old(initiatives)[id := NewInitiative(id, req)]
        && checklistItems == old(checklistItems) + InitialChecklist(id, id + 1)
        && history == old(history) + [CreationEntry(id + 7, id, now)]
      ensures scopes == old(scopes) && approvals == old(approvals)
      ensures risks == old(risks) && accessRequests == old(accessRequests)
      ensures nextId == old(nextId) + 8
    {
      var id := nextId;
      CreateInitiativeRow(req);
      CreateChecklist(id);
      CreateHistoryEntry(id, now);
    }

    /** The initiative row itself, at INGESTION. */
    method CreateInitiativeRow(req: CreateRequest)
      requires Valid()
      modifies this
      ensures Valid()
      ensures initiatives == old(initiatives)[old(nextId) := NewInitiative(old(nextId), req)]
      ensures checklistItems == old(checklistItems) && history == old(history)
      ensures scopes == old(scopes) && approvals == old(approvals)
      ensures risks == old(risks) && accessRequests == old(accessRequests)
      ensures nextId == old(nextId) + 1
    {
      var id := nextId;
      NewRowKeepsTablesValid(initiatives, scopes, checklistItems, approvals, history, id, req);
      initiatives, nextId := initiatives[id := NewInitiative(id, req)], id + 1;
    }

    /** The six exit-gate items of a new initiative. */
    method CreateChecklist(initiativeId: Id)
      requires Valid()
      modifies this
      ensures Valid()
      ensures checklistItems == old(checklistItems) + InitialChecklist(initiativeId, old(nextId))
      ensures initiatives == old(initiatives) && history == old(history)
      ensures scopes == old(scopes) && approvals == old(approvals)
      ensures risks == old(risks) && accessRequests == old(accessRequests)
      ensures nextId == old(nextId) + 6
    {
      NewItemsKeepTablesValid(initiatives, scopes, checklistItems, approvals, history, initiativeId, nextId);
      FreshItemsKeepIdsUnique(checklistItems, initiativeId, nextId);
      checklistItems, nextId := checklistItems + InitialChecklist(initiativeId, nextId), nextId + 6;
    }

    /** The creation history entry of a new initiative. */
    method CreateHistoryEntry(initiativeId: Id, now: Instant)
      requires Valid()
      modifies this
      ensures Valid()
      ensures history == old(history) + [CreationEntry(old(nextId), initiativeId, now)]
      ensures initiatives == old(initiatives) && checklistItems == old(checklistItems)
      ensures scopes == old(scopes) && approvals == old(approvals)
      ensures risks == old(risks) && accessRequests == old(accessRequests)
      ensures nextId == old(nextId) + 1
    {
      NewEntryKeepsTablesValid(initiatives, scopes, checklistItems, approvals, history, initiativeId, nextId, now);
      history, nextId := history + [CreationEntry(nextId, initiativeId, now)], nextId + 1;
    }

    /** `tx.scopeOfWork.create` for a new initiative. */
    method CreateScope(initiativeId: Id, req: CreateRequest)
      requires Valid() && initiativeId in initiatives && initiativeId !in scopes
      modifies this
      ensures Valid()
      ensures scopes == old(scopes)[initiativeId := InitialScope(old(nextId), initiativeId, req)]
      ensures initiatives == old(initiatives) && checklistItems == old(checklistItems)
      ensures history == old(history) && approvals == old(approvals)
      ensures risks == old(risks) && accessRequests == old(accessRequests)
      ensures nextId == old(nextId) + 1
    {
      scopes := scopes[initiativeId := InitialScope(nextId, initiativeId, req)];
      nextId := nextId + 1;
    }

    /** `tx.stageApproval.createMany` for a new initiative. */
    method CreateApprovals(initiativeId: Id)
      requires Valid()
      modifies this
      ensures Valid()
      ensures approvals == old(approvals) + InitialApprovals(initiativeId, old(nextId))
      ensures initiatives == old(initiatives) && checklistItems == old(checklistItems)
      ensures history == old(history) && scopes == old(scopes)
      ensures risks == old(risks) && accessRequests == old(accessRequests)
      ensures nextId == old(nextId) + 12
    {
      CreatedRowsValid(initiativeId, nextId);
      FreshApprovalsKeepIdsUnique(approvals, initiativeId, nextId);
      approvals := approvals + InitialApprovals(initiativeId, nextId);
      nextId := nextId + 12;
    }

    /** `POST /:id/transition`. The checks run in the handler's order and
        the first failure is returned with nothing written; on success one
        history entry is appended, the approvals of the entered stage are
        reset and the initiative takes the new stage and status. Checklist
        items, scopes and every other approval are untouched. */
    method Transition(id: Id, req: TransitionRequest, now: Instant) returns (r: Outcome<Failure>)
      requires Valid() && ValidTransitionRequest(req)
      modifies this
      ensures Valid()
      ensures id !in old(initiatives) ==>
        r == Fail(Http(NotFound(MSG_INITIATIVE_NOT_FOUND))) && unchanged(this)
      ensures id in old(initiatives) ==>
        var current := old(initiatives)[id];
        var check := CheckTransition(current.stage, ScopeOf(old(scopes), id), ApprovalsOf(old(approvals), id),
                                     ItemsOf(old(checklistItems), id), req.targetStage,
                                     req.allowRegression.GetOr(false));
        && (check.Fail? ==> r == Fail(Http(check.error)) && unchanged(this))
        && (check.Pass? ==>
              && r == Pass
              && history == old(history) + [HistoryEntry(old(nextId), id, Some(current.stage), req.targetStage,
                                                         req.actor.GetOr(SYSTEM_ACTOR), req.reason, now)]
              && approvals == ResetApprovals(old(approvals), id, req.targetStage)
              && initiatives == old(initiatives)[id := current.(stage := req.targetStage,
                                                                status := NextStatus(req.targetStage, current.status))]
              && checklistItems == old(checklistItems) && scopes == old(scopes)
              && risks == old(risks) && accessRequests == old(accessRequests)
              && nextId == old(nextId) + 1)
    {
      if id !in initiatives {
        return Fail(Http(NotFound(MSG_INITIATIVE_NOT_FOUND)));
      }
      var initiative := initiatives[id];
      // the guards of the handler, in their order; the first failure is thrown
      var check := CheckTransition(initiative.stage, ScopeOf(scopes, id), ApprovalsOf(approvals, id),
                                   ItemsOf(checklistItems, id), req.targetStage,
                                   req.allowRegression.GetOr(false));
      if check.Fail? {
        return Fail(Http(check.error));
      }

      CommitTransition(id, req.targetStage, req.actor.GetOr(SYSTEM_ACTOR), req.reason, now);
      r := Pass;
    }

    /** The write transaction of a move that passed every check: the
        history entry, the reset of the entered stage's approvals, then the
        initiative's new stage and status. */
    method CommitTransition(id: Id, target: Stage, actor: string, reason: Option<string>, now: Instant)
      requires Valid() && id in initiatives && IsStage(target)
      modifies this
      ensures Valid()
      ensures history == old(history) + [HistoryEntry(old(nextId), id, Some(old(initiatives)[id].stage), target,
                                                      actor, reason, now)]
      ensures approvals == ResetApprovals(old(approvals), id, target)
      ensures initiatives == old(initiatives)[id := old(initiatives)[id].(stage := target,
                                                 status := NextStatus(target, old(initiatives)[id].status))]
      ensures checklistItems == old(checklistItems) && scopes == old(scopes)
      ensures risks == old(risks) && accessRequests == old(accessRequests)
      ensures nextId == old(nextId) + 1
    {
      var initiative := initiatives[id];
      var nextStatus := NextStatus(target, initiative.status);
      history := history + [HistoryEntry(nextId, id, Some(initiative.stage), target, actor, reason, now)];
      nextId := nextId + 1;
      ResetKeepsSigned(approvals, id, target);
      approvals := ResetApprovals(approvals, id, target);
      initiatives := initiatives[id := initiative.(stage := target, status := nextStatus)];
    }

    /** `PATCH /:id/checklists/:checklistId`: an item that does not exist or
        belongs to another initiative is not found; otherwise only that item
        changes. */
    method ToggleChecklist(id: Id, checklistId: Id, completed: bool, now: Instant)
      returns (r: Result<ChecklistItem, Failure>)
      requires Valid()
      modifies this
      ensures Valid()
      ensures var k := ItemIndex(old(checklistItems), checklistId);
        && (k.None? || old(checklistItems)[k.value].initiativeId != id ==>
              r == Err(Http(NotFound(MSG_CHECKLIST_NOT_FOUND))) && unchanged(this))
        && (k.Some? && old(checklistItems)[k.value].initiativeId == id ==>
              && r == Ok(ToggledItem(old(checklistItems)[k.value], completed, now))
              && checklistItems == old(checklistItems)[k.value := r.value]
              && initiatives == old(initiatives) && approvals == old(approvals) && history == old(history)
              && scopes == old(scopes) && risks == old(risks) && accessRequests == old(accessRequests)
              && nextId == old(nextId))
    {
      var k := ItemIndex(checklistItems, checklistId);
      if k.None? || checklistItems[k.value].initiativeId != id {
        return Err(Http(NotFound(MSG_CHECKLIST_NOT_FOUND)));
      }
      var item := checklistItems[k.value];
      item := item.(completed := completed);
      item := item.(completedAt := if completed then Some(now) else None);
      checklistItems := checklistItems[k.value := item];
      r := Ok(item);
    }

    /** `PATCH /:id/sow`: the refinement is checked first, then the scope is
        looked up, then the update is assembled field by field. */
    method PatchScope(id: Id, p: ScopePatch, now: Instant) returns (r: Result<ScopeOfWork, Failure>)
      requires Valid()
      modifies this
      ensures Valid()
      ensures SignsOffWithoutApprovals(p) ==>
        r == Err(Invalid(MSG_SIGN_OFF_NEEDS_APPROVALS)) && unchanged(this)
      ensures !SignsOffWithoutApprovals(p) && id !in old(scopes) ==>
        r == Err(Http(NotFound(MSG_SCOPE_NOT_FOUND))) && unchanged(this)
      ensures !SignsOffWithoutApprovals(p) && id in old(scopes) ==>
        && r == Ok(ScopeAfterPatch(old(scopes)[id], p, now))
        && scopes == old(scopes)[id := r.value]
        && initiatives == old(initiatives) && checklistItems == old(checklistItems)
        && approvals == old(approvals) && history == old(history)
        && risks == old(risks) && accessRequests == old(accessRequests) && nextId == old(nextId)
    {
      if SignsOffWithoutApprovals(p) {
        return Err(Invalid(MSG_SIGN_OFF_NEEDS_APPROVALS));
      }
      if id !in scopes {
        return Err(Http(NotFound(MSG_SCOPE_NOT_FOUND)));
      }
      var updated := AssembleScopeUpdate(scopes[id], p, now);
      assert ScopesValid(scopes[id := updated], initiatives, nextId);
      scopes := scopes[id := updated];
      r := Ok(updated);
    }

    /** `PATCH /:id/approvals/:approvalId`: not found, then the approver
        check, then the update. */
    method PatchApproval(id: Id, approvalId: Id, p: ApprovalPatch, now: Instant)
      returns (r: Result<StageApproval, Failure>)
      requires Valid() && ValidApprovalPatch(p)
      modifies this
      ensures Valid()
      ensures var k := ApprovalIndex(old(approvals), approvalId);
        && (k.None? || old(approvals)[k.value].initiativeId != id ==>
              r == Err(Http(NotFound(MSG_APPROVAL_NOT_FOUND))) && unchanged(this))
        && (k.Some? && old(approvals)[k.value].initiativeId == id && ApprovalNameMissing(p) ==>
              r == Err(Http(BadRequest(MSG_APPROVER_REQUIRED, None))) && unchanged(this))
        && (k.Some? && old(approvals)[k.value].initiativeId == id && !ApprovalNameMissing(p) ==>
              && r == Ok(ApprovalAfterPatch(old(approvals)[k.value], p, now))
              && approvals == old(approvals)[k.value := r.value]
              && initiatives == old(initiatives) && checklistItems == old(checklistItems)
              && history == old(history) && scopes == old(scopes)
              && risks == old(risks) && accessRequests == old(accessRequests) && nextId == old(nextId))
    {
      var k := ApprovalIndex(approvals, approvalId);
      if k.None? || approvals[k.value].initiativeId != id {
        return Err(Http(NotFound(MSG_APPROVAL_NOT_FOUND)));
      }
      if p.approved && p.approvedBy.None? {
        return Err(Http(BadRequest(MSG_APPROVER_REQUIRED, None)));
      }
      var updated := AssembleApprovalUpdate(approvals[k.value], p, now);
      ApprovalPatchKeepsSigned(approvals[k.value], p, now);
      approvals := approvals[k.value := updated];
      r := Ok(updated);
    }

    /** `PATCH /:id/access/:accessId`. */
    method PatchAccess(id: Id, accessId: Id, p: AccessPatch, now: Instant)
      returns (r: Result<AccessProvision, Failure>)
      requires Valid()
      modifies this
      ensures Valid()
      ensures accessId !in old(accessRequests) || old(accessRequests)[accessId].initiativeId != id ==>
        r == Err(Http(NotFound(MSG_ACCESS_NOT_FOUND))) && unchanged(this)
      ensures accessId in old(accessRequests) && old(accessRequests)[accessId].initiativeId == id ==>
        && r == Ok(AccessAfterPatch(old(accessRequests)[accessId], p, now))
        && accessRequests == old(accessRequests)[accessId := r.value]
        && initiatives == old(initiatives) && checklistItems == old(checklistItems)
        && approvals == old(approvals) && history == old(history) && scopes == old(scopes)
        && risks == old(risks) && nextId == old(nextId)
    {
      if accessId !in accessRequests || accessRequests[accessId].initiativeId != id {
        return Err(Http(NotFound(MSG_ACCESS_NOT_FOUND)));
      }
      var updated := AssembleAccessUpdate(accessRequests[accessId], p, now);
      accessRequests := accessRequests[accessId := updated];
      r := Ok(updated);
    }

    /** `PATCH /:id/risks/:riskId`. */
    method PatchRisk(id: Id, riskId: Id, p: RiskPatch, now: Instant) returns (r: Result<Risk, Failure>)
      requires Valid()
      modifies this
      ensures Valid()
      ensures riskId !in old(risks) || old(risks)[riskId].initiativeId != id ==>
        r == Err(Http(NotFound(MSG_RISK_NOT_FOUND))) && unchanged(this)
      ensures riskId in old(risks) && old(risks)[riskId].initiativeId == id ==>
        && r == Ok(RiskAfterPatch(old(risks)[riskId], p, now))
        && risks == old(risks)[riskId := r.value]
        && initiatives == old(initiatives) && checklistItems == old(checklistItems)
        && approvals == old(approvals) && history == old(history) && scopes == old(scopes)
        && accessRequests == old(accessRequests) && nextId == old(nextId)
    {
      if riskId !in risks || risks[riskId].initiativeId != id {
        return Err(Http(NotFound(MSG_RISK_NOT_FOUND)));
      }
      var updated := AssembleRiskUpdate(risks[riskId], p, now);
      risks := risks[riskId := updated];
      r := Ok(updated);
    }
  }

  /** The `updates` record of `PATCH /:id/sow`, assigned field by field
      over the stored scope. */
  method AssembleScopeUpdate(scope: ScopeOfWork, p: ScopePatch, now: Instant) returns (updated: ScopeOfWork)
    ensures updated == ScopeAfterPatch(scope, p, now)
  {
    var summary, deliverables, status := scope.summary, scope.deliverables, scope.status;
    var signedOffAt := scope.signedOffAt;
    var pmApproved, pmApprovedAt := scope.pmApproved, scope.pmApprovedAt;
    var architectApproved, architectApprovedAt := scope.architectApproved, scope.architectApprovedAt;
    if p.summary.Some? {
      summary := p.summary.value;
    }
    if p.deliverables.Some? {
      deliverables := p.deliverables.value;
    }
    if p.status.Some? {
      status := p.status.value;
      signedOffAt := if p.status.value == SignedOff then Some(now) else None;
    }
    if p.pmApproved.Some? {
      pmApproved := p.pmApproved.value;
      pmApprovedAt := if p.pmApproved.value then Some(now) else None;
    }
    if p.architectApproved.Some? {
      architectApproved := p.architectApproved.value;
      architectApprovedAt := if p.architectApproved.value then Some(now) else None;
    }
    if && (p.pmApproved == Some(true) || p.architectApproved == Some(true))
       && scope.status == Draft
       && (p.pmApproved == Some(true) || scope.pmApproved)
       && (p.architectApproved == Some(true) || scope.architectApproved)
       && p.status.None?
    {
      status := Approved;
    }
    updated := ScopeOfWork(scope.id, scope.initiativeId, summary, deliverables, status,
                           scope.pmOwner, scope.architectOwner, pmApproved, pmApprovedAt,
                           architectApproved, architectApprovedAt, signedOffAt, Some(now));
  }

  /** The `data` record of `PATCH /:id/approvals/:approvalId`. */
  method AssembleApprovalUpdate(approval: StageApproval, p: ApprovalPatch, now: Instant)
    returns (updated: StageApproval)
    ensures updated == ApprovalAfterPatch(approval, p, now)
  {
    updated := approval.(approved := p.approved, notes := p.notes);
    if p.approved {
      updated := updated.(approvedBy := p.approvedBy, approvedAt := Some(now));
    } else {
      updated := updated.(approvedBy := None, approvedAt := None);
    }
  }

  /** The `updates` record of `PATCH /:id/access/:accessId`, assigned in the
      handler's order: notes, then status, then `fulfilled`, which has the
      last word on the fulfilment time. */
  method AssembleAccessUpdate(access: AccessProvision, p: AccessPatch, now: Instant)
    returns (updated: AccessProvision)
    ensures updated == AccessAfterPatch(access, p, now)
  {
    updated := access.(notes := if p.notes.Some? then p.notes else access.notes);
    if p.status.Some? {
      updated := updated.(status := p.status.value);
      if p.status.value == Granted && access.fulfilledAt.None? {
        updated := updated.(fulfilledAt := Some(now));
      }
      if p.status.value != Granted {
        updated := updated.(fulfilledAt := None);
      }
    }
    if p.fulfilled.Some? {
      updated := updated.(fulfilledAt := if p.fulfilled.value then Some(now) else None);
      if p.fulfilled.value && p.status.None? {
        updated := updated.(status := Granted);
      }
    }
  }

  /** The `updates` record of `PATCH /:id/risks/:riskId`. */
  method AssembleRiskUpdate(risk: Risk, p: RiskPatch, now: Instant) returns (updated: Risk)
    ensures updated == RiskAfterPatch(risk, p, now)
  {
    // `{ ...payload }`: every given field replaces the stored one
    updated := risk.(status := p.status.GetOr(risk.status));
    if p.mitigationPlan.Some? {
      updated := updated.(mitigationPlan := p.mitigationPlan);
    }
    if p.owner.Some? {
      updated := updated.(owner := p.owner);
    }
    if p.resolvedAt.Some? {
      updated := updated.(resolvedAt := p.resolvedAt);
    }
    if p.status == Some(Closed) && p.resolvedAt.None? {
      updated := updated.(resolvedAt := Some(now));
    } else if p.resolvedAt.Some? {
      updated := updated.(resolvedAt := p.resolvedAt);
    }
  }

  /** Rows created under the counter do not reuse an id. */
  lemma FreshItemsKeepIdsUnique(items: seq<ChecklistItem>, initiativeId: Id, firstId: Id)
    requires ItemsValid(items, firstId) && ItemIdsUnique(items)
    ensures ItemIdsUnique(items + InitialChecklist(initiativeId, firstId))
  {
    var all := items + InitialChecklist(initiativeId, firstId);
    forall i, j | 0 <= i < j < |all| ensures all[i].id != all[j].id {
      if i < |items| {
        assert items[i] in items;
      }
    }
  }

  lemma FreshApprovalsKeepIdsUnique(approvals: seq<StageApproval>, initiativeId: Id, firstId: Id)
    requires ApprovalsValid(approvals, firstId) && ApprovalIdsUnique(approvals)
    ensures ApprovalIdsUnique(approvals + InitialApprovals(initiativeId, firstId))
  {
    var all := approvals + InitialApprovals(initiativeId, firstId);
    forall i, j | 0 <= i < j < |all| ensures all[i].id != all[j].id {
      if i < |approvals| {
        assert approvals[i] in approvals;
      }
    }
  }

  /** The rows creation writes have ids below the counter that follows
      them, and none is completed or signed. */
  lemma CreatedRowsValid(initiativeId: Id, firstId: Id)
    ensures forall it <- InitialChecklist(initiativeId, firstId) ::
      it.id < firstId + 6 && !it.completed && it.completedAt.None?
    ensures forall a <- InitialApprovals(initiativeId, firstId) :: a.id < firstId + 12 && ApprovalIsSigned(a)
  {
    var items := InitialChecklist(initiativeId, firstId);
    forall it <- items ensures it.id < firstId + 6 && !it.completed && it.completedAt.None? {
      var i :| 0 <= i < |items| && items[i] == it;
    }
    var approvals := InitialApprovals(initiativeId, firstId);
    forall a <- approvals ensures a.id < firstId + 12 && ApprovalIsSigned(a) {
      var k :| 0 <= k < |approvals| && approvals[k] == a;
    }
  }

  /** Adding an initiative row under the counter, and moving the counter
      past it, keeps every table valid. */
  lemma NewRowKeepsTablesValid(
    initiatives: map<Id, Initiative>, scopes: map<Id, ScopeOfWork>, items: seq<ChecklistItem>,
    approvals: seq<StageApproval>, history: seq<HistoryEntry>, id: Id, req: CreateRequest)
    requires InitiativesValid(initiatives, id) && ScopesValid(scopes, initiatives, id)
    requires ItemsValid(items, id) && ApprovalsValid(approvals, id) && HistoryValid(history, id)
    ensures InitiativesValid(initiatives[id := NewInitiative(id, req)], id + 1)
    ensures ScopesValid(scopes, initiatives[id := NewInitiative(id, req)], id + 1)
    ensures ItemsValid(items, id + 1) && ApprovalsValid(approvals, id + 1) && HistoryValid(history, id + 1)
  {
    StageIndexOfPosition(0);
  }

  /** Adding the exit-gate items with ids from the counter, and moving the
      counter past them, keeps every table valid. */
  lemma NewItemsKeepTablesValid(
    initiatives: map<Id, Initiative>, scopes: map<Id, ScopeOfWork>, items: seq<ChecklistItem>,
    approvals: seq<StageApproval>, history: seq<HistoryEntry>, initiativeId: Id, firstId: Id)
    requires InitiativesValid(initiatives, firstId) && ScopesValid(scopes, initiatives, firstId)
    requires ItemsValid(items, firstId) && ApprovalsValid(approvals, firstId) && HistoryValid(history, firstId)
    ensures InitiativesValid(initiatives, firstId + 6) && ScopesValid(scopes, initiatives, firstId + 6)
    ensures ItemsValid(items + InitialChecklist(initiativeId, firstId), firstId + 6)
    ensures ApprovalsValid(approvals, firstId + 6) && HistoryValid(history, firstId + 6)
  {
    CreatedRowsValid(initiativeId, firstId);
  }

  /** Adding a history entry with the counter as its id, and moving the
      counter past it, keeps every table valid. */
  lemma NewEntryKeepsTablesValid(
    initiatives: map<Id, Initiative>, scopes: map<Id, ScopeOfWork>, items: seq<ChecklistItem>,
    approvals: seq<StageApproval>, history: seq<HistoryEntry>, initiativeId: Id, id: Id, now: Instant)
    requires InitiativesValid(initiatives, id) && ScopesValid(scopes, initiatives, id)
    requires ItemsValid(items, id) && ApprovalsValid(approvals, id) && HistoryValid(history, id)
    ensures InitiativesValid(initiatives, id + 1) && ScopesValid(scopes, initiatives, id + 1)
    ensures ItemsValid(items, id + 1) && ApprovalsValid(approvals, id + 1)
    ensures HistoryValid(history + [CreationEntry(id, initiativeId, now)], id + 1)
  {
  }

  /** The reset a move applies keeps every approval signed. */
  lemma ResetKeepsSigned(approvals: seq<StageApproval>, initiativeId: Id, stage: Stage)
    requires forall a <- approvals :: ApprovalIsSigned(a)
    ensures forall a <- ResetApprovals(approvals, initiativeId, stage) :: ApprovalIsSigned(a)
    ensures forall a <- ResetApprovals(approvals, initiativeId, stage) :: a.id in set b <- approvals :: b.id
  {
    var r := ResetApprovals(approvals, initiativeId, stage);
    forall a <- r ensures ApprovalIsSigned(a) && a.id in set b <- approvals :: b.id {
      var i :| 0 <= i < |r| && r[i] == a;
      assert approvals[i] in approvals;
    }
  }
}
