/** The rows that the creation and patch handlers of
    apps/api/src/routes/initiatives.ts write, as functions of the stored row,
    the payload and the time of the request. The store's methods build
    these rows step by step and are proved equal to them. */
module Updates {
  import opened Wrappers
  import opened Text
  import opened Stages
  import opened Records
  import opened Gate

  const CREATED_ACTOR := "system"
  const CREATED_REASON := "Initiative created"
  const DEFAULT_SUMMARY :=
    "Define project scope, deliverables, and guardrails aligned to the customer engagement."
  const DEFAULT_DELIVERABLES :=
    "Populate during project onboarding. Include lifecycle stages, success metrics, and acceptance criteria."
  const TBD_PM := "TBD Project Manager"
  const TBD_ARCHITECT := "TBD Data Architect"

  // ---------------------------------------------------------------- creation

  /** The initiative row `POST /` creates. The schema's column default for
      `status` is taken to be ON_TRACK. */
  function NewInitiative(id: Id, req: CreateRequest): (i: Initiative)
    ensures i.id == id && i.stage == INGESTION && i.status == OnTrack
  {
    Initiative(id, req.name, req.description, INGESTION, OnTrack, req.healthStatus, req.riskLevel,
               req.sowReference, req.engagementLead, req.projectManager, req.dataArchitect,
               req.startDate, req.targetDate)
  }

  /** The exit-gate item created for one stage. */
  function ExitGateItem(id: Id, initiativeId: Id, stage: Stage): (item: ChecklistItem)
    ensures item.id == id && item.initiativeId == initiativeId && item.stage == stage
    ensures !item.completed && item.completedAt.None?
  {
    ChecklistItem(id, initiativeId, stage, stage + " exit gate",
                  Some("Confirm " + ToLower(stage) + " stage exit criteria."), false, None)
  }

  /** `STAGE_SEQUENCE.map(...)`: one exit-gate item per stage, in stage order,
      with ids `firstId`, `firstId + 1`, ... */
  function InitialChecklist(initiativeId: Id, firstId: Id): (items: seq<ChecklistItem>)
    ensures |items| == |STAGE_SEQUENCE|
    ensures forall i :: 0 <= i < |items| ==> items[i] == ExitGateItem(firstId + i, initiativeId, STAGE_SEQUENCE[i])
  {
    seq(|STAGE_SEQUENCE|, i requires 0 <= i < |STAGE_SEQUENCE| =>
      ExitGateItem(firstId + i, initiativeId, STAGE_SEQUENCE[i]))
  }

  /** Six items, one for each stage and no stage twice, none completed. */
  lemma InitialChecklistOnePerStage(initiativeId: Id, firstId: Id)
    ensures var items := InitialChecklist(initiativeId, firstId);
      && |items| == 6
      && (forall it <- items :: it.initiativeId == initiativeId && !it.completed && it.completedAt.None?)
      && (forall s <- STAGE_SEQUENCE :: exists it <- items :: it.stage == s)
      && (forall i, j :: 0 <= i < j < |items| ==> items[i].stage != items[j].stage)
  {
    SequenceIsSixDistinctStages();
    var items := InitialChecklist(initiativeId, firstId);
    forall s <- STAGE_SEQUENCE ensures exists it <- items :: it.stage == s {
      var i :| 0 <= i < 6 && STAGE_SEQUENCE[i] == s;
      assert items[i].stage == s;
      assert items[i] in items;
    }
    forall i, j | 0 <= i < j < |items| ensures items[i].stage != items[j].stage {
      assert items[i].stage == STAGE_SEQUENCE[i] && items[j].stage == STAGE_SEQUENCE[j];
    }
  }

  /** `STAGE_SEQUENCE.flatMap(stage => REQUIRED_APPROVAL_ROLES.map(role => ...))`:
      for each stage in order, one unsigned approval per required role. */
  function InitialApprovals(initiativeId: Id, firstId: Id): (approvals: seq<StageApproval>)
    ensures |approvals| == 12
    ensures forall k :: 0 <= k < 12 ==> approvals[k].id == firstId + k
    ensures forall k :: 0 <= k < 12 ==>
      approvals[k].stage == STAGE_SEQUENCE[k / 2] && approvals[k].role == REQUIRED_APPROVAL_ROLES[k % 2]
  {
    seq(12, k requires 0 <= k < 12 =>
      StageApproval(firstId + k, initiativeId, STAGE_SEQUENCE[k / 2], REQUIRED_APPROVAL_ROLES[k % 2],
                    false, None, None, None))
  }

  /** Twelve approvals, exactly one for every (stage, role) pair, none signed. */
  lemma InitialApprovalsOnePerPair(initiativeId: Id, firstId: Id, s: Stage, role: ApprovalRole)
    requires IsStage(s)
    ensures var approvals := InitialApprovals(initiativeId, firstId);
      && (forall a <- approvals :: a.initiativeId == initiativeId && !a.approved && a.approvedBy.None?)
      && (exists a <- approvals :: a.stage == s && a.role == role)
      && (forall i, j :: 0 <= i < j < 12 ==>
            approvals[i].stage != approvals[j].stage || approvals[i].role != approvals[j].role)
  {
    SequenceIsSixDistinctStages();
    var approvals := InitialApprovals(initiativeId, firstId);
    var i := StageIndex(s);
    var k := 2 * i + (if role == ProjectManager then 0 else 1);
    assert approvals[k].stage == s && approvals[k].role == role;
    assert approvals[k] in approvals;
    forall i, j | 0 <= i < j < 12
      ensures approvals[i].stage != approvals[j].stage || approvals[i].role != approvals[j].role
    {
      if i / 2 == j / 2 { assert i % 2 != j % 2; }
    }
  }

  /** The history entry `POST /` writes: the synthetic move null -> INGESTION. */
  function CreationEntry(id: Id, initiativeId: Id, now: Instant): (e: HistoryEntry)
    ensures e.fromStage.None? && e.toStage == INGESTION && e.actor == CREATED_ACTOR
  {
    HistoryEntry(id, initiativeId, None, INGESTION, CREATED_ACTOR, Some(CREATED_REASON), now)
  }

  /** The draft scope of work `POST /` writes; owners default to the TBD names
      when the request names none. The approval flags are taken to default
      to false. */
  function InitialScope(id: Id, initiativeId: Id, req: CreateRequest): (s: ScopeOfWork)
    ensures s.status == Draft && !s.pmApproved && !s.architectApproved
    ensures s.pmOwner == req.projectManager.GetOr(TBD_PM)
    ensures s.architectOwner == req.dataArchitect.GetOr(TBD_ARCHITECT)
  {
    ScopeOfWork(id, initiativeId, DEFAULT_SUMMARY, DEFAULT_DELIVERABLES, Draft,
                req.projectManager.GetOr(TBD_PM), req.dataArchitect.GetOr(TBD_ARCHITECT),
                false, None, false, None, None, None)
  }

  /** A newly created initiative cannot move at all: its scope is a draft
      and nothing is approved. */
  lemma NewInitiativeCannotMove(
    id: Id, firstId: Id, scopeId: Id, req: CreateRequest, target: Stage, allowRegression: bool)
    ensures CheckTransition(INGESTION, Some(InitialScope(scopeId, id, req)),
                            InitialApprovals(id, firstId), InitialChecklist(id, firstId),
                            target, allowRegression).Fail?
  {
    StageIndexOfPosition(0);
  }

  // ---------------------------------------------------------- checklist patch

  /** The item after `PATCH /:id/checklists/:checklistId`. */
  function ToggledItem(item: ChecklistItem, completed: bool, now: Instant): (r: ChecklistItem)
    ensures r.completed == completed
    ensures r.completedAt.Some? <==> completed
    ensures r.(completed := item.completed, completedAt := item.completedAt) == item
  {
    item.(completed := completed, completedAt := if completed then Some(now) else None)
  }

  // ---------------------------------------------------------------- SOW patch

  /** The refinement of `updateSowSchema`: a payload that signs off while
      explicitly withdrawing either approval is rejected. Only the payload's
      own flags are looked at. */
  function SignsOffWithoutApprovals(p: ScopePatch): (r: bool)
    ensures r ==> p.status == Some(SignedOff)
    ensures r ==> !(p.pmApproved.GetOr(true) && p.architectApproved.GetOr(true))
    ensures p.status == Some(SignedOff) && !r ==>
      p.pmApproved != Some(false) && p.architectApproved != Some(false)
    ensures p.pmApproved.None? && p.architectApproved.None? ==> !r
  {
    p.status == Some(SignedOff) && (p.pmApproved == Some(false) || p.architectApproved == Some(false))
  }

  /** The auto-promotion condition of the SOW patch, with JavaScript's `||`
      over `boolean | undefined`: a payload flag counts only when it is
      `true`, and otherwise the stored flag is used. */
  function PromotesDraft(s: ScopeOfWork, p: ScopePatch): (r: bool)
    ensures r ==> s.status == Draft && p.status.None?
    ensures r ==> p.pmApproved == Some(true) || p.architectApproved == Some(true)
    ensures r ==> p.pmApproved.GetOr(s.pmApproved) || p.pmApproved == Some(false)
    ensures !s.pmApproved && p.pmApproved != Some(true) ==> !r
    ensures !s.architectApproved && p.architectApproved != Some(true) ==> !r
    // an explicit `false` does not withdraw a stored approval here
    ensures (s.status == Draft && p.status.None? && s.pmApproved
             && p.pmApproved == Some(false) && p.architectApproved == Some(true)) ==> r
  {
    && (p.pmApproved == Some(true) || p.architectApproved == Some(true))
    && s.status == Draft
    && (p.pmApproved == Some(true) || s.pmApproved)
    && (p.architectApproved == Some(true) || s.architectApproved)
    && p.status.None?
  }

  /** A timestamp that is set when `flag` is true and cleared otherwise. */
  function StampIf(flag: bool, now: Instant): Option<Instant> {
    if flag then Some(now) else None
  }

  /** The scope of work after `PATCH /:id/sow`. */
  function ScopeAfterPatch(s: ScopeOfWork, p: ScopePatch, now: Instant): (r: ScopeOfWork)
    ensures r.id == s.id && r.initiativeId == s.initiativeId
    ensures r.pmOwner == s.pmOwner && r.architectOwner == s.architectOwner
    ensures r.lastReviewedAt == Some(now)
  {
    ScopeOfWork(
      s.id, s.initiativeId,
      p.summary.GetOr(s.summary),
      p.deliverables.GetOr(s.deliverables),
      if PromotesDraft(s, p) then Approved else p.status.GetOr(s.status),
      s.pmOwner, s.architectOwner,
      p.pmApproved.GetOr(s.pmApproved),
      if p.pmApproved.Some? then StampIf(p.pmApproved.value, now) else s.pmApprovedAt,
      p.architectApproved.GetOr(s.architectApproved),
      if p.architectApproved.Some? then StampIf(p.architectApproved.value, now) else s.architectApprovedAt,
      if p.status.Some? then StampIf(p.status.value == SignedOff, now) else s.signedOffAt,
      Some(now))
  }

  /** What the patch promises: a given status is taken as is and stamps
      `signedOffAt` exactly when it is SIGNED_OFF; a given flag is taken as
      is and stamps its time exactly when it is true; absent fields keep
      their stored values. */
  lemma ScopePatchFields(s: ScopeOfWork, p: ScopePatch, now: Instant)
    ensures var r := ScopeAfterPatch(s, p, now);
      && (p.status.Some? ==> r.status == p.status.value && (r.signedOffAt.Some? <==> r.status == SignedOff))
      && (p.status.None? ==> r.signedOffAt == s.signedOffAt)
      && (p.pmApproved.Some? ==> r.pmApproved == p.pmApproved.value && (r.pmApprovedAt.Some? <==> r.pmApproved))
      && (p.pmApproved.None? ==> r.pmApproved == s.pmApproved && r.pmApprovedAt == s.pmApprovedAt)
      && (p.architectApproved.Some? ==>
            r.architectApproved == p.architectApproved.value && (r.architectApprovedAt.Some? <==> r.architectApproved))
      && (p.architectApproved.None? ==>
            r.architectApproved == s.architectApproved && r.architectApprovedAt == s.architectApprovedAt)
      && (p.summary.Some? ==> r.summary == p.summary.value)
      && (p.summary.None? ==> r.summary == s.summary)
      && (p.deliverables.Some? ==> r.deliverables == p.deliverables.value)
      && (p.deliverables.None? ==> r.deliverables == s.deliverables)
  {
  }

  /** A draft becomes APPROVED by a payload without a status exactly when some
      flag in it is true and each role is approved either in the payload or
      in the stored row; a scope that is not a draft keeps its status unless
      the payload gives one. */
  lemma ScopePromotionRule(s: ScopeOfWork, p: ScopePatch, now: Instant)
    requires p.status.None?
    ensures s.status == Draft ==>
      (ScopeAfterPatch(s, p, now).status == Approved <==>
         (p.pmApproved == Some(true) || p.architectApproved == Some(true))
         && (p.pmApproved == Some(true) || s.pmApproved)
         && (p.architectApproved == Some(true) || s.architectApproved))
    ensures s.status != Draft ==> ScopeAfterPatch(s, p, now).status == s.status
  {
  }

  /** As written, an explicit `pmApproved: false` does not stop the
      promotion when the stored flag is true: the scope becomes APPROVED
      while its project-manager approval is withdrawn. */
  lemma PromotionIgnoresExplicitFalse(s: ScopeOfWork, now: Instant)
    requires s.status == Draft && s.pmApproved
    ensures var r := ScopeAfterPatch(s, ScopePatch(None, None, None, Some(false), Some(true)), now);
      r.status == Approved && !r.pmApproved && r.architectApproved
  {
  }

  /** As written, the sign-off refinement looks only at the payload: a scope
      whose stored approvals are both false can be signed off by a payload
      that names no flag. */
  lemma SignOffIgnoresStoredFlags(s: ScopeOfWork, now: Instant)
    requires !s.pmApproved && !s.architectApproved
    ensures var p := ScopePatch(None, None, Some(SignedOff), None, None);
      && !SignsOffWithoutApprovals(p)
      && ScopeAfterPatch(s, p, now).status == SignedOff
      && !ScopeAfterPatch(s, p, now).pmApproved && !ScopeAfterPatch(s, p, now).architectApproved
  {
  }

  /** A payload naming both flags true (or leaving no DRAFT behind) can
      never end in the state the refinement meant to forbid: signed off with
      a flag that the same payload set to false. */
  lemma RefinedPatchNeverSignsOffAgainstItsOwnFlags(s: ScopeOfWork, p: ScopePatch, now: Instant)
    requires !SignsOffWithoutApprovals(p)
    ensures var r := ScopeAfterPatch(s, p, now);
      r.status == SignedOff && p.status.Some? ==> p.pmApproved != Some(false) && p.architectApproved != Some(false)
  {
  }

  // ----------------------------------------------------------- approval patch

  /** The approver check of the approval patch: approving without a name. */
  predicate ApprovalNameMissing(p: ApprovalPatch) {
    p.approved && p.approvedBy.None?
  }

  /** A signed approval names its approver (two characters or more) and the
      time; this holds of every approval row the handlers write. */
  predicate ApprovalIsSigned(a: StageApproval) {
    a.approved ==> a.approvedBy.Some? && |a.approvedBy.value| >= 2 && a.approvedAt.Some?
  }

  /** The approval after `PATCH /:id/approvals/:approvalId`. */
  function ApprovalAfterPatch(a: StageApproval, p: ApprovalPatch, now: Instant): (r: StageApproval)
    ensures r.id == a.id && r.initiativeId == a.initiativeId && r.stage == a.stage && r.role == a.role
    ensures r.approved == p.approved && r.notes == p.notes
    ensures !p.approved ==> r.approvedBy.None? && r.approvedAt.None?
    ensures p.approved ==> r.approvedBy == p.approvedBy && r.approvedAt == Some(now)
  {
    a.(approved := p.approved, notes := p.notes,
       approvedBy := if p.approved then p.approvedBy else None,
       approvedAt := StampIf(p.approved, now))
  }

  /** Every patch the handler lets through leaves a signed approval. */
  lemma ApprovalPatchKeepsSigned(a: StageApproval, p: ApprovalPatch, now: Instant)
    requires ValidApprovalPatch(p) && !ApprovalNameMissing(p)
    ensures ApprovalIsSigned(ApprovalAfterPatch(a, p, now))
  {
  }

  // ------------------------------------------------------------- access patch

  /** The access request after `PATCH /:id/access/:accessId`. */
  function AccessAfterPatch(a: AccessProvision, p: AccessPatch, now: Instant): (r: AccessProvision)
    ensures r.id == a.id && r.initiativeId == a.initiativeId && r.memberId == a.memberId
    ensures r.requestedAt == a.requestedAt
  {
    var notes := if p.notes.Some? then p.notes else a.notes;
    var status :=
      if p.status.Some? then p.status.value
      else if p.fulfilled == Some(true) then Granted
      else a.status;
    var fulfilledAt :=
      if p.fulfilled.Some? then StampIf(p.fulfilled.value, now)
      else if p.status.Some? && p.status.value != Granted then None
      else if p.status == Some(Granted) && a.fulfilledAt.None? then Some(now)
      else a.fulfilledAt;
    a.(notes := notes, status := status, fulfilledAt := fulfilledAt)
  }

  /** Granted exactly when a fulfilment time is recorded. */
  predicate GrantedIffFulfilled(a: AccessProvision) {
    a.status == Granted <==> a.fulfilledAt.Some?
  }

  /** A payload whose two fields disagree with each other or with the stored
      status: a status together with the opposite `fulfilled`, or
      `fulfilled: false` alone on a granted request. */
  predicate AccessPatchDisagrees(a: AccessProvision, p: AccessPatch) {
    || (p.status.Some? && p.fulfilled.Some? && (p.status.value == Granted) != p.fulfilled.value)
    || (p.status.None? && p.fulfilled == Some(false) && a.status == Granted)
  }

  /** The access patch: a given status is taken, and entering GRANTED keeps
      an earlier fulfilment time or stamps one while any other status clears
      it; `fulfilled` always decides the time (now, or none) and grants when
      no status is given; a patch with neither field keeps status and time;
      notes fall back to the stored ones. Unless the payload disagrees with itself, granted and
      fulfilled stay in step. */
  lemma AccessPatchRule(a: AccessProvision, p: AccessPatch, now: Instant)
    ensures var r := AccessAfterPatch(a, p, now);
      && (p.status.Some? ==> r.status == p.status.value)
      && (p.status.None? && p.fulfilled == Some(true) ==> r.status == Granted)
      && (p.status.None? && p.fulfilled != Some(true) ==> r.status == a.status)
      && (p.fulfilled.Some? ==> (r.fulfilledAt.Some? <==> p.fulfilled.value))
      && (p.fulfilled == Some(true) ==> r.fulfilledAt == Some(now))
      && (p.fulfilled.None? && p.status.Some? && p.status.value != Granted ==> r.fulfilledAt.None?)
      && (p.fulfilled.None? && p.status.None? ==> r.fulfilledAt == a.fulfilledAt)
      && (p.fulfilled.None? && p.status == Some(Granted) ==>
            r.fulfilledAt == (if a.fulfilledAt.Some? then a.fulfilledAt else Some(now)))
      && (p.notes.Some? ==> r.notes == p.notes)
      && (p.notes.None? ==> r.notes == a.notes)
      && (GrantedIffFulfilled(a) && !AccessPatchDisagrees(a, p) ==> GrantedIffFulfilled(r))
  {
  }

  /** As written, `fulfilled: false` alone on a granted request clears the
      time but leaves the status GRANTED. */
  lemma UnfulfillKeepsGranted(a: AccessProvision, now: Instant)
    requires a.status == Granted
    ensures var r := AccessAfterPatch(a, AccessPatch(None, None, Some(false)), now);
      r.status == Granted && r.fulfilledAt.None?
  {
  }

  // --------------------------------------------------------------- risk patch

  /** The risk after `PATCH /:id/risks/:riskId`. */
  function RiskAfterPatch(k: Risk, p: RiskPatch, now: Instant): (r: Risk)
    ensures r.id == k.id && r.initiativeId == k.initiativeId && r.title == k.title
    ensures r.description == k.description && r.severity == k.severity && r.identifiedAt == k.identifiedAt
  {
    k.(status := p.status.GetOr(k.status),
       mitigationPlan := if p.mitigationPlan.Some? then p.mitigationPlan else k.mitigationPlan,
       owner := if p.owner.Some? then p.owner else k.owner,
       resolvedAt :=
         if p.status == Some(Closed) && p.resolvedAt.None? then Some(now)
         else if p.resolvedAt.Some? then p.resolvedAt
         else k.resolvedAt)
  }

  /** Given fields are written and absent ones keep their stored values;
      closing a risk always leaves a resolution time, the given one or now;
      a given time is always taken; otherwise the stored time stays. */
  lemma RiskPatchRule(k: Risk, p: RiskPatch, now: Instant)
    ensures var r := RiskAfterPatch(k, p, now);
      && (p.status == Some(Closed) ==> r.status == Closed && r.resolvedAt.Some?)
      && (p.resolvedAt.Some? ==> r.resolvedAt == p.resolvedAt)
      && (p.status != Some(Closed) && p.resolvedAt.None? ==> r.resolvedAt == k.resolvedAt)
      && r.status == p.status.GetOr(k.status)
      && r.mitigationPlan == (if p.mitigationPlan.Some? then p.mitigationPlan else k.mitigationPlan)
      && r.owner == (if p.owner.Some? then p.owner else k.owner)
  {
  }
}
