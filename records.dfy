/** The rows the initiative routes read and write (the records of
    apps/api/src/routes/initiatives.ts, whose shapes apps/web/src/types.ts
    repeats), and the already-validated request payloads. */
module Records {
  import opened Wrappers
  import opened Stages

  /** Row identifiers. The database generates them; here the store does. */
  type Id = nat

  /** A point in time as `new Date()` gives it; nothing looks inside one. */
  datatype Instant = Instant(ticks: int)

  datatype InitiativeStatus = OnTrack | AtRisk | Blocked | Complete | Archived
  datatype HealthStatus = Healthy | Watch | CriticalHealth
  datatype RiskLevel = Low | Medium | High | CriticalRisk
  datatype RiskStatus = Open | Mitigated | Closed
  datatype SowStatus = Draft | InReview | Approved | SignedOff
  datatype AccessStatus = Requested | InProgress | Granted | AccessBlocked
  datatype ApprovalRole = ProjectManager | DataArchitect

  datatype Initiative = Initiative(
    id: Id,
    name: string,
    description: string,
    stage: Stage,
    status: InitiativeStatus,
    healthStatus: HealthStatus,
    riskLevel: RiskLevel,
    sowReference: Option<string>,
    engagementLead: Option<string>,
    projectManager: Option<string>,
    dataArchitect: Option<string>,
    startDate: Option<Instant>,
    targetDate: Option<Instant>)

  datatype ChecklistItem = ChecklistItem(
    id: Id,
    initiativeId: Id,
    stage: Stage,
    title: string,
    description: Option<string>,
    completed: bool,
    completedAt: Option<Instant>)

  datatype StageApproval = StageApproval(
    id: Id,
    initiativeId: Id,
    stage: Stage,
    role: ApprovalRole,
    approved: bool,
    approvedBy: Option<string>,
    approvedAt: Option<Instant>,
    notes: Option<string>)

  datatype HistoryEntry = HistoryEntry(
    id: Id,
    initiativeId: Id,
    fromStage: Option<Stage>,
    toStage: Stage,
    actor: string,
    reason: Option<string>,
    createdAt: Instant)

  datatype ScopeOfWork = ScopeOfWork(
    id: Id,
    initiativeId: Id,
    summary: string,
    deliverables: string,
    status: SowStatus,
    pmOwner: string,
    architectOwner: string,
    pmApproved: bool,
    pmApprovedAt: Option<Instant>,
    architectApproved: bool,
    architectApprovedAt: Option<Instant>,
    signedOffAt: Option<Instant>,
    lastReviewedAt: Option<Instant>)

  datatype Risk = Risk(
    id: Id,
    initiativeId: Id,
    title: string,
    description: string,
    severity: RiskLevel,
    status: RiskStatus,
    mitigationPlan: Option<string>,
    owner: Option<string>,
    identifiedAt: Instant,
    resolvedAt: Option<Instant>)

  datatype AccessProvision = AccessProvision(
    id: Id,
    initiativeId: Id,
    memberId: Id,
    status: AccessStatus,
    notes: Option<string>,
    requestedAt: Instant,
    fulfilledAt: Option<Instant>)

  /** The body of `POST /` after `createInitiativeSchema`, defaults applied. */
  datatype CreateRequest = CreateRequest(
    name: string,
    description: string,
    sowReference: Option<string>,
    engagementLead: Option<string>,
    projectManager: Option<string>,
    dataArchitect: Option<string>,
    startDate: Option<Instant>,
    targetDate: Option<Instant>,
    healthStatus: HealthStatus,
    riskLevel: RiskLevel)

  /** The body of `POST /:id/transition` after `transitionSchema`. */
  datatype TransitionRequest = TransitionRequest(
    targetStage: Stage,
    reason: Option<string>,
    actor: Option<string>,
    allowRegression: Option<bool>)

  /** The bounds `transitionSchema` enforces. */
  predicate ValidTransitionRequest(req: TransitionRequest) {
    && IsStage(req.targetStage)
    && (req.reason.Some? ==> |req.reason.value| <= 500)
    && (req.actor.Some? ==> |req.actor.value| <= 120)
  }

  /** The body of `PATCH /:id/sow` before its refinement is applied. */
  datatype ScopePatch = ScopePatch(
    summary: Option<string>,
    deliverables: Option<string>,
    status: Option<SowStatus>,
    pmApproved: Option<bool>,
    architectApproved: Option<bool>)

  /** The body of `PATCH /:id/approvals/:approvalId`. */
  datatype ApprovalPatch = ApprovalPatch(
    approved: bool,
    approvedBy: Option<string>,
    notes: Option<string>)

  /** The bound `approvalUpdateSchema` enforces: a given name has two or more characters. */
  predicate ValidApprovalPatch(p: ApprovalPatch) {
    p.approvedBy.Some? ==> |p.approvedBy.value| >= 2
  }

  /** The body of `PATCH /:id/access/:accessId`. */
  datatype AccessPatch = AccessPatch(
    status: Option<AccessStatus>,
    notes: Option<string>,
    fulfilled: Option<bool>)

  /** The body of `PATCH /:id/risks/:riskId`. */
  datatype RiskPatch = RiskPatch(
    status: Option<RiskStatus>,
    mitigationPlan: Option<string>,
    owner: Option<string>,
    resolvedAt: Option<Instant>)
}
