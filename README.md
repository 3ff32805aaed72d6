# PilotGB initiative lifecycle — a Dafny model

PilotGB tracks data-delivery *initiatives* through six lifecycle stages,
INGESTION, TRANSFORMATION, ENRICHMENT, VALIDATION, VISUALIZATION and
DEPLOYMENT. A move from one stage to another passes a gate with five checks,
applied in this order:

1. the ordering rule: one step forward, or backwards with an explicit
   override;
2. an approved scope of work (SOW) before leaving INGESTION;
3. a signed-off SOW before entering DEPLOYMENT;
4. project-manager and data-architect approvals of the stage being left;
5. the stage's exit checklist, which is skipped under the override.

A move that passes does three things. It appends a history entry, resets
the approvals of the stage it enters, and recomputes the initiative's
status.

This project models the following and proves their properties:

- **The gate and the API handlers next to it.** The initiative routes keep
  an in-memory store.
  - Creation.
  - The checklist toggle.
  - The SOW, stage-approval, access-request and risk patches.
- **The configuration parser.**
- **The HTTP error factories.**
- **The front-end logic that mirrors the gate:**
  - the web copy of the stage sequence and `getNextStage`;
  - the Lifecycle Board's readiness flags, advance button and per-stage
    grouping;
  - the breadcrumb trail.

Modules, one per source file, plus shared helpers:

- `Wrappers`: `Option`, `Result` and `Outcome`.
- `Text`: the JavaScript string operations the source relies on (`split`,
  `trim`, `filter(Boolean)`, ASCII `toLowerCase`).
- `Errors`: `apps/api/src/errors.ts`.
- `Stages`: `apps/api/src/domain/stage.ts`.
- `Config`: `apps/api/src/config.ts`.
- **`apps/api/src/routes/initiatives.ts`** is modelled across three modules:
  - `Records` holds the table rows and already-validated request bodies.
  - `Gate` holds the transition guards and the status rule, as functions.
  - `Updates` holds the rows each handler writes, as functions, with their
    lemmas.
  - `Store` is the class `InitiativeStore`. Its methods are the handlers.
    They change the tables step by step, and each is proved against the
    `Gate` and `Updates` functions.
- `WebConstants`: `apps/web/src/constants.ts`.
- `LifecycleBoard`: `apps/web/src/components/LifecycleBoard.tsx`.
- `Breadcrumb`: `apps/web/src/components/ui/Breadcrumb.tsx`.

Timestamps (`new Date()`) are an opaque `Instant`, passed to each handler as
`now`. Ids are handed out by the store's counter. A handler's thrown
`HttpError` becomes the method's `Err`/`Fail` result. In every failing case
the method's contract states that the store is unchanged, which holds because
every throw comes before the source's write transaction.

Four behaviours of the source are modelled as written and stated as lemmas:

- `Gate.RegressionSkipsOnlyTheChecklist`: the override skips the checklist
  check but not the approval check.
- `Updates.SignOffIgnoresStoredFlags`: the SOW schema refinement looks only
  at the payload's own approval flags. A scope whose stored approvals are
  both false can therefore be signed off.
- `Updates.PromotionIgnoresExplicitFalse`: the DRAFT to APPROVED promotion
  merges payload and stored flags with `||`. A payload with
  `architectApproved: true` and an explicit `pmApproved: false` still
  promotes when the stored PM flag is true, and the promoted scope then
  records its withdrawn approval.
- `Updates.UnfulfillKeepsGranted`: an access patch with only
  `fulfilled: false` on a GRANTED request clears the fulfilment time but
  leaves the status GRANTED.

## Model

| member | source | states |
|---|---|---|
| Stages.SequenceIsSixDistinctStages | apps/api/src/domain/stage.ts:4-11 | the sequence has six pairwise distinct stages, INGESTION first and DEPLOYMENT last |
| Stages.IndexOf | apps/api/src/domain/stage.ts:13 | `indexOf`: -1 exactly when the value is absent; otherwise the position of its first occurrence |
| Stages.StageIndex | apps/api/src/domain/stage.ts:13 | -1 exactly for a value that is no stage; otherwise the stage's position in the sequence |
| Stages.StageIndexOfPosition | apps/api/src/domain/stage.ts:13 | the stage at position i is found at position i |
| Stages.GetNextStage | apps/api/src/domain/stage.ts:15-21 | a successor exists exactly for a known stage other than DEPLOYMENT, and it is the element at index + 1 |
| Stages.NextStageOfPosition | apps/api/src/domain/stage.ts:15-21 | position i < 5 is followed by position i + 1, DEPLOYMENT by nothing; no stage follows itself |
| Stages.NoStageFollowsItself | apps/api/src/domain/stage.ts:15-21 | no value, stage or not, is its own successor |
| Stages.EnsureValidTransition | apps/api/src/domain/stage.ts:23-50 | passes exactly when both stages are known and the target is the next index, or lower with the override; each refusal is a 400 with the source's message, checked in the source's order (unknown, same, skip, regression) |
| Stages.SameStageAlwaysRejected | apps/api/src/domain/stage.ts:35-37 | staying at the same stage is refused with or without the override |
| Stages.ForwardMoveIsNextStage | apps/api/src/domain/stage.ts:39-41 | without the override a passing move goes to `getNextStage(current)`, and the move to the next stage passes whatever the flag |
| Stages.SkipAlwaysRejected | apps/api/src/domain/stage.ts:43-45 | two or more steps forward is the skip error, even with the override |
| Stages.BackwardMoveNeedsOverride | apps/api/src/domain/stage.ts:47-49 | any backward move passes exactly when the override is given |
| Stages.UnitTestCases | apps/api/src/domain/stage.test.ts:7-28 | the cases of the unit tests: INGESTION→TRANSFORMATION passes, INGESTION→ENRICHMENT is a skip, ENRICHMENT→TRANSFORMATION needs the override, DEPLOYMENT has no successor |
| Errors.BadRequest | apps/api/src/errors.ts:12-13 | status 400 with the given message and details; a client error |
| Errors.NotFound | apps/api/src/errors.ts:15 | status 404 with the message and no details |
| Errors.Conflict | apps/api/src/errors.ts:17 | status 409 with the message and no details |
| Errors.InternalError | apps/api/src/errors.ts:19-20 | status 500 with the message and details; not a client error |
| Errors.FactoriesAreDistinguishable | apps/api/src/errors.ts:1-20 | no two factories produce the same error, whatever the messages and details |
| Text.Split | apps/api/src/config.ts:16 | `split` gives at least one part, none containing the separator, at most one more than the length |
| Text.JoinSplit | apps/api/src/config.ts:16 | joining the parts with the separator gives back the string |
| Text.SplitJoin | apps/api/src/config.ts:16 | splitting a join of separator-free parts gives back the parts |
| Text.Trim | apps/api/src/config.ts:17 | the result has no leading or trailing whitespace, and a string without any is kept as it is |
| Text.TrimIsPadded | apps/api/src/config.ts:17 | the string is the result with whitespace-only runs before and after it, so only whitespace at the ends is removed |
| Text.NonEmpty | apps/api/src/config.ts:18 | `filter(Boolean)` keeps exactly the non-empty strings of the list, each one that occurs |
| Text.NonEmptyAppend | apps/api/src/config.ts:18 | the filter keeps order: filtering a concatenation concatenates the filtered parts |
| Text.NonEmptyKeepsAll | apps/api/src/config.ts:18 | a list without empty strings passes the filter unchanged |
| Text.ToLower | apps/api/src/routes/initiatives.ts:235 | `toLowerCase` maps each character to its lower-case form and leaves no upper-case letter |
| Text.DigitsValueOfDecimal | apps/api/src/config.ts:6 | reading back a number's decimal spelling gives the number |
| Config.RoundToDouble | apps/api/src/config.ts:6 | a non-negative decimal value reads as Infinity exactly from 2^1024 - 2^970 up; otherwise it is finite, below that bound, and equal to the value unless the value is at most 2^-1075 |
| Config.StringToNumber | apps/api/src/config.ts:6 | `Number(s)`: blank text is 0; a negative result, finite or infinite, needs a leading `-`; a finite result lies strictly within the overflow bounds |
| Config.ParsePort | apps/api/src/config.ts:5-8 | the port is always positive and below the overflow bound; it is the number the value holds exactly when that is finite and positive, and 4000 otherwise |
| Config.ParsePortUnsetOrBlank | apps/api/src/config.ts:6-7 | an unset, empty or blank value gives 4000 |
| Config.ParsePortNonPositive | apps/api/src/config.ts:7 | "0" and every negated decimal integer give 4000 |
| Config.ParsePortInfinite | apps/api/src/config.ts:7 | `Infinity` with any sign gives 4000 |
| Config.ParsePortNotANumber | apps/api/src/config.ts:6-7 | text holding a character no number can contain gives 4000 |
| Config.ParsePortReadsDecimal | apps/api/src/config.ts:6-7 | a positive integer up to 2^53 in decimal, blanks around it or not, gives that number |
| Config.ParsePortOverflow | apps/api/src/config.ts:6-7 | an integer of at least 2^1024 - 2^970 reads as Infinity and gives 4000 |
| Config.ParsePortUnderflow | apps/api/src/config.ts:6-7 | a positive literal of at most 2^-1075 reads as 0 and gives 4000 |
| Config.ParseOrigins | apps/api/src/config.ts:10-19 | unset or empty gives exactly the default origin; every origin returned is non-empty, trimmed and comma-free |
| Config.ParseOriginsOfJoin | apps/api/src/config.ts:15-18 | well-formed origins joined with commas are read back in their order |
| Config.ParseOriginsOfParts | apps/api/src/config.ts:15-18 | comma-free parts listed with commas come back trimmed, the blank ones dropped, the rest in their order |
| Config.ParseOriginsOfPaddedList | apps/api/src/config.ts:15-18 | `" a , , b "` gives exactly `[a, b]` for origins a and b |
| Config.ParseOriginsOfSeparators | apps/api/src/config.ts:15-18 | a value of only commas and blanks gives no origins, not the default |
| Gate.ApprovalsOfStage | apps/api/src/routes/initiatives.ts:368-370 | exactly the approvals of the stage |
| Gate.RolesMissing | apps/api/src/routes/initiatives.ts:372-377 | a role is listed exactly when it is required and the stage has no approved record for it |
| Gate.MissingApprovals | apps/api/src/routes/initiatives.ts:372-377 | a role is listed exactly when it is required and the stage has no approved record for it; empty exactly when both roles approved |
| Gate.MissingApprovalsInRoleOrder | apps/api/src/routes/initiatives.ts:372-383 | missing roles are listed project manager first, each once; the list is empty exactly when both roles approved the current stage |
| Gate.IncompleteItems | apps/api/src/routes/initiatives.ts:386-396 | the error lists (id, title) of exactly the unfinished items of the current stage, no more entries than items |
| Gate.IncompleteItemsEmptyIff | apps/api/src/routes/initiatives.ts:385-399 | no item is listed exactly when every item of the stage is completed |
| Gate.CheckTransition | apps/api/src/routes/initiatives.ts:340-399 | passes exactly when ordering, both SOW conditions, both approvals and (without the override) the checklist hold; every failure is a 400; the first failing check gives the error, with the source's message and details |
| Gate.RegressionSkipsOnlyTheChecklist | apps/api/src/routes/initiatives.ts:385 | under the override the checklist has no effect on the outcome, but a missing approval still refuses the move |
| Gate.OnlyCurrentStageApprovalsMatter | apps/api/src/routes/initiatives.ts:368-383 | approvals of stages other than the current one never change the outcome |
| Gate.DraftScopeHoldsIngestion | apps/api/src/routes/initiatives.ts:346-356 | a draft SOW keeps an initiative at INGESTION with the SOW error, whatever its approvals and checklist |
| Gate.ReadyVisualizationDeploys | apps/api/src/routes/initiatives.ts:340-399 | a signed-off SOW, both approvals and a finished checklist let VISUALIZATION move to DEPLOYMENT |
| Gate.NextStatus | apps/api/src/routes/initiatives.ts:401-406 | COMPLETE exactly when the target is DEPLOYMENT; another move turns COMPLETE into ON_TRACK and keeps any other status |
| Gate.Unapproved | apps/api/src/routes/initiatives.ts:424-429 | keeps id, initiative, stage and role; clears the approved flag, approver, time and notes |
| Gate.ResetApprovals | apps/api/src/routes/initiatives.ts:419-430 | each approval of the initiative and the entered stage is reset; every other row is unchanged, in place |
| Gate.ApprovalsOf | apps/api/src/routes/initiatives.ts:327-334 | exactly the approvals of the initiative |
| Gate.ItemsOf | apps/api/src/routes/initiatives.ts:327-334 | exactly the checklist items of the initiative |
| Gate.ResetStageHasNoApprovals | apps/api/src/routes/initiatives.ts:419-430 | after the reset both roles are missing for the entered stage |
| Gate.EnteredStageNeedsFreshApprovals | apps/api/src/routes/initiatives.ts:372-383 | after a move, no further move out of the entered stage passes until it is approved again |
| Updates.NewInitiative | apps/api/src/routes/initiatives.ts:219-230 | the new initiative has the given id, stage INGESTION and status ON_TRACK |
| Updates.ExitGateItem | apps/api/src/routes/initiatives.ts:232-236 | an item of the given stage and initiative, not completed and without a completion time |
| Updates.InitialChecklist | apps/api/src/routes/initiatives.ts:231-237 | one exit-gate item per stage, in stage order, with consecutive ids |
| Updates.InitialChecklistOnePerStage | apps/api/src/routes/initiatives.ts:231-237 | six items of the initiative, one for every stage and no stage twice, none completed |
| Updates.InitialApprovals | apps/api/src/routes/initiatives.ts:262-270 | twelve rows, stage by stage, each stage's rows in role order |
| Updates.InitialApprovalsOnePerPair | apps/api/src/routes/initiatives.ts:262-270 | exactly one unsigned approval for every (stage, role) pair |
| Updates.CreationEntry | apps/api/src/routes/initiatives.ts:238-245 | the creation history entry goes from no stage to INGESTION with actor "system" |
| Updates.InitialScope | apps/api/src/routes/initiatives.ts:249-260 | a DRAFT SOW without approvals, owners defaulting to the TBD names |
| Updates.NewInitiativeCannotMove | apps/api/src/routes/initiatives.ts:218-276 | a newly created initiative is refused every move |
| Updates.ToggledItem | apps/api/src/routes/initiatives.ts:459-464 | the completion time is set exactly when the item is completed; nothing else changes |
| Updates.ScopeAfterPatch | apps/api/src/routes/initiatives.ts:641-675 | the patched SOW keeps its identity and owners and is stamped as reviewed now |
| Updates.SignsOffWithoutApprovals | apps/api/src/routes/initiatives.ts:111-121 | the refinement fails only for a SIGNED_OFF payload that sets a flag to false; a SIGNED_OFF payload passes exactly when neither flag is false; a payload without flags always passes |
| Updates.PromotesDraft | apps/api/src/routes/initiatives.ts:667-675 | promotion needs a DRAFT, no status in the payload and some payload flag true; a role approved neither in payload nor store blocks it; an explicit PM `false` over a stored PM approval, with the architect flag true, still promotes |
| Updates.ScopePatchFields | apps/api/src/routes/initiatives.ts:645-666 | a given status is taken and stamps `signedOffAt` exactly when SIGNED_OFF; a given flag is taken and stamps its time exactly when true; absent fields keep their values |
| Updates.ScopePromotionRule | apps/api/src/routes/initiatives.ts:667-675 | without a status in the payload, a draft becomes APPROVED exactly when some payload flag is true and each role is approved in payload or store; a non-draft keeps its status |
| Updates.PromotionIgnoresExplicitFalse | apps/api/src/routes/initiatives.ts:667-675 | a payload with `architectApproved: true` and an explicit `pmApproved: false`, over a stored PM approval, still promotes, leaving an APPROVED scope without PM approval |
| Updates.SignOffIgnoresStoredFlags | apps/api/src/routes/initiatives.ts:111-121 | a sign-off naming no flags passes the refinement and signs off a scope whose stored flags are both false |
| Updates.RefinedPatchNeverSignsOffAgainstItsOwnFlags | apps/api/src/routes/initiatives.ts:111-121 | a payload that passes the refinement never signs off while setting one of its own flags to false |
| Updates.ApprovalAfterPatch | apps/api/src/routes/initiatives.ts:703-714 | approved and notes are the payload's; approving records the approver and now; unapproving clears both |
| Updates.ApprovalPatchKeepsSigned | apps/api/src/routes/initiatives.ts:699-714 | a patch the handler accepts leaves an approved row with an approver of two or more characters and a time |
| Updates.AccessAfterPatch | apps/api/src/routes/initiatives.ts:739-758 | the patched request keeps its identity, member and request time |
| Updates.AccessPatchRule | apps/api/src/routes/initiatives.ts:739-758 | a given status is taken; entering GRANTED keeps or stamps the fulfilment time and any other given status clears it; `fulfilled` sets the time to now or none and grants without a status; with neither field, status and time are kept; notes fall back; granted and fulfilled stay in step unless the payload contradicts itself |
| Updates.UnfulfillKeepsGranted | apps/api/src/routes/initiatives.ts:753-758 | `fulfilled: false` alone on a GRANTED request clears the time and keeps GRANTED |
| Updates.RiskAfterPatch | apps/api/src/routes/initiatives.ts:554-562 | the patched risk keeps its identity, title, description, severity and identification time |
| Updates.RiskPatchRule | apps/api/src/routes/initiatives.ts:554-562 | status, mitigation plan and owner are the given ones or the stored ones; closing always leaves a resolution time, the given one or now; a given time is taken; otherwise the stored one stays |
| Store.ScopeOf | apps/api/src/routes/initiatives.ts:327-334 | the initiative's SOW exactly when it has one |
| Store.ItemIndex | apps/api/src/routes/initiatives.ts:451-453 | a position holding the id, or none exactly when no item has it |
| Store.ApprovalIndex | apps/api/src/routes/initiatives.ts:691-693 | a position holding the id, or none exactly when no approval has it |
| Store.ItemIndexOfUnique | apps/api/src/routes/initiatives.ts:451-453 | with unique ids, the lookup of an item's id finds that item's position |
| Store.ApprovalIndexOfUnique | apps/api/src/routes/initiatives.ts:691-693 | with unique ids, the lookup of an approval's id finds that approval's position |
| Store.FreshItemsKeepIdsUnique | apps/api/src/routes/initiatives.ts:231-237 | items created with ids from the counter keep the table's ids unique |
| Store.FreshApprovalsKeepIdsUnique | apps/api/src/routes/initiatives.ts:262-270 | approvals created with ids from the counter keep the table's ids unique |
| Store.InitiativeStore.Create | apps/api/src/routes/initiatives.ts:213-280 | adds the new initiative, its six items, the creation entry, a draft SOW and twelve approvals, with fresh ids, and keeps the store valid |
| Store.InitiativeStore.Transition | apps/api/src/routes/initiatives.ts:321-444 | 404 for an unknown initiative; otherwise the gate's first failure with nothing written; on success one history entry with actor defaulting to "system", the entered stage's approvals reset, the new stage and status, and nothing else changed |
| Store.InitiativeStore.CommitTransition | apps/api/src/routes/initiatives.ts:408-440 | the write transaction: history, approval reset, stage and status; every other table unchanged |
| Store.InitiativeStore.ToggleChecklist | apps/api/src/routes/initiatives.ts:446-469 | 404 for a missing item or one of another initiative; otherwise only that item is toggled |
| Store.InitiativeStore.PatchScope | apps/api/src/routes/initiatives.ts:628-684 | the refinement rejects sign-off against the payload's own flags first, then 404 without a SOW, then the patched SOW and nothing else changed |
| Store.InitiativeStore.PatchApproval | apps/api/src/routes/initiatives.ts:686-723 | 404 for a missing or foreign approval, then 400 when approving without a name, otherwise only that approval is updated |
| Store.InitiativeStore.PatchAccess | apps/api/src/routes/initiatives.ts:725-767 | 404 for a missing or foreign request, otherwise only that request is updated |
| Store.InitiativeStore.PatchRisk | apps/api/src/routes/initiatives.ts:541-571 | 404 for a missing or foreign risk, otherwise only that risk is updated |
| Store.AssembleScopeUpdate | apps/api/src/routes/initiatives.ts:641-675 | the field-by-field update equals the patched SOW |
| Store.AssembleApprovalUpdate | apps/api/src/routes/initiatives.ts:703-714 | the field-by-field update equals the patched approval |
| Store.AssembleAccessUpdate | apps/api/src/routes/initiatives.ts:739-758 | the field-by-field update equals the patched access request |
| Store.AssembleRiskUpdate | apps/api/src/routes/initiatives.ts:554-562 | the field-by-field update equals the patched risk |
| Store.CreatedRowsValid | apps/api/src/routes/initiatives.ts:231-270 | the created items and approvals have ids below the next counter and none is completed or signed |
| Store.ResetKeepsSigned | apps/api/src/routes/initiatives.ts:419-430 | the reset keeps every approval consistently signed and invents no ids |
| WebConstants.SameSequenceAsApi | apps/web/src/constants.ts:12-19 | the web sequence equals the API's |
| WebConstants.StageLabel | apps/web/src/constants.ts:21-28 | each label is its stage with every letter after the first in lower case |
| WebConstants.WebGetNextStage | apps/web/src/constants.ts:85-91 | nothing exactly for an unknown value or the last stage; otherwise a stage of the sequence |
| WebConstants.WebNextStageAgreesWithApi | apps/web/src/constants.ts:85-91 | the web and API successor agree on every value |
| WebConstants.WebNextStageOfPosition | apps/web/src/constants.ts:85-91 | position i < 5 gives position i + 1, DEPLOYMENT gives nothing, no value is its own successor |
| LifecycleBoard.ItemsOfStage | apps/web/src/components/LifecycleBoard.tsx:48-50 | exactly the items of the stage |
| LifecycleBoard.CountCompletedAll | apps/web/src/components/LifecycleBoard.tsx:51 | every item is counted exactly when every item is completed |
| LifecycleBoard.DeriveChecklistProgress | apps/web/src/components/LifecycleBoard.tsx:40-57 | exactly the stage's items, total their number, completed at most total |
| LifecycleBoard.ChecklistReady | apps/web/src/components/LifecycleBoard.tsx:226 | ready exactly when every item of the stage is completed, vacuously so without items, which is exactly when the server lists no unfinished item |
| LifecycleBoard.ApprovalsReady | apps/web/src/components/LifecycleBoard.tsx:227-231 | ready exactly when the server finds no approval missing |
| LifecycleBoard.ReadyForTransition | apps/web/src/components/LifecycleBoard.tsx:232 | ready exactly when the server finds neither an unfinished item nor a missing approval |
| LifecycleBoard.BoardReadinessMatchesServer | apps/web/src/components/LifecycleBoard.tsx:226-233 | a ready card passes the server's move to the next stage exactly when the SOW conditions it does not see also hold |
| LifecycleBoard.CardButton | apps/web/src/components/LifecycleBoard.tsx:541-558 | no button at DEPLOYMENT; it targets the next stage, is disabled exactly when not ready or advancing, and its label follows the precedence advancing, ready, checklist done, otherwise |
| LifecycleBoard.EnabledButtonMovesToNextStage | apps/web/src/components/LifecycleBoard.tsx:541-558 | an enabled button belongs to a ready card and names and targets the API's next stage |
| LifecycleBoard.AdvanceRequest | apps/web/src/components/LifecycleBoard.tsx:85-89 | the request names the target and actor "web-ui" and passes the transition schema for a stage |
| LifecycleBoard.ApprovalTogglePayload | apps/web/src/components/LifecycleBoard.tsx:106-110 | a name is sent exactly when approving, "Approver" when none is known, so the approver check never fails |
| LifecycleBoard.OfStageExactly | apps/web/src/components/LifecycleBoard.tsx:147-149 | an initiative is in a stage's list exactly when it is at that stage |
| LifecycleBoard.InitiativesByStage | apps/web/src/components/LifecycleBoard.tsx:143-152 | one group per stage of the sequence, each holding that stage's initiatives in order |
| LifecycleBoard.GroupingPlacesEachInitiativeOnce | apps/web/src/components/LifecycleBoard.tsx:143-152 | every stage has a group, and each initiative is in its own stage's group and no other |
| Breadcrumb.Segments | apps/web/src/components/ui/Breadcrumb.tsx:27 | the non-empty, slash-free pieces of the path, no more than its length plus one |
| Breadcrumb.SegmentsOfJoin | apps/web/src/components/ui/Breadcrumb.tsx:27 | a path assembled from slash-free pieces yields exactly its non-empty pieces, in order |
| Breadcrumb.PathOfIsJoin | apps/web/src/components/ui/Breadcrumb.tsx:38-40 | the cumulative path of the segments is the segments joined with slashes after a leading slash |
| Breadcrumb.SegmentsOfPath | apps/web/src/components/ui/Breadcrumb.tsx:27-40 | round trip: the segments of a cumulative path are the segments it was built from |
| Breadcrumb.SegmentsSkipEmptyRuns | apps/web/src/components/ui/Breadcrumb.tsx:27 | `/a//b/` has exactly the segments a and b |
| Breadcrumb.CrumbAt | apps/web/src/components/ui/Breadcrumb.tsx:40-48 | a segment adds at most one item, never the dashboard, linked exactly when it is not the last |
| Breadcrumb.Breadcrumbs | apps/web/src/components/ui/Breadcrumb.tsx:26-53 | the trail starts with the dashboard item and has at most one item per segment after it |
| Breadcrumb.GenerateBreadcrumbsFromRoute | apps/web/src/components/ui/Breadcrumb.tsx:26-53 | the loop over the segments builds exactly the trail |
| Breadcrumb.DeepPathIsNoRoute | apps/web/src/components/ui/Breadcrumb.tsx:18-23 | a cumulative path of two or more segments is no configured route |
| Breadcrumb.OnlyFirstSegmentCounts | apps/web/src/components/ui/Breadcrumb.tsx:39-50 | only the first segment can add an item |
| Breadcrumb.BreadcrumbsShape | apps/web/src/components/ui/Breadcrumb.tsx:26-53 | the trail is the dashboard, then the first segment's route item when `/<segment>` is configured and not the dashboard, linked exactly when more segments follow |
| Breadcrumb.DashboardNeverRepeats | apps/web/src/components/ui/Breadcrumb.tsx:43 | at most two items, and none after the first is the dashboard |
| Breadcrumb.LinksAreCumulativePaths | apps/web/src/components/ui/Breadcrumb.tsx:46 | the last segment's item has no link; an earlier one links to its cumulative path |
| Breadcrumb.TrailItems | apps/web/src/components/ui/Breadcrumb.tsx:63 | given items win, even an empty list; otherwise the generated trail |
| Breadcrumb.DisplayItems | apps/web/src/components/ui/Breadcrumb.tsx:66 | without `showHome` the first item is dropped |
| Breadcrumb.GeneratedTrailRenders | apps/web/src/components/ui/Breadcrumb.tsx:63-70 | a generated trail always renders with home; without home it renders exactly when the path adds an item, and then not the dashboard |

## Left out

- Prisma, Express and zod plumbing (`asyncHandler`, `findUnique`/`update` calls, response writing, the error-handler middleware) is not part of this model. The tables are in-memory fields. A refinement failure is the `Invalid` failure, which the error handler answers with a 400.
- Request parsing is not modelled. Handlers take already-validated bodies. The bounds enforced as preconditions are: the target is a stage, the reason has ≤ 500 characters, the actor ≤ 120, and the approver ≥ 2. The `min(10)` bounds on SOW texts are not enforced, because no behaviour depends on them.
- Column defaults come from the Prisma schema, which is not part of this model. They are assumed to be: stage INGESTION, status ON_TRACK, items not completed, approvals unsigned, SOW flags false.
- `PATCH /:id` (initiative update), the GET routes, and the creation of assets, risks, dependencies and access requests are not part of this model. Neither is onboarding or the other route files. Risks and access requests exist in the store only as rows to patch.
- Concurrency is not modelled. The transition reads outside its write transaction, and the model assumes a single writer.
- Metrics, the seed script, `lib/api.ts` (fetch) and all rendering are not part of this model. The board's mutations are modelled only as the request bodies they send (`AdvanceRequest`, `ApprovalTogglePayload`).
- Config.ParsePort: `Number()` is modelled for blanks, signs, `Infinity` and decimal literals only. Exponent, hexadecimal, binary and octal forms give NaN in the model, although JavaScript reads them as numbers.
- Config.RoundToDouble: overflow to Infinity and underflow to 0 are modelled, but a value between them keeps its exact decimal value instead of being rounded to the nearest double. Integers up to 2^53, every port number among them, are unaffected; `Config.ParsePortReadsDecimal` is stated only up to 2^53 for this reason.
- Config.ParsePort: as a consequence, a port written with more significant digits than a double holds is returned exactly, where JavaScript returns the nearest double.
- Text.ToLower: ASCII letters only. The stage names it is applied to are ASCII.
- WebConstants.StageLabel: its contract states the shape of each label (first letter kept, the rest lower-cased), not the six literal strings.
- Breadcrumb: icons are a tag only. Link rendering and `className` are not modelled.
