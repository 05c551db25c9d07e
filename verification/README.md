# Verified model of the VC-API credential exchanges

This project models the two state machines by which the VC-API moves credentials between a holder and an
issuer or verifier, together with the submission verifier that both depend on.

- **Workflow exchanges.** A workflow is a finite map of step definitions with `nextStep` links, which may be
  cyclic or lead nowhere. An exchange follows the links one accepted presentation at a time; query steps
  complete when a submission verifies without errors, issuance steps when a reviewer adds a presentation.
- **Legacy transactions.** A transaction is mediated (a submission waits for a review) or unmediated, is bound
  to the holder who first submitted, and notifies callbacks. Exchanges start transactions, once or any number
  of times.
- **The submission verifier.** It collects errors from the proof check, the challenge and every query.

## How it is organised

| file | contents |
|---|---|
| `Prelude.dfy`, `Credentials.dfy`, `Uuids.dfy` | shared datatypes, the pigeonhole lemma, fresh identifiers |
| `SubmissionVerifier.dfy` | the verifier's loops, what an empty error list means and what a refusing list holds |
| `ExchangeSteps.dfy` | steps as values, as stored rows and as objects |
| `Workflows.dfy` | definitions, the successor function and the walk |
| `WfExchange.dfy` | the exchange entity and what its service saves for each request |
| `WfExchangeRuns.dfy` | the invariant of stored exchanges over whole runs |
| `WfExchangeTheorems.dfy` | completion, lengths, liveness, review and callback targets |
| `WfExchangeEvidence.dfy` | what a stored exchange shows about its presentations; no replay |
| `Interleaving.dfy`, `WfExchangeConcurrency.dfy` | concurrent requests as separate load and save steps |
| `WorkflowService.dfy`, `WorkflowServiceRuns.dfy` | the service over both repositories and its store invariant |
| `WorkflowServiceLaws.dfy` | each operation of the workflow service, read off the definitions and the stored fields |
| `Transactions.dfy`, `TransactionRuns.dfy` | the legacy transaction and its runs |
| `TransactionLaws.dfy` | the whole stored transaction and every answer, read off the history of requests |
| `ExchangeService.dfy`, `ExchangeServiceRuns.dfy` | legacy exchanges, one-time and reusable |
| `ExchangeServiceLaws.dfy` | each operation of the exchange service, and what a definition means over whole runs |

The classes carry the fields and updates of the original ones. Each of their methods is proved against a
function on values (`Verify`, `Participate`, `Serve`, `Process`, `Perform`), and the lemmas are about those functions.
The laws then say what those functions return without the helpers they are made of: in terms of `nextStep` links, first
indices, query lists, earlier requests, definitions and what the proof and evaluation libraries answer. Together
with the methods' contracts they fix every reply and every stored value.
The entity level and the store level are kept apart: `Participate` is the object in memory after a call, also
after a refusal; `Serve` says what is saved, and `None` means that the service threw or only read.

## Results worth knowing

- Completion is a property of the definition: an exchange can complete exactly when the walk from the initial
  step ends, and then its step list is that whole walk with no step twice.
- Because a review and a callback resolve a step id to its first occurrence, a cyclic workflow gets stuck at the
  first issuance step that comes back, and its callbacks carry an earlier step. Both are stated with the exact
  condition.
- Completion is final while requests come one at a time. It is not final under interleaved requests:
  `CompletionCanBeLost` gives the schedule and `SaveKeepsCompletedIff` the exact condition. Every property of a
  single stored value survives interleaving.
- Without a save from a stale copy, the stored value is the serial outcome of all saved requests (`NoneStaleIsSerial`).
- A presentation can never complete two query steps, in one exchange or in two.
- A transaction is its history: `HistoryLaw` gives the whole stored value after any requests, and `ForbiddenIff` the
  holders it refuses.
- The error list alone decides acceptance: a failed proof with an empty list of reasons is accepted
  (`AcceptedButUnverifiedIff`).
- The workflow review DTO documents its `result` as the reviewer's judgement, but `addReview` never reads it: a
  rejecting review, with or without a presentation, completes the issuance step all the same. The model follows
  the code.
- The TODO on overwriting an earlier submission (`transaction.entity.ts:144`) concerns a case that cannot arise.

## Assumptions

- Uuids come from a supply that never repeats; each operation sets aside the next ones, used or not. A caller
  who names a workflow does not name a uuid that has yet to be drawn.
- `save` overwrites the stored value. The one exception is a legacy transaction whose id is taken: that save
  fails, as the comment at `exchange.entity.ts:76-77` says.
- The proof check and the presentation exchange evaluation are functions of their arguments. The first answers
  a verdict with a possibly missing error list, or throws; the second answers an error list, throws a string or
  throws something else. A result without an error list counts as the last.
- The class-validator checks of callback bodies are a predicate on the body.
- An empty, missing or dangling `nextStep` means no successor. A workflow whose initial step is not defined
  yields an exchange without steps, on which every later request throws.
- The liveness results assume a holder with an acceptable presentation for every request that a step of the walk
  can make (`Answerable`); the bounds they are paired with do not.

## Model

| member | source | states |
|---|---|---|
| `SubmissionVerifier.VerifyPresentationDefinitions` | apps/vc-api/src/vc-api/workflows/vp-submission-verifier.service.ts:102-133 | the push loop over presentation definitions computes the concatenation of each definition's numbered errors, and throws exactly when the library throws a non-string |
| `SubmissionVerifier.ValidatePresentation` | apps/vc-api/src/vc-api/workflows/vp-submission-verifier.service.ts:65-89 | the loop over the queries computes their errors in list order followed by the challenge error, which VerdictLaw and ErrorCounts identify one by one; any throw wins |
| `SubmissionVerifier.VerifyVpRequestSubmission` | apps/vc-api/src/vc-api/exchanges/vp-submission-verifier.service.ts:26-40 | the whole verdict that VerdictLaw describes: proof errors, query errors, challenge error, and the proof's verified flag (the two copies of the service read the same fields) |
| `SubmissionVerifier.AcceptsIff` | apps/vc-api/src/vc-api/workflows/vp-submission-verifier.service.ts:26-100 | no errors if and only if there is a proof, the challenge is the request's, the proof check reports nothing, every DIDAuth query has a holder, every definition evaluates without error and no query type is unknown |
| `SubmissionVerifier.DefinitionsPassIff` | apps/vc-api/src/vc-api/workflows/vp-submission-verifier.service.ts:110-130 | a definition list yields no error if and only if every definition evaluates to an empty error list |
| `SubmissionVerifier.QueriesPassIff` | apps/vc-api/src/vc-api/workflows/vp-submission-verifier.service.ts:75-86 | a query list yields no error if and only if every query passes on its own |
| `SubmissionVerifier.AcceptedButUnverifiedIff` | apps/vc-api/src/vc-api/credentials/utils/verification-result-transformer.ts:12-24 | an accepted presentation is flagged unverified if and only if the proof library called it invalid with an empty list of reasons |
| `SubmissionVerifier.UnverifiedAcceptanceExists` | apps/vc-api/src/vc-api/workflows/vp-submission-verifier.service.ts:52-62 | a concrete presentation that is accepted although its proof was called invalid |
| `SubmissionVerifier.QueriesDistribute` | apps/vc-api/src/vc-api/workflows/vp-submission-verifier.service.ts:76-86 | appending query lists appends their errors |
| `SubmissionVerifier.DefinitionsAreNumbered` | apps/vc-api/src/vc-api/workflows/vp-submission-verifier.service.ts:110-129 | the errors reported under number k are exactly definition k's reasons in order, numbers run from 1 to the number of definitions and never decrease |
| `SubmissionVerifier.VerdictLaw` | apps/vc-api/src/vc-api/workflows/vp-submission-verifier.service.ts:26-133 | a verdict is returned if and only if nothing throws; its errors are the proof library's messages, then each query's own errors in query order, then the challenge mismatch; its flag is the proof library's, on refusals too |
| `SubmissionVerifier.ErrorCounts` | apps/vc-api/src/vc-api/workflows/vp-submission-verifier.service.ts:65-89 | a missing or empty holder is listed once per DIDAuth query and otherwise never, an unknown type once per such query, a wrong challenge exactly once and last |
| `SubmissionVerifier.AcceptedVerdict` | apps/vc-api/src/vc-api/workflows/vp-submission-verifier.service.ts:26-100 | a presentation that meets the request gets an empty error list and the proof library's own flag |
| `ExchangeSteps.StepRoundTrip` | apps/vc-api/src/vc-api/workflows/entities/wf-exchange.entity.ts:109-117 | storing a step and rehydrating it by presence of vpRequest gives the step back |
| `ExchangeSteps.RowRoundTripIff` | apps/vc-api/src/vc-api/workflows/entities/wf-exchange.entity.ts:160-168 | rehydrating and storing gives a row back if and only if its type tag and its fields agree with the presence of vpRequest |
| `ExchangeSteps.FirstMatch` | apps/vc-api/src/vc-api/workflows/entities/wf-exchange.entity.ts:160-161 | find and findIndex: the first position with the id, none if and only if no step has it |
| `ExchangeSteps.QueryExchangeStep.ProcessPresentation` | apps/vc-api/src/vc-api/workflows/types/query-exchange-step.ts:33-46 | records the submission with its verdict and completes the step when there is no error; a throw changes nothing |
| `ExchangeSteps.QueryExchangeStep.MarkComplete` | apps/vc-api/src/vc-api/workflows/types/exchange-step.ts:39-45 | completes the step and changes nothing else |
| `ExchangeSteps.IssuanceExchangeStep.AddVP` | apps/vc-api/src/vc-api/workflows/types/issuance-exchange-step.ts:22-25 | stores the presentation, which may be missing, and completes the step |
| `ExchangeSteps.IssuanceExchangeStep.ProcessPresentation` | apps/vc-api/src/vc-api/workflows/types/issuance-exchange-step.ts:31-39 | no effect and no errors |
| `Workflows.GetNextStepLaw` | apps/vc-api/src/vc-api/workflows/entities/workflow.entity.ts:54-57 | unknown if and only if the id is no step; otherwise exactly the one link of the definition is followed, to its own definition, and to none when it is missing, empty or dangling |
| `Workflows.NextIff` | apps/vc-api/src/vc-api/workflows/entities/workflow.entity.ts:54-57 | n follows id if and only if id is a step whose nextStep is n, non-empty and a step |
| `Workflows.WalkFollowsLinks` | apps/vc-api/src/vc-api/workflows/entities/workflow.entity.ts:44-57 | the walk starts at the initial step, and position n + 1 is the step that the link of position n names |
| `Workflows.WalkShift` | apps/vc-api/src/vc-api/workflows/entities/workflow.entity.ts:54-57 | the walk is deterministic: what follows one visit of a step follows every visit |
| `Workflows.RevisitNeverEnds` | apps/vc-api/src/vc-api/workflows/entities/workflow.entity.ts:54-57 | a walk that comes back to a step goes on for ever |
| `Workflows.EndingWalkIsDistinct` | apps/vc-api/src/vc-api/workflows/entities/workflow.entity.ts:54-57 | a walk that ends visits no step twice |
| `Workflows.EndsWithinDefinitions` | apps/vc-api/src/vc-api/workflows/entities/workflow.entity.ts:44-57 | a walk still going after as many steps as there are definitions never ends |
| `Workflows.WalkEndsIffNoRevisit` | apps/vc-api/src/vc-api/workflows/entities/workflow.entity.ts:44-57 | a walk ends if and only if it never comes back to a step |
| `WfExchange.WfExchangeEntity.constructor` | apps/vc-api/src/vc-api/workflows/entities/wf-exchange.entity.ts:25-39 | a new exchange is pending with its hydrated initial step, or with no step when the initial definition is missing |
| `WfExchange.WfExchangeEntity.HydrateExchangeStep` | apps/vc-api/src/vc-api/workflows/entities/wf-exchange.entity.ts:129-158 | a definition with a request becomes a query step carrying the fresh challenge, any other an issuance step; both point at the exchange |
| `WfExchange.WfExchangeEntity.ProcessCurrentStep` | apps/vc-api/src/vc-api/workflows/entities/wf-exchange.entity.ts:68-71 | the last step, rehydrated on a copy, processes the presentation and is written back; no other step changes |
| `WfExchange.WfExchangeEntity.AdvanceStep` | apps/vc-api/src/vc-api/workflows/entities/wf-exchange.entity.ts:82-91 | a complete step is followed by the hydrated next definition or, without one, by completion |
| `WfExchange.WfExchangeEntity.ParticipateInExchange` | apps/vc-api/src/vc-api/workflows/entities/wf-exchange.entity.ts:53-99 | the entity's whole new state and result for every outcome, including refusals and throws that leave it changed in memory |
| `WfExchange.WfExchangeEntity.GetExchangeResponse` | apps/vc-api/src/vc-api/workflows/entities/wf-exchange.entity.ts:104-107 | the response of the last step |
| `WfExchange.WfExchangeEntity.GetStep` | apps/vc-api/src/vc-api/workflows/entities/wf-exchange.entity.ts:160-168 | the first step with the id, or the exception on an unknown id |
| `WfExchangeRuns.SubmitOutcome` | apps/vc-api/src/vc-api/workflows/workflow.service.ts:128-146 | a presentation is saved if and only if the current step is known and processes it without error, and then the exchange waits, moves on by one step or completes |
| `WfExchangeRuns.ReviewAfter` | apps/vc-api/src/vc-api/workflows/workflow.service.ts:215-224 | a review is saved if and only if the first step with the id is an issuance step, and changes that step alone |
| `WfExchangeRuns.AfterInv` | apps/vc-api/src/vc-api/workflows/entities/wf-exchange.entity.ts:65-91 | one request keeps the invariant: ids are a prefix of the walk, all but the last step complete, each step its definition hydrated, a query step complete exactly when it holds an error-free submission verified for its own request, a repeated issuance id incomplete, state and shape in agreement and never invalid |
| `WfExchangeRuns.RunInv` | apps/vc-api/src/vc-api/workflows/workflow.service.ts:142-146 | over every run the invariant holds, no step id, request, challenge or completeness is undone, and a completed exchange stays completed with the same steps |
| `WfExchangeRuns.ReachedInv` | apps/vc-api/src/vc-api/workflows/entities/wf-exchange.entity.ts:24-39 | the invariant holds of every exchange stored after its creation and any requests |
| `WfExchangeTheorems.CompletedIsWholeWalk` | apps/vc-api/src/vc-api/workflows/entities/wf-exchange.entity.ts:82-91 | completed means that the step ids are distinct, are the entire walk and are no more than the definitions, and that the walk ends |
| `WfExchangeTheorems.RevisitNeverCompletes` | apps/vc-api/src/vc-api/workflows/entities/wf-exchange.entity.ts:82-91 | if the walk comes back to a step, no run completes |
| `WfExchangeTheorems.CompletedIsFinal` | apps/vc-api/src/vc-api/workflows/workflow.service.ts:142-146 | with one request at a time no later request stores another state or another id list |
| `WfExchangeTheorems.CompletableIff` | apps/vc-api/src/vc-api/workflows/entities/wf-exchange.entity.ts:82-91 | with a holder who can answer every request, some run completes if and only if the walk starts and ends, which the definition decides |
| `WfExchangeTheorems.NoDeadEnd` | apps/vc-api/src/vc-api/workflows/workflow.service.ts:199-225 | whatever requests came before, further requests complete an exchange whose walk ends |
| `WfExchangeTheorems.MoveAdvances` | apps/vc-api/src/vc-api/workflows/entities/wf-exchange.entity.ts:53-99 | reviewing an issuance step and then submitting moves any uncompleted exchange to the next step or completes it |
| `WfExchangeTheorems.CompletionCosts` | apps/vc-api/src/vc-api/workflows/entities/wf-exchange.entity.ts:53-99 | completing a walk of n steps takes at least n accepted presentations in every run |
| `WfExchangeTheorems.ShortestCompletion` | apps/vc-api/src/vc-api/workflows/entities/wf-exchange.entity.ts:53-99 | the bound is tight: one schedule completes with exactly n, and none with fewer |
| `WfExchangeTheorems.RepeatedIssuanceBounds` | apps/vc-api/src/vc-api/workflows/workflow.service.ts:215-224 | an issuance step whose id occurred before bounds every run's step list by its position plus one and rules out completion |
| `WfExchangeTheorems.LengthsIff` | apps/vc-api/src/vc-api/workflows/entities/wf-exchange.entity.ts:160-168 | exactly which step-list lengths runs can reach: the walk gets there and no earlier position is a repeated issuance step |
| `WfExchangeTheorems.UnboundedIff` | apps/vc-api/src/vc-api/workflows/entities/wf-exchange.entity.ts:82-91 | step lists grow without bound if and only if the walk never ends and no issuance step on it comes back |
| `WfExchangeTheorems.ReviewTargets` | apps/vc-api/src/vc-api/workflows/workflow.service.ts:215-224 | with distinct ids a review changes only the named issuance step's presentation and completeness, not the state or any other step |
| `WfExchangeTheorems.CallbackPosts` | apps/vc-api/src/vc-api/workflows/workflow.service.ts:146-148 | the callback body is built from the first step with the current id; the step that processed the presentation is in its place and those before it are unchanged |
| `WfExchangeTheorems.CallbackTargetIff` | apps/vc-api/src/vc-api/workflows/workflow.service.ts:147-149 | that step is the one that processed the presentation if and only if the walk had not visited it before; it is never the newly pushed one |
| `WfExchangeTheorems.ResponseIsNextPoll` | apps/vc-api/src/vc-api/workflows/entities/wf-exchange.entity.ts:93-107 | the response to an accepted presentation is what the stored exchange then answers to an empty body |
| `WfExchangeTheorems.RefusalStaysInMemory` | apps/vc-api/src/vc-api/workflows/workflow.service.ts:142-144 | a refused presentation leaves the entity active with the failing submission recorded, and the store as it was |
| `WfExchangeEvidence.CompleteQueryHasEvidence` | apps/vc-api/src/vc-api/workflows/types/query-exchange-step.ts:37-45 | a query step is complete if and only if it holds a presentation with its own challenge that passes every query of its definition |
| `WfExchangeEvidence.EndpointsAreOwn` | apps/vc-api/src/vc-api/workflows/entities/wf-exchange.entity.ts:134-156 | every interact service and redirect URL of a stored step is the exchange's own URL, in the order of the definition |
| `WfExchangeEvidence.RunChallenges` | apps/vc-api/src/vc-api/workflows/entities/wf-exchange.entity.ts:143-151 | with fresh uuids the challenges of an exchange's query steps are pairwise distinct, over every run |
| `WfExchangeEvidence.NoReplay` | apps/vc-api/src/vc-api/workflows/vp-submission-verifier.service.ts:71-73 | one presentation never completes two steps of an exchange |
| `Interleaving.InterleavingRefinesSerial` | apps/vc-api/src/vc-api/workflows/workflow.service.ts:115-146 | for any interleaving of load and save halves, the stored value and every loaded copy are a serial execution of distinct saved requests in save order |
| `Interleaving.InvariantSurvives` | apps/vc-api/src/vc-api/workflows/workflow.service.ts:205-224 | every property of a single value that serial requests keep survives any interleaving |
| `Interleaving.NoneStaleIsSerial` | apps/vc-api/src/vc-api/workflows/workflow.service.ts:115-146 | if every save starts from the value then stored, the stored value is the serial execution of all saved requests: nothing is lost |
| `Interleaving.OneByOneIsSerial` | apps/vc-api/src/vc-api/workflows/workflow.service.ts:115-146 | requests that do not overlap are served exactly as in a serial run |
| `WfExchangeConcurrency.StoredIsSerial` | apps/vc-api/src/vc-api/workflows/workflow.service.ts:115-146 | the instance for participations and reviews on one exchange, from its creation |
| `WfExchangeConcurrency.ConcurrentInv` | apps/vc-api/src/vc-api/workflows/workflow.service.ts:115-146 | stored exchange and loaded copies satisfy the exchange invariant under any interleaving |
| `WfExchangeConcurrency.ConcurrentSafety` | apps/vc-api/src/vc-api/workflows/workflow.service.ts:115-146 | completed still means the whole walk, and challenges still never repeat, under any interleaving |
| `WfExchangeConcurrency.SaveKeepsCompletedIff` | apps/vc-api/src/vc-api/workflows/workflow.service.ts:142-146 | exactly which saves leave a completed exchange completed, by the copy the request had loaded |
| `WfExchangeConcurrency.CompletionCanBeLost` | apps/vc-api/src/vc-api/workflows/workflow.service.ts:142-146 | a concrete interleaving that puts a completed exchange back to active and loses its review |
| `WorkflowServices.WorkflowService.CreateWorkflow` | apps/vc-api/src/vc-api/workflows/workflow.service.ts:42-52 | rejects an id that exists, otherwise stores the workflow under the given or a fresh id |
| `WorkflowServices.WorkflowService.CreateExchange` | apps/vc-api/src/vc-api/workflows/workflow.service.ts:69-92 | missing workflow, or a new pending exchange under a fresh id |
| `WorkflowServices.WorkflowService.ParticipateInExchange` | apps/vc-api/src/vc-api/workflows/workflow.service.ts:109-174 | the store and reply that ParticipateLaw and PollLaw describe: missing exchange, empty body, missing workflow, refusal, save, callbacks |
| `WorkflowServices.WorkflowService.AddReview` | apps/vc-api/src/vc-api/workflows/workflow.service.ts:199-225 | the store and reply that AddReviewLaw describes: missing exchange, unknown step, query step, or the review saved; the review's result is not read |
| `WorkflowServices.WorkflowService.GetExchangeState` | apps/vc-api/src/vc-api/workflows/workflow.service.ts:94-107 | the current step id and the state, changing nothing |
| `WorkflowServices.WorkflowService.GetExchangeStep` | apps/vc-api/src/vc-api/workflows/workflow.service.ts:176-197 | the first step with the id and its response, changing nothing |
| `WorkflowServiceRuns.PerformAllKeeps` | apps/vc-api/src/vc-api/workflows/workflow.service.ts:42-225 | over any run of operations the store invariant holds, workflows never change and no exchange loses a step, a challenge or its completion |
| `WorkflowServiceRuns.NoReplayAnywhere` | apps/vc-api/src/vc-api/workflows/entities/wf-exchange.entity.ts:143-151 | across the whole store, one presentation never completes two query steps |
| `WorkflowServiceRuns.CompletedAnywhere` | apps/vc-api/src/vc-api/workflows/entities/wf-exchange.entity.ts:87-90 | every completed exchange of the store has gone through the whole walk of its stored workflow, and stays so |
| `WorkflowServiceLaws.CreateWorkflowLaw` | apps/vc-api/src/vc-api/workflows/workflow.service.ts:42-52 | a given id that exists is a conflict and changes nothing; otherwise the definition is stored as given, under the given id or a fresh one, and the reply names it |
| `WorkflowServiceLaws.FirstDefinitionStays` | apps/vc-api/src/vc-api/workflows/workflow.service.ts:45-49 | over any run a workflow id stands for the first definition created under it |
| `WorkflowServiceLaws.CreateExchangeLaw` | apps/vc-api/src/vc-api/workflows/workflow.service.ts:69-92 | a new pending exchange holds the workflow's initial step, fresh from its own definition, or no step when that is not defined; the reply gives its URL, step and state; nothing else changes |
| `WorkflowServiceLaws.ParticipateLaw` | apps/vc-api/src/vc-api/workflows/workflow.service.ts:109-174 | an accepted presentation answers the last step and then appends exactly the step its nextStep link names, fresh from its own definition, or completes the exchange when the link is missing, empty or no step; a refused one changes nothing and lists the verifier's errors; missing and throwing cases, reply and posts included |
| `WorkflowServiceLaws.PollLaw` | apps/vc-api/src/vc-api/workflows/workflow.service.ts:122-126 | an empty body changes nothing and is answered by the last step: its request, the issued presentation, or the redirect |
| `WorkflowServiceLaws.AddReviewLaw` | apps/vc-api/src/vc-api/workflows/workflow.service.ts:199-225 | the store changes exactly in the first step with the id, if it is an issuance step: presentation stored, step complete, reply Reviewed; in every other case nothing changes, each with its own reply |
| `WorkflowServiceLaws.ReviewedIsAnswered` | apps/vc-api/src/vc-api/workflows/types/issuance-exchange-step.ts:41-53 | after a review of the current issuance step, the next poll gives the reviewer's presentation |
| `WorkflowServiceLaws.PostsCarrySubmission` | apps/vc-api/src/vc-api/workflows/workflow.service.ts:146-165 | on a first visit every callback URL of the step gets one post carrying its id, request, the processed submission and the request URL, unless the body is invalid, which throws |
| `WorkflowServiceLaws.EntityLaw` | apps/vc-api/src/vc-api/workflows/entities/wf-exchange.entity.ts:53-99 | the callbacks returned are those of the step that processed the presentation; the returned verdict is the one recorded, also on a refusal, which changes nothing else but the state; a throw changes the state alone |
| `Transactions.TransactionEntity.constructor` | apps/vc-api/src/vc-api/exchanges/entities/transaction.entity.ts:41-57 | a review pending submission exists if and only if the first interact service is mediated |
| `Transactions.TransactionEntity.ProcessPresentation` | apps/vc-api/src/vc-api/exchanges/entities/transaction.entity.ts:116-190 | the new state and answer for every branch, including the holder guard on every kind of transaction and the throws, as ContinueLaw and ForbiddenIff describe them |
| `Transactions.TransactionEntity.ApprovePresentationSubmission` | apps/vc-api/src/vc-api/exchanges/entities/transaction.entity.ts:102-105 | approved with the given presentation in any status; without a review it throws |
| `Transactions.TransactionEntity.RejectPresentationSubmission` | apps/vc-api/src/vc-api/exchanges/entities/transaction.entity.ts:107-109 | rejected, keeping the presentation held; without a review it throws |
| `TransactionRuns.RunInv` | apps/vc-api/src/vc-api/exchanges/entities/transaction.entity.ts:139-189 | over every run the review rank never falls, the recorded holder never changes, a mediated submission is never rewritten, and every recorded submission was verified for this request without errors |
| `TransactionRuns.NothingToOverwrite` | apps/vc-api/src/vc-api/exchanges/entities/transaction.entity.ts:143-147 | in the pendingSubmission branch there never is an earlier submission |
| `TransactionRuns.ConcurrentInv` | apps/vc-api/src/vc-api/exchanges/exchange.service.ts:83-102 | the transaction invariant holds of the stored value under any interleaving of load and save halves |
| `TransactionRuns.DecidedIff` | apps/vc-api/src/vc-api/exchanges/entities/transaction.entity.ts:102-109 | a mediated transaction is decided if and only if a decision was made |
| `TransactionRuns.CallbackConservation` | apps/vc-api/src/vc-api/exchanges/exchange.service.ts:93-132 | posts attempted equal the configured callbacks times the accepted submissions, counting only those before the first decision when mediated |
| `TransactionRuns.VpProvenance` | apps/vc-api/src/vc-api/exchanges/entities/transaction.entity.ts:166-175 | an answer carries a presentation only after a decision, and then the one of the most recent approval, whatever rejections followed |
| `TransactionRuns.InProgressIff` | apps/vc-api/src/vc-api/exchanges/entities/transaction.entity.ts:141-188 | the holder is told to wait exactly while a mediated transaction is undecided; callbacks go out exactly when it is not decided |
| `TransactionLaws.ContinueLaw` | apps/vc-api/src/vc-api/exchanges/entities/transaction.entity.ts:116-190 | every outcome of a submission in order of precedence: another holder is barred, the verifier throws, it refuses with its errors, another interaction type throws, or the exact new transaction, response and callback URLs |
| `TransactionLaws.DecideLaw` | apps/vc-api/src/vc-api/exchanges/entities/transaction.entity.ts:102-109 | the stored status is that of this decision, an approval stores its presentation, a rejection keeps the one held; without a review nothing is saved |
| `TransactionLaws.HistoryLaw` | apps/vc-api/src/vc-api/exchanges/entities/transaction.entity.ts:102-190 | after any requests the whole stored transaction is what the history describes: the status of the last decision, the last approved presentation, and the record of the first accepted submission (mediated) or the first holder's latest (unmediated) |
| `TransactionLaws.ForbiddenIff` | apps/vc-api/src/vc-api/exchanges/entities/transaction.entity.ts:120-124 | after any requests a submission is forbidden, with nothing saved and no posts, if and only if a first holder exists (of the first submission accepted at all, or when mediated, accepted while undecided) and is another |
| `ExchangeServices.ExchangeService.CreateExchange` | apps/vc-api/src/vc-api/exchanges/exchange.service.ts:44-51 | rejects an id that exists, otherwise stores the exchange of CreateExchangeLaw, with its one transaction id if and only if it is one-time |
| `ExchangeServices.ExchangeService.StartExchange` | apps/vc-api/src/vc-api/exchanges/exchange.service.ts:58-74 | missing exchange, a failing save when the transaction id is taken, or the new transaction stored |
| `ExchangeServices.ExchangeService.ContinueExchange` | apps/vc-api/src/vc-api/exchanges/exchange.service.ts:83-136 | the whole store, reply and posts for every outcome of a submission |
| `ExchangeServices.ExchangeService.AddReview` | apps/vc-api/src/vc-api/exchanges/exchange.service.ts:168-187 | the whole store and reply of a review |
| `ExchangeServiceRuns.StartShape` | apps/vc-api/src/vc-api/exchanges/entities/exchange.entity.ts:75-97 | a started transaction has the exchange's services in order, each endpoint ending in its own exchange and transaction ids, and is fresh |
| `ExchangeServiceRuns.StartedIff` | apps/vc-api/src/vc-api/exchanges/entities/exchange.entity.ts:76-78 | a start stores a transaction if and only if the exchange exists and is not a one-time exchange already started |
| `ExchangeServiceRuns.AtMostOneTransaction` | apps/vc-api/src/vc-api/exchanges/entities/exchange.entity.ts:27-35 | whatever is stored for a one-time exchange has its one transaction id |
| `ExchangeServiceRuns.RunInv` | apps/vc-api/src/vc-api/exchanges/exchange.service.ts:44-187 | over any run every stored transaction has its own id, exchange, endpoints and the transaction invariant |
| `ExchangeServiceRuns.TransactionsCountStarts` | apps/vc-api/src/vc-api/exchanges/entities/exchange.entity.ts:75-97 | over any run a reusable exchange has exactly one transaction per start and a one-time exchange at most one |
| `ExchangeServiceLaws.CreateExchangeLaw` | apps/vc-api/src/vc-api/exchanges/entities/exchange.entity.ts:27-35 | the stored exchange has its definition's services, queries and callbacks, and a fresh transaction id of its own if and only if the definition is one-time |
| `ExchangeServiceLaws.FirstDefinitionStays` | apps/vc-api/src/vc-api/exchanges/entities/exchange.entity.ts:27-35 | over any run an exchange id stands for the first definition created under it |
| `ExchangeServiceLaws.DefinitionDecidesCount` | apps/vc-api/src/vc-api/exchanges/entities/exchange.entity.ts:32-34 | over any run, counted from the operations alone: a reusable definition gets one transaction per start, a one-time one at most one |
| `ExchangeServiceLaws.StartExchangeLaw` | apps/vc-api/src/vc-api/exchanges/entities/exchange.entity.ts:75-97 | the started transaction has the exchange's services, queries and callbacks, a fresh challenge, and a pending review exactly when mediated; the reply is its request, or a failing save when its id is taken |
| `ExchangeServiceLaws.ContinueExchangeLaw` | apps/vc-api/src/vc-api/exchanges/exchange.service.ts:83-136 | the exact stored transaction, reply and posted URLs of a submission; no other transaction changes |
| `ExchangeServiceLaws.AddReviewLaw` | apps/vc-api/src/vc-api/exchanges/exchange.service.ts:168-187 | the named transaction gets this decision and nothing else changes; missing transactions and missing reviews change nothing |

## Left out

- NestJS controllers, modules, DTO validation, logging and exception filters: wiring without state of its own.
- TypeORM and SQLite behaviour (null against undefined columns, ignored undefined filters, upserts): the store is a map. In particular creating a workflow without an id is modelled as never conflicting.
- JavaScript prototype keys (`workflowSteps['toString']`) and malformed definitions that DTO validation rejects.
- Properties present but undefined: a stored row has a field or does not have it.
- The proof, DID, key and JSON-LD libraries: functions the model takes as given.
- Delivery, retries and logging of callbacks: only the list of posts attempted is modelled.
- The rendering of errors as text: errors are values whose text is given beside their constructors.
- Trailing-slash and prefix handling of the base URL: endpoints are a concatenation onto a given base.
- WorkflowServices.WorkflowService.ParticipateInExchange: its load, compute and save are one atomic method; their interleaving is the state machine of `Interleaving` and `WfExchangeConcurrency`.
- Interleavings of requests on different exchanges: every operation touches one stored exchange only, so they are not treated separately.
- `getWorkflow`, `getExchange` and the other plain reads: they return what is stored.
