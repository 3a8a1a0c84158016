# sidekiq-batch callbacks, modelled in Dafny

This project models `lib/sidekiq/batch/callback.rb` of sidekiq-batch. That file holds the two
halves of batch callbacks:

- **`Callback::Worker#perform`**, the job that runs a user's callback handler. It ignores any
  event other than `success` and `complete`. It splits a handler descriptor `"Class#method"`,
  defaults the method to `on_<event>`, resolves the class, and calls the method only when the
  handler instance responds to it. The handler gets a `Status` built from `bid`.
- **`Callback::Finalize`**, the cascade. When a batch finishes, `success` or `complete` adds
  the batch id to its parent's `success`/`complete` sets in one Redis `MULTI`. It then reads back
  the parent's `pending` and `children` counters and the set cardinalities, and decides whether to
  enqueue the parent's `success` and/or `complete` callbacks. `dispatch` routes an event to one of
  these routines and then cleans up the callback batch and, on success, the data batch.

Files:

- `wrappers.dfy`: `Option` (Ruby's `nil`) and `Result` (a raised exception).
- `ruby_split.dfy`: Ruby's `String#split` on a one-character separator. Empty fields at the end
  are dropped; leading and inner empty fields are kept.
- `callback_worker.dfy`: `perform` as a function. It works against a registry that maps class
  names to the methods their instances respond to, and returns what the call did.
- `finalize_steps.dfy`: the batch record, the store (a map from batch id to record) and one
  function per finalizer operation. Each function returns the new store and the effects emitted,
  where an effect is `Enqueue(event, bid)` or `Cleanup(bid)`. Lemmas about one call sit beside them.
- `finalize_cascade.dfy`: many children reporting one after another, including the exactly-once
  theorems.
- `finalize.dfy`: the class `Finalizer`. It holds the store and the effect log. Its methods
  perform each `MULTI` as one update, and each is proved equal to its step function.

A missing Redis key reads as zero counters and empty sets, as `HINCRBY key field 0` and `SCARD`
do. `HINCRBY` by 0 also creates the hash, so `complete` writes the batch's own record back as it
reads it.

Two behaviours one might expect from a batch callback are not what the code does, and the model
follows the code: an idempotent replay does not stay silent, and re-entry after cleanup is not a
no-op. Descriptor parsing also has edge cases worth naming:

- **Replay.** The cascade fires whenever the equality holds after the add. It does not check
  whether this add made the equality hold. A replayed `success` or `complete` against the state
  it produced changes nothing, but it enqueues the same callbacks again (`SuccessReplay`,
  `CompleteReplay`). So at-most-once under replay is not a property of this file. Any
  deduplication would happen inside `Sidekiq::Batch.enqueue_callbacks`, which is not part of this
  model. What the code does guarantee is exactly once for distinct children reporting once each
  (`ExactlyOnceSuccess`, `ExactlyOnceComplete`).
- **Re-entry after cleanup.** A `success` reported to a parent whose record is gone enqueues
  nothing. It does write the parent's sets again, with the child as their only member
  (`SuccessAfterCleanup`). A `complete` on a batch whose own record is gone is not a no-op at all:
  it reads zero pending jobs, zero children and no successes, so the batch's own success condition
  holds and its success callback is enqueued again (`CompleteAfterCleanup`).
- **Descriptor edge cases.** Parsing follows Ruby's `split`:
  - `"#"` yields no class, so nothing happens and no error is raised.
  - `"A#"` and `"A##"` yield the default method.
  - `"A##c"` yields the method `""`, so the call is skipped unless the registry lists `""` for
    `A`.

## Model

| member | source | states |
|---|---|---|
| `RubySplit.JoinFields` | lib/sidekiq/batch/callback.rb:9 | cutting a string at every separator and joining the fields with the separator gives the string back |
| `RubySplit.FieldsJoin` | lib/sidekiq/batch/callback.rb:9 | joining separator-free fields and cutting the result again gives the same fields |
| `RubySplit.Split` | lib/sidekiq/batch/callback.rb:9 | Ruby's `split("#")`: the fields between separators with the trailing empty ones dropped; its properties are stated by `DropTrailingEmpty`, `SplitHasFirst`, `SplitHasSecond`, `JoinFields` and `FieldsJoin` |
| `RubySplit.DropTrailingEmpty` | lib/sidekiq/batch/callback.rb:9 | the result is a prefix of the fields, does not end in an empty field, and every field it drops is empty |
| `RubySplit.SplitHasFirst` | lib/sidekiq/batch/callback.rb:9 | `split` yields a first element iff the string is not all separators, and that element is the text before the first separator |
| `RubySplit.SplitHasSecond` | lib/sidekiq/batch/callback.rb:9 | `split` yields a second element iff a non-separator follows the first separator, and that element is the text between the first and second separators |
| `CallbackWorker.ParseDescriptor` | lib/sidekiq/batch/callback.rb:9-10 | a nil descriptor yields no class, and a descriptor without `#` is the class itself; both get method `on_<event>`; a parsed class name never contains `#` |
| `CallbackWorker.DescriptorWithHash` | lib/sidekiq/batch/callback.rb:9-10 | with a `#`, the class is the text before the first `#` (none if the descriptor is all `#`); the method is the text up to the next `#`, or `on_<event>` when only `#` follows the first one |
| `CallbackWorker.DescriptorClassMethod` | lib/sidekiq/batch/callback.rb:9-10 | `"Name#m"` names class Name and method m; `"Name#"` names class Name and method `on_<event>` |
| `CallbackWorker.Perform` | lib/sidekiq/batch/callback.rb:7-16 | the call is ignored iff the event is neither success nor complete; an unresolved class is an error naming a class missing from the registry; a skipped call names a method the handler lacks; an invocation calls a method the handler has, with the status of `bid` and the original options |
| `CallbackWorker.PerformInvokesIff` | lib/sidekiq/batch/callback.rb:8-16 | every outcome is tied to the parsed descriptor in both directions: the handler is invoked iff the event is handled, the parsed class resolves and its instance responds to the parsed method, and that is the call made; resolution fails iff a parsed class is not in the registry, naming it; nothing happens for lack of a class iff the descriptor yields none; the call is skipped iff the class resolves (and is instantiated) but lacks the parsed method, naming both |
| `CallbackWorker.PerformIndependence` | lib/sidekiq/batch/callback.rb:7-11 | an ignored event gives the same outcome under any registry (nothing is looked up), and `parent_bid` never changes the outcome |
| `CallbackWorker.ScenarioExplicitMethod` | lib/sidekiq/batch/callback.rb:9-15 | `"Reporter#on_done"` on success calls `Reporter#on_done` with the batch's status |
| `CallbackWorker.ScenarioDefaultMethod` | lib/sidekiq/batch/callback.rb:10-15 | `"Reporter"` on complete calls `on_complete`, and is a silent skip when Reporter lacks it |
| `FinalizeSteps.DispatchStep` | lib/sidekiq/batch/callback.rb:24-30 | dispatch fails, with the event's name, exactly when the event is neither success nor complete |
| `FinalizeSteps.CleanupRedisEffects` | lib/sidekiq/batch/callback.rb:95-98 | `cleanup_redis` cleans up `bid` first, then the callback batch second when one is given, and nothing else: one call, or two |
| `FinalizeSteps.SuccessWithoutParent` | lib/sidekiq/batch/callback.rb:41 | success without a parent leaves the store unchanged and enqueues nothing |
| `FinalizeSteps.SuccessParentUpdate` | lib/sidekiq/batch/callback.rb:43-52 | success adds bid to the parent's success and complete sets; each cardinality grows by 1 if bid was absent and by 0 if present; counters and failed set are unchanged; no other record changes |
| `FinalizeSteps.SuccessDecision` | lib/sidekiq/batch/callback.rb:56-58 | parent success is enqueued iff pending is 0 and children equals the success cardinality after the add; parent complete iff the complete cardinality equals children and pending equals the failed cardinality; nothing else, and each at most once (the number of enqueues is the number of conditions that hold); success comes first when both fire |
| `FinalizeSteps.SuccessMayFireBoth` | lib/sidekiq/batch/callback.rb:56-58 | one success call can enqueue both parent callbacks (a parent with one child and no jobs) |
| `FinalizeSteps.SuccessReplay` | lib/sidekiq/batch/callback.rb:44-58 | replaying success against the state it produced leaves the store unchanged and repeats the same enqueues |
| `FinalizeSteps.SuccessStep` | lib/sidekiq/batch/callback.rb:39-60 | `Finalize#success` as a step on the store; its properties are stated by `SuccessWithoutParent`, `SuccessParentUpdate`, `SuccessDecision`, `SuccessReplay` and `SuccessAfterCleanup` |
| `FinalizeSteps.CompleteStep` | lib/sidekiq/batch/callback.rb:62-94 | `Finalize#complete` as a step on the store; its properties are stated by `CompleteOwnSuccess`, `CompleteCascade`, `CompleteWithoutParent`, `CompleteReplay` and `CompleteAfterCleanup` |
| `FinalizeSteps.CompleteAfterCleanup` | lib/sidekiq/batch/callback.rb:63-72 | complete on a batch with no record recreates it empty and enqueues that batch's own success callback, since zero pending and zero children equal zero successes |
| `FinalizeSteps.SuccessAfterCleanup` | lib/sidekiq/batch/callback.rb:41-58 | success reported to a parent with no record enqueues nothing and recreates the parent's sets holding only bid |
| `FinalizeSteps.CompleteOwnSuccess` | lib/sidekiq/batch/callback.rb:63-78 | when the batch's own success condition holds, complete enqueues success for the batch itself and nothing else; every record reads as before, so the parent's complete set is untouched |
| `FinalizeSteps.CompleteCascade` | lib/sidekiq/batch/callback.rb:78-92 | otherwise, with a parent, bid is added to the parent's complete set only (the success set is unchanged); counters, failed set and other records are unchanged; parent complete is enqueued iff its complete condition holds after the add, exactly once then, and nothing else |
| `FinalizeSteps.CompleteWithoutParent` | lib/sidekiq/batch/callback.rb:72-78 | without own success and without a parent, complete enqueues nothing and changes no record as read |
| `FinalizeSteps.CompleteReplay` | lib/sidekiq/batch/callback.rb:63-92 | replaying complete against the state it produced leaves the store unchanged and repeats the same enqueues |
| `FinalizeSteps.RoutinesOnlyEnqueue` | lib/sidekiq/batch/callback.rb:56-92 | success and complete only enqueue callbacks; they never clean up |
| `FinalizeSteps.DispatchRoutes` | lib/sidekiq/batch/callback.rb:22-30 | dispatch runs exactly the routine the event names, for `opts["bid"]` with the parent from that batch's status: same store, and its effects come first |
| `FinalizeSteps.DispatchCleanup` | lib/sidekiq/batch/callback.rb:25-36 | `opts["bid"]` is cleaned up iff the event is success; the callback batch is cleaned up whenever it differs from `opts["bid"]`; no other batch is cleaned up; every cleanup comes after every enqueue; after the routine's effects come only cleanups, one per branch taken |
| `FinalizeCascade.AfterSuccessesParent` | lib/sidekiq/batch/callback.rb:44-50 | after a run of success calls, the parent's success set is the old set plus the reporting children; counters and failed set are unchanged |
| `FinalizeCascade.SuccessFiredAtIff` | lib/sidekiq/batch/callback.rb:56 | the k-th success call enqueues parent success iff the parent's success condition holds once the first k+1 children have reported |
| `FinalizeCascade.SuccessCascadeAt` | lib/sidekiq/batch/callback.rb:44-56 | for distinct children not yet in the success set, the k-th report fires parent success iff pending is 0 and children equals the initial success count plus k+1, so at most one report fires |
| `FinalizeCascade.ExactlyOnceSuccess` | lib/sidekiq/batch/callback.rb:44-56 | for a parent with pending 0, N children and an empty success set, N distinct children reporting success once each fire parent success on the N-th report and on no earlier one |
| `FinalizeCascade.ReportStepParent` | lib/sidekiq/batch/callback.rb:44-92 | one report, by success or by a complete without own success, adds the child to the parent's complete set; it keeps the parent's counters and failed set; it fires parent complete iff the complete condition holds after; only a success report fires parent success |
| `FinalizeCascade.AfterReportsParent` | lib/sidekiq/batch/callback.rb:47-89 | after a run of reports, the parent's complete set is the old set plus all reporting children; counters and failed set are unchanged |
| `FinalizeCascade.AfterReportsOthers` | lib/sidekiq/batch/callback.rb:44-92 | a run of reports to one parent leaves every other batch's record as it read before, so each child's own success and complete decisions are independent of its siblings |
| `FinalizeCascade.ReportFiredAtIff` | lib/sidekiq/batch/callback.rb:58-92 | the k-th report enqueues parent complete iff the parent's complete condition holds after the first k+1 reports |
| `FinalizeCascade.CompleteCascadeAt` | lib/sidekiq/batch/callback.rb:47-92 | for distinct children not yet in the complete set, the k-th report fires parent complete iff children equals the initial complete count plus k+1 and pending equals the failed count |
| `FinalizeCascade.ExactlyOnceComplete` | lib/sidekiq/batch/callback.rb:47-92 | for a parent with an empty complete set, N children and as many pending jobs as failed ones, N distinct children reporting once each, by success or complete, fire parent complete on the N-th report and on no earlier one |
| `CallbackFinalize.Finalizer.Success` | lib/sidekiq/batch/callback.rb:39-60 | the new store and appended effects are those of `SuccessStep`: no parent means no change; otherwise bid is in both parent sets, and each callback is enqueued iff its condition holds on the parent's new record |
| `CallbackFinalize.Finalizer.Complete` | lib/sidekiq/batch/callback.rb:62-94 | the new store and appended effects are those of `CompleteStep`: own success means only that batch's success is enqueued and no record changes as read; otherwise, with a parent, only its complete set gains bid, and parent complete is enqueued iff the condition holds |
| `CallbackFinalize.Finalizer.Dispatch` | lib/sidekiq/batch/callback.rb:21-37 | the new store and appended effects are those of `DispatchStep`; an unknown event changes nothing and returns the error; on success of the call, `opts["bid"]` is cleaned up iff the event is success |
| `CallbackFinalize.Finalizer.CleanupRedis` | lib/sidekiq/batch/callback.rb:95-98 | appends the cleanup of `bid` and then of `callback_bid` when given; the store is unchanged |

## Left out

- Redis I/O, `MULTI` semantics and concurrency. Each `r.multi` block is atomic, and the runs in
  `FinalizeCascade` interleave whole `success` and `complete` calls, not blocks.
- FinalizeSteps.CompleteStep: the two transactions of `complete` (lines 63-69 read the batch's own
  counters; lines 82-90 add to the parent and read it back) are modelled as one step, so the window
  between them, where another report may land, is not modelled. Reports to one parent leave every
  other batch's record unchanged (`AfterReportsOthers`), so reports from the child's siblings
  cannot change the child's own read across that window. Reports from the child's own children,
  and job accounting on the child's own record, could change it; those are not modelled.
- The `expire` on the parent's success set (line 45): it is timing, not logic.
- Logging (lines 27, 40 and 79).
- Ruby reflection (`Object.const_get`, `new`, `respond_to?`, `send`). It is replaced by a
  registry of class names and their methods, and a call is recorded as an `Invocation` value.
  These are not modelled: a name that is not a valid constant name (it reads as a missing
  class), a constant whose value is `nil` or `false`, and exceptions raised by the handler.
- A descriptor that is neither `nil` nor a string (the `clazz.class == String` guard on line 9):
  the model's descriptor is `nil` or a string.
- `Sidekiq::Batch.enqueue_callbacks`, `Sidekiq::Batch.cleanup_redis` and `Sidekiq::Batch::Status`
  are not part of this model. Enqueueing and cleanup are recorded as effects. The keys that
  `cleanup_redis` deletes are not removed from the store, because its body is not shown.
  `Status#parent_bid` is a lookup in a fixed map.
- The `status` argument of `success` and `complete` is never read by them, so the model's
  routines do not take it.
- `dispatch` with `opts` missing `"bid"` or `"event"` (`nil.to_sym` raises) is not modelled. For
  an event other than success or complete, Ruby's `send` raises before any cleanup, or may reach
  some other method of the same name with three arguments. Both are modelled as an
  `UnknownEvent` error that changes nothing.
- Worker scheduling, retries and at-least-once delivery are external to this file.
