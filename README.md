# Expired-post reaper

A Dafny model of `cleanup_expired_posts_task`, the background task of the
Telegram events bot that deletes expired posts and releases their images.
The task loops forever. Each iteration does the following:

- sleeps ten minutes, then acquires a database session;
- lists the expired posts and stops the iteration if there are none;
- deletes the posts' rows;
- when the deleted count is non-zero, deletes the image of every listed post
  that has one, logging and skipping failures for single images;
- on an ordinary error, rolls the session back and sleeps thirty minutes;
- on cancellation, logs and leaves the loop;
- always closes a session it acquired.

The session factory, the post service, the file storage and the session
itself are not part of this model. Every awaited call is replaced by its
outcome, written in advance in a `Script`, one per iteration: it returns a
value, raises an ordinary `Exception` (`Fail`), or raises
`asyncio.CancelledError` (`Cancel`). What the task does is recorded as a
trace of `Event`s:

- the sleeps with their durations, 600 and 1800 seconds;
- `Acquire`, `List`, `DeleteRows`;
- `AttemptBlob(id)`, the start of the attempt for one image, before the storage
  accessor is awaited;
- `DeleteFile(id)`, the call of `delete_file` for one image, made only when
  the storage is there;
- the two per-image error logs, `StorageMissing` and `BlobFailed(id)`;
- `Rollback` and `Close`;
- `Stop`, which is the cancellation log followed by `break`.

Modules:

- `ReaperTypes`: the outcomes, descriptors, scripts and events.
- `ReaperSpec`: the task as functions of the scripts:
  - `AttemptImage`, the inner `try` for one image;
  - `ImagePass`, the `for` loop over the descriptors;
  - `Body`, the outer `try` body;
  - `Except`, its two `except` clauses;
  - `Cycle`, one iteration including `finally`;
  - `Run`, a bounded run of iterations.
- `Reaper`: the task as imperative methods. Each is proved equal to the
  function it implements:
  - `DeleteImages`, with a loop over the descriptors;
  - `TryBody`, `Handle` and `Iteration`;
  - `CleanupExpiredPosts`, with a loop that appends each iteration's trace.
- `ImageLoopProperties`, `CycleProperties`, `RunProperties`: what the
  per-image loop, one iteration and a run guarantee.
- `Scenarios`: fully worked iterations.

The model follows Python 3.8 and later, where `CancelledError` is not an
`Exception`, so none of the `except Exception` clauses catches it. This
gives the following behaviour:

- A cancellation raised while an image is being deleted escapes the inner
  `try` and reaches the outer cancellation handler.
- A cancellation raised in `rollback`, in the backoff sleep or in `close`
  escapes the handlers. `finally` still runs, and then the task ends
  (`Escape`/`Escaped`).
- `db` is reset to `None` at the start of every iteration. So rollback and
  close happen only in an iteration that acquired a session.

Three behaviours of the code may be unexpected. The model follows the code
in each:

- **Cancellation during deletion.** One might expect the session to be
  rolled back when a cancellation arrives while rows are being deleted. The
  code only logs, breaks and closes the session (see
  `Scenarios.CancelDuringRowDeletion` and
  `CycleProperties.CancellationSkipsRecovery`).
- **Order of image deletions.** Image deletions are independent, so any
  order would do. The code deletes one image at a time in list order, and
  the model proves that order.
- **Cancellation in the handlers.** One might expect every cancellation to
  end in a logged, clean stop. In the code, a cancellation during the
  rollback or the backoff sleep ends the task without the cancellation log.

## Model

| member | source | states |
|---|---|---|
| ReaperSpec.TruthyIds | new/main.py:48-50 | The ids taken from the descriptors are non-empty, each belongs to one of the descriptors, and there are no more of them than descriptors. |
| ReaperSpec.StoredIds | new/main.py:48-55 | The ids that reach `delete_file` are non-empty and no more than the descriptors. |
| ReaperSpec.Run | new/main.py:37-76 | A run never performs more iterations than it has scripts. |
| Reaper.DeleteImages | new/main.py:48-59 | The loop over the descriptors produces exactly the events and the cancellation of the per-image pass `ImagePass`. It stops at the first cancellation. |
| Reaper.TryBody | new/main.py:39-59 | The imperative `try` body produces the events of `Body`. It also reports whether a session was acquired and whether an error or a cancellation escaped. |
| Reaper.Handle | new/main.py:60-70 | The two `except` clauses produce the events and the control outcome of `Except`. |
| Reaper.Iteration | new/main.py:37-76 | One iteration (body, handlers, `finally`) produces the trace and control outcome of `Cycle`. |
| Reaper.CleanupExpiredPosts | new/main.py:32-76 | The loop appends each iteration's trace until an iteration leaves the loop or the scripts run out. The trace and exit equal `Run`. |
| ImageLoopProperties.AttemptImageFacts | new/main.py:50-59 | An attempt for one image starts with `AttemptBlob(id)` and is the only attempt it records. It logs `BlobFailed(id)` exactly when the accessor or `delete_file` raises an ordinary error. It logs `StorageMissing` exactly when there is no storage. It is cancelled exactly when one of the two calls is cancelled. |
| ImageLoopProperties.AttemptDeletes | new/main.py:52-55 | One attempt calls `delete_file` for its own id exactly when the storage is there, whether that call then returns, fails or is cancelled; otherwise not at all. |
| ImageLoopProperties.ImagePassDeletes | new/main.py:48-55 | The `delete_file` calls of the loop are a prefix of the truthy `image_id`s whose storage is there, in list order with duplicates; without cancellation they are all of them. |
| ImageLoopProperties.ImagePassOnlyImages | new/main.py:48-59 | The per-image loop produces nothing but per-image events. |
| ImageLoopProperties.ImagePassAttempts | new/main.py:48-59 | The attempts are a prefix of the truthy `image_id`s in list order. With no cancellation they are all of them. The pass is cancelled exactly when some truthy descriptor's attempt is cancelled. |
| ImageLoopProperties.CancelledPassIsFinal | new/main.py:51-62 | A cancellation leaves the `for` loop: later descriptors change nothing. |
| ImageLoopProperties.AttemptLogCounts | new/main.py:51-59 | One attempt logs a missing storage exactly once when there is none, and the failure of its own id exactly once when the accessor or `delete_file` raises an ordinary error; otherwise neither. |
| ImageLoopProperties.ImageLogCounts | new/main.py:48-59 | Without cancellation, the loop logs one missing storage per truthy descriptor that finds none, and one failure of id `x` per truthy descriptor for `x` whose attempt fails, duplicates logged again. |
| ImageLoopProperties.ImagePassGrows | new/main.py:48-59 | The loop only appends: its trace for the first `i` descriptors is a prefix of its trace for all of them. |
| ImageLoopProperties.ImageFailuresLogged | new/main.py:51-59 | Every failure reached before any cancellation is logged, one line per failing attempt, even when a later attempt is cancelled. |
| ImageLoopProperties.TruthyIdsGrow | new/main.py:48-50 | The truthy ids of the first `i` descriptors are a prefix of those of all descriptors. |
| ImageLoopProperties.TruthyIdsPosition | new/main.py:48-50 | Every truthy descriptor contributes its own entry: the `image_id` of descriptor `k` stands right after the ids of the descriptors before it, so all truthy ids are kept, in order, duplicates included. |
| ImageLoopProperties.CancelledPassAttempts | new/main.py:48-62 | When the first cancelled attempt is that of descriptor `k`, the loop is cancelled and has attempted exactly the truthy ids up to and including descriptor `k`. |
| CycleProperties.CallsFacts | new/main.py:40-45 | The calls are made in program order and start with the 600-second sleep. Each is made only if the one before it returned. Row deletion precedes the image loop. |
| CycleProperties.BodyOutcome | new/main.py:39-59 | The body holds a session exactly when `get_db_session` returned. An ordinary error escapes exactly when acquire, list or delete-rows raised one. A cancellation escapes exactly when one of the sleep, the calls or an image attempt was cancelled. |
| CycleProperties.BodyParts | new/main.py:40-59 | The body's trace is its calls followed by per-image events. There are per-image events only after rows were deleted with a non-zero count. |
| CycleProperties.BodyEvents | new/main.py:40-59 | The body starts with the sleep and never rolls back, backs off, logs a stop or closes. Every image attempt comes after `DeleteRows`, and the attempts are the truthy ids (a prefix of them under cancellation). |
| CycleProperties.BodyQuiet | new/main.py:39-59 | The body records no `Stop`, `Rollback`, `Close` or backoff sleep. |
| CycleProperties.HandlersOnly | new/main.py:60-70 | The handlers record only handler events and never `close`. |
| CycleProperties.HandlersAfterBody | new/main.py:60-76 | After the body, an iteration records only handler events and `close`, and no image attempt. |
| CycleProperties.AfterCalls | new/main.py:45-76 | After its calls, an iteration records only image events, handler events and `close`. |
| CycleProperties.SleepComesFirst | new/main.py:40-62 | Every iteration starts with the 600-second sleep. A cancelled sleep leads straight to the stop and `break`, with nothing else. |
| CycleProperties.CallsInOrder | new/main.py:40-45 | A session is requested exactly when the sleep was not cancelled. The listing is made exactly when a session is held. Rows are deleted exactly when something was listed. |
| CycleProperties.EmptyListingIsQuiet | new/main.py:43-76 | An empty listing gives the trace sleep, acquire, list, close. The loop continues unless `close` is cancelled. |
| CycleProperties.RowsDeletedBeforeImages | new/main.py:45-50 | Every image attempt comes after `DeleteRows` and only when the deleted count is non-zero. A count of 0 means no attempt. |
| CycleProperties.ImageAttemptsExact | new/main.py:46-55 | The iteration's attempts are exactly the listing's truthy `image_id`s in list order, duplicates included, unless cut short by a cancellation. There are none without rows deleted at a non-zero count. |
| CycleProperties.FileDeletesExact | new/main.py:45-55 | The ids an iteration passes to `delete_file` are the listing's truthy `image_id`s whose storage is there, in list order with duplicates (a prefix under cancellation), and there are none without rows deleted at a non-zero count. |
| CycleProperties.OnlyCancellationLeavesLoop | new/main.py:37-76 | The loop is left exactly when a cancellation is raised somewhere the iteration reaches. It is left by `break` exactly when the cancellation came from the body and `close` was not cancelled. |
| CycleProperties.ImageErrorsSwallowed | new/main.py:51-59 | Failing images do not stop the other attempts. There is no rollback, backoff or stop, the session is closed last, and the loop goes on unless `close` is cancelled. |
| CycleProperties.StoreErrorBacksOff | new/main.py:63-70 | An ordinary error in acquire, list or delete-rows stops the body with no image attempt. A held session is rolled back before the backoff sleep and then closed. The loop continues unless the rollback, the backoff sleep or `close` is cancelled, and is never left by `break`. |
| CycleProperties.StoreErrorWithSession | new/main.py:63-76 | With a session held, an ordinary error leaves the trace ending in rollback, backoff sleep, close (in rollback, close if the rollback is cancelled). The loop goes on only if none of the three is cancelled. |
| CycleProperties.StoreErrorWithoutSession | new/main.py:63-70 | If acquiring the session fails, the trace is sleep, acquire, backoff sleep, with neither rollback nor close. The loop goes on unless the backoff is cancelled. |
| CycleProperties.CancellationSkipsRecovery | new/main.py:60-62 | A cancellation in the body is logged and leaves the loop with no rollback and no backoff sleep. A held session is still closed after the log. |
| CycleProperties.HandlerCounts | new/main.py:63-68 | The handlers never close. They roll back exactly once after an ordinary error with a session held. |
| CycleProperties.CountAfterBody | new/main.py:60-76 | Handler events in an iteration come only from the handlers and from `finally`'s single `close`. |
| CycleProperties.CloseIsLast | new/main.py:71-76 | `close` is the last action exactly when a session was acquired. |
| CycleProperties.SessionClosedOnce | new/main.py:71-76 | An acquired session is closed exactly once per iteration on every path. It is rolled back at most once, only after an ordinary error. An unacquired one is never rolled back or closed. |
| RunProperties.RunShape | new/main.py:37-76 | A run is its first `cycles` iterations in order. All scripts are used while the loop runs. Otherwise the last iteration's control is what ended the run. |
| RunProperties.RunExit | new/main.py:37-62 | The exit of a run is decided by the last iteration it performed. |
| RunProperties.RunTrace | new/main.py:37-76 | A run's trace is its iterations' traces in order. |
| RunProperties.RunStartsWithSleep | new/main.py:37-42 | A run starts with the 600-second sleep, before any session or query. |
| RunProperties.RunControl | new/main.py:37-76 | Every iteration but the last continued the loop. The last continued it exactly when the scripts ran out. |
| RunProperties.NoCycleAfterExit | new/main.py:60-62 | Once the loop is left, no further iteration runs. |
| RunProperties.UninterruptedRunKeepsGoing | new/main.py:63-70 | Without cancellation the loop never ends: ordinary errors are absorbed and every script is used. |
| RunProperties.TracesCloseSessions | new/main.py:71-76 | Across iterations, the number of `close` calls is the number of sessions acquired. |
| RunProperties.RunClosesEverySession | new/main.py:71-76 | No session acquired during a run is left unclosed. |
| RunProperties.EmptyStoreRunsQuietly | new/main.py:40-44 | Against an empty store, every iteration sleeps, acquires, lists and closes, and the loop continues. |
| Scenarios.MixedAttachments | new/main.py:45-55 | For posts `a`, no image, `c` with count 3, the trace is rows deleted, then the attempt and the `delete_file` call for `a`, then for `c`, then close. |
| Scenarios.MixedAttachmentsOneFails | new/main.py:51-59 | When `delete_file` for `c` fails, the failure is logged right after that call and the iteration still continues. |
| Scenarios.CancelDuringRowDeletion | new/main.py:45-62 | A cancellation during row deletion logs the stop and closes without rolling back. |

## Left out

- `main()` (new/main.py:78-162) is out of scope: configuration, bot and dispatcher wiring, polling and engine disposal.
- Module-level logging configuration (new/main.py:28-30) and the start-up log line (new/main.py:35) are out of scope.
- Log message texts are left out. Only the two per-image error logs and the cancellation log appear, as abstract events. The deleted-count log (new/main.py:47) and the error log of the handler (new/main.py:69) are not recorded.
- Real time and asynchronous scheduling are left out. Sleeps are events carrying their durations.
- The sleeps are assumed to raise nothing but a cancellation. A sleep's only outcome is whether it was cancelled.
- The storage accessor's double await (new/main.py:52-54) is one outcome: storage present, storage absent, or an ordinary error or cancellation from either await.
- The truthiness of the session object is not modelled. A returned session is assumed truthy.
- Descriptors are assumed to be dictionaries whose `image_id` is absent, `None` or a string. A descriptor that is not a dictionary would raise outside the inner `try`; that path is not modelled.
- Transactions and atomicity in the store are not modelled. The store is an opaque oracle.
- Reaper.CleanupExpiredPosts: the source loop has no bound. The model runs at most one iteration per script, and a run whose scripts run out ends `Running`.
- Behaviour of the collaborators `get_db_session`, `PostService`, `get_file_storage`, `delete_file`, `rollback` and `close` is not modelled. They live in files that are not part of this model, and each call is reduced to its scripted outcome.
