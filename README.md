# Gemini key-pool dispatcher — a Dafny model

This project models the request dispatcher of a proxy in front of the Google
Gemini API. The proxy holds a pool of Google API keys and serves many callers.
The model covers two source files.

**`app/queue_manager.py`**
- `GoogleApiKeyManager` keeps, per Google key, a bounded deque of request
  timestamps and the time the key was last used.
  - Every check prunes the stamps that are at least a minute old.
  - The remaining capacity of a key is `rpm_per_key` minus what is left in its window.
  - A key is eligible once `60 / rpm_per_key` seconds have passed since its last use.
  - Selection returns the eligible key with the largest capacity.
- `QueueManager` keeps a priority queue of pending jobs and a table of job
  records keyed by request id.
  - A record's status moves pending → processing → completed | failed.
  - A counter of jobs in flight is bounded by `max_concurrent`.
  - A sweep deletes finished records that are older than an hour.
  - One dispatcher step dequeues the first job and assigns it a Google key.
  - Its completion runs the call and records the result or the error.

**`app/gemini_client.py`**
- `GeminiClient` holds the key list and a current index.
  - It rotates round-robin.
  - It retries a call, rotating the key each time, only when the lower-cased
    error message contains one of five quota phrases. There are at most
    `max_retries + 1` calls.
  - It can be pointed at a given key.

Files:
- `wrappers.dfy`: `Option` and `Result`. An `Err` carries the message of the exception the source raises.
- `key_manager.dfy` (module `KeyManager`):
  - the window functions (`Recent`, `BoundedAppend`);
  - the selection fold `Select` and the status report;
  - class `GoogleApiKeyManager`, whose loops are proved against those functions.
- `gemini_client.dfy` (module `Gemini`):
  - the quota classification `IsQuotaError`;
  - the recursive specification `RetryLoop` of the retry loop;
  - class `GeminiClient`.
- `queue_manager.dfy` (module `QueueManagement`):
  - job records and their ordering;
  - the job-table invariant `JobTable` and the lemmas that each operation keeps it;
  - class `QueueManager`.

Modelling choices:
- **Atomic steps.** Threads and locks are removed. Each method is one atomic step.
  `ProcessQueueStep` is one iteration of the dispatcher loop. `ExecuteRequest` is
  the completion of a dispatched job, which a caller may interleave with further
  steps.
- **Clock and ids.** The clock (`now`) and the fresh request id are parameters.
- **The SDK as an oracle.** The SDK call is an oracle `Upstream`: from the attempt
  number and the current key index to `Success(response) | NoneResult | Error(message)`.
- **The queue as a bag.** The priority queue is a multiset. Dequeueing takes an
  item that no other item precedes in the `__lt__` order.

## Model

| member | source | states |
|---|---|---|
| QueueManagement.Less | app/queue_manager.py:26-30 | priority dominates the queue order: a smaller priority always comes first and a larger one never does; within one priority the earlier timestamp comes first |
| QueueManagement.LessIsStrictWeakOrder | app/queue_manager.py:26-30 | the queue order is irreflexive, transitive and asymmetric; two items are unordered exactly when priority and timestamp coincide |
| QueueManagement.MinimalExists | app/queue_manager.py:273 | every non-empty queue has an item that no other item precedes, so a dequeue always has a candidate |
| KeyManager.Recent | app/queue_manager.py:64-67 | pruning never lengthens a window, and every stamp it keeps was in the window and is newer than the cutoff |
| KeyManager.RecentMembers | app/queue_manager.py:63-67 | a stamp survives pruning iff it was in the window and is strictly newer than `now - 60` |
| KeyManager.RecentCounts | app/queue_manager.py:63-67 | pruning keeps every newer stamp with its multiplicity and drops every other stamp |
| KeyManager.RecentConcat | app/queue_manager.py:63-67 | pruning distributes over concatenation, so the surviving stamps keep their original order |
| KeyManager.RecentOfRecent | app/queue_manager.py:63-67 | pruning at a later cutoff subsumes pruning at an earlier one; pruning twice at the same time changes nothing |
| KeyManager.BoundaryStampExpires | app/queue_manager.py:63-65 | a stamp exactly 60 s old is discarded and a younger one is kept |
| KeyManager.BoundedAppend | app/queue_manager.py:44-46 | appending to a deque bounded to `maxLen` never exceeds `maxLen` entries, and the new stamp is last |
| KeyManager.BoundedAppendDropsOldest | app/queue_manager.py:92 | a deque with room keeps all entries; a full deque drops exactly its oldest entry |
| KeyManager.PruneAll | app/queue_manager.py:60-67 | pruning every window keeps the same keys and never lengthens a window |
| KeyManager.Select | app/queue_manager.py:57-86 | the selection loop returns no key exactly when its running maximum stays -1; a returned key is one of the keys, with capacity at least 0 |
| KeyManager.SelectStep | app/queue_manager.py:82-84 | one iteration of the selection loop replaces the best key exactly when the new key's capacity is strictly larger and its interval has elapsed |
| KeyManager.SelectNoneIff | app/queue_manager.py:54-86 | no key is returned iff no key is both interval-eligible and of capacity above -1; no key is returned iff the running maximum stays -1 |
| KeyManager.SelectIsMaximal | app/queue_manager.py:54-86 | a returned key is one of the keys, is eligible, carries the recorded capacity, and no eligible key has larger capacity |
| KeyManager.SelectEarliestOnTie | app/queue_manager.py:82-84 | on a tie the earliest key in list order wins: every eligible key before the returned one has strictly smaller capacity |
| KeyManager.StatusReport | app/queue_manager.py:98-117 | the status report has exactly one entry per key |
| KeyManager.StatusAgreesWithSelect | app/queue_manager.py:110-115 | per key, requests in the last minute plus available capacity equals `rpm_per_key`, and last use plus time since equals `now`; the key selection returns reports the largest capacity among eligible keys |
| KeyManager.GoogleApiKeyManager.constructor | app/queue_manager.py:35-49 | every key starts with an empty window and a last use of 0; windows are bounded to `2 * rpm_per_key` |
| KeyManager.GoogleApiKeyManager.Create | app/queue_manager.py:35-49 | an empty key list is rejected with an error, and only then; otherwise every key starts with an empty window and a last use of 0 |
| KeyManager.GoogleApiKeyManager.PruneKey | app/queue_manager.py:61-67 | the locked block prunes one key's window, touches nothing else, and yields the new window length |
| KeyManager.GoogleApiKeyManager.GetAvailableKey | app/queue_manager.py:54-86 | every window is pruned at `now - 60`, last-use times are unchanged, and the result is the key `Select` picks on the pruned windows |
| KeyManager.GoogleApiKeyManager.RecordUsage | app/queue_manager.py:88-93 | `now` is appended to that key's bounded window and becomes its last use; no other key changes; the window bound is kept |
| KeyManager.GoogleApiKeyManager.PruneAndReport | app/queue_manager.py:101-115 | the locked block of the status loop prunes one key's window, touches nothing else, and reports that key's status on the pruned window |
| KeyManager.GoogleApiKeyManager.GetAllKeysStatus | app/queue_manager.py:95-117 | every window is pruned at `now - 60`, and the result is the status report over the pruned windows |
| Gemini.Lower | app/gemini_client.py:63 | lower-casing keeps the length, leaves no upper-case letter, and changes no character other than an upper-case letter |
| Gemini.IsQuotaError | app/gemini_client.py:63-69 | a quota error's message is at least as long as the shortest quota phrase, "rate limit" |
| Gemini.LowerIdempotent | app/gemini_client.py:63 | lower-casing twice is lower-casing once |
| Gemini.QuotaIgnoresCase | app/gemini_client.py:63-69 | a message is a quota error iff its lower-cased form is one |
| Gemini.NoTIsNotQuota | app/gemini_client.py:66-69 | a message with no letter t in either case is never a quota error, because every quota phrase contains one |
| Gemini.NoneResponseIsNotQuota | app/gemini_client.py:58-59 | the error raised for a None result is not a quota error |
| Gemini.QuotaPhraseAnywhere | app/gemini_client.py:63-69 | a message whose lower-cased form holds a quota phrase at any position is a quota error |
| Gemini.QuotaPhraseAtStart | app/gemini_client.py:63-69 | a message that starts with a quota phrase, in any case, is a quota error |
| Gemini.RetryLoop | app/gemini_client.py:46-79 | the retry loop leaves a valid key index and makes at least one call when any retry budget is left |
| Gemini.Next | app/gemini_client.py:43 | the next index is `(index + 1) % n` |
| Gemini.Advance | app/gemini_client.py:43 | rotating any number of times keeps the index in range |
| Gemini.RetryTrace | app/gemini_client.py:48-72 | a run makes at most `max_retries + 1` calls and rotates at most once per call; every rotation follows a call that failed with a quota error on the key then current; the final index is the start rotated once per rotation |
| Gemini.RetryEnding | app/gemini_client.py:49-79 | a run succeeds iff its last call succeeded, with that response; otherwise it raises the last call's error, which is non-quota unless every retry was used on quota errors |
| Gemini.FirstSuccessNoRotation | app/gemini_client.py:56-60 | a first call that succeeds is returned at once, with no rotation |
| Gemini.NoneResultNotRetried | app/gemini_client.py:56-59 | a None result on the first call fails at once with the None-response message, with no rotation |
| Gemini.FirstIndexOf | app/gemini_client.py:167-170 | the index found holds the key and no earlier index does |
| Gemini.GeminiClient.constructor | app/gemini_client.py:23-29 | a client starts on key index 0 with two retries |
| Gemini.GeminiClient.Create | app/gemini_client.py:24-25 | an empty key list is rejected with "No Google API keys provided", and only then |
| Gemini.GeminiClient.RotateKey | app/gemini_client.py:41-43 | the index moves to the next key and wraps after the last |
| Gemini.GeminiClient.ExecuteWithRetry | app/gemini_client.py:46-79 | the result and the key left current are those of `RetryLoop` from the current key |
| Gemini.GeminiClient.SetApiKey | app/gemini_client.py:161-170 | an unknown key is rejected with "Invalid API key" and leaves the index alone; a known key becomes current at its first position |
| QueueManagement.Expired | app/queue_manager.py:205-206 | only completed or failed records expire, and a record no older than `max_age` never does |
| QueueManagement.Survivors | app/queue_manager.py:203-210 | the sweep keeps only records that were there, unchanged |
| QueueManagement.SweepRemovesExactlyExpired | app/queue_manager.py:203-207 | a record survives iff it is not completed-or-failed with age over `max_age`; pending and processing records always survive |
| QueueManagement.SweepIsRemoval | app/queue_manager.py:203-210 | the sweep is the table minus the ids its comprehension collects |
| QueueManagement.SweepIdempotent | app/queue_manager.py:199-210 | sweeping twice at the same time is sweeping once |
| QueueManagement.StatusCountsSum | app/queue_manager.py:218-221 | the four status counts add up to the number of records |
| QueueManagement.AddRecordCounts | app/queue_manager.py:175 | filing a new record raises the count of its status by one and no other count |
| QueueManagement.ChangeStatusCounts | app/queue_manager.py:280-282 | changing one record's status moves it from the old status count to the new one |
| QueueManagement.SweepKeepsProcessingCount | app/queue_manager.py:203-207 | the sweep never changes the number of processing records |
| QueueManagement.QueueSizeIsPendingCount | app/queue_manager.py:218-227 | while table and queue agree, the queue size equals the pending count |
| QueueManagement.NewJob | app/queue_manager.py:161-170 | a new job is pending under its id, with no result, error or Google key |
| QueueManagement.Dispatch | app/queue_manager.py:280-281 | a dispatched job is processing with its Google key recorded, and its other fields are unchanged |
| QueueManagement.Finish | app/queue_manager.py:322-338 | a finished job is completed with the result, or failed with the error message; its key and identity are kept |
| QueueManagement.EnqueueKeepsJobTable | app/queue_manager.py:173-175 | enqueueing a fresh pending job keeps the job-table invariant |
| QueueManagement.DispatchKeepsJobTable | app/queue_manager.py:273-289 | dispatching a queued job below the limit keeps the invariant with one more job in flight |
| QueueManagement.FinishKeepsJobTable | app/queue_manager.py:322-343 | finishing a processing job keeps the invariant with one fewer in flight, so the counter never goes negative |
| QueueManagement.SweepKeepsJobTable | app/queue_manager.py:199-210 | the sweep keeps the job-table invariant |
| QueueManagement.QueueManager.constructor | app/queue_manager.py:122-140 | a manager starts with an empty queue and table, nothing in flight, and total RPM equal to keys × `rpm_per_key`; its fresh key manager holds the given keys and rpm, with every window empty and every last use 0 |
| QueueManagement.QueueManager.Create | app/queue_manager.py:122-140 | an empty key list is rejected by the key manager's error, and only then; otherwise the manager starts as the constructor states: empty queue and table, nothing in flight, the given limit, keys and rpm, empty windows and last uses of 0 |
| QueueManagement.QueueManager.EnqueueRequest | app/queue_manager.py:158-182 | the new pending job is filed under the fresh id and queued; no other record changes; the invariant holds |
| QueueManagement.QueueManager.GetRequestStatus | app/queue_manager.py:184-197 | None iff the id is unknown; otherwise the record's id, status, result, error, timestamp and Google key, whose result, error and key agree with its status; nothing changes |
| QueueManagement.QueueManager.DeleteIds | app/queue_manager.py:209-210 | the deletion loop removes exactly the given ids from the table and changes nothing else |
| QueueManagement.QueueManager.CleanOldResults | app/queue_manager.py:199-213 | the table becomes exactly its survivors; queue and counter are unchanged; the invariant holds |
| QueueManagement.QueueManager.GetQueueStats | app/queue_manager.py:215-236 | the counts are those of the table and sum to its size; the queue size equals the pending count; windows are pruned and reported |
| QueueManagement.QueueManager.CanStartNewRequest | app/queue_manager.py:238-241 | under the job-table invariant, a job may start exactly when fewer records are processing than `max_concurrent` |
| QueueManagement.QueueManager.DispatchJob | app/queue_manager.py:273-289 | a first job in queue order leaves the queue, becomes processing on the key, and is counted in flight; the invariant holds |
| QueueManagement.QueueManager.ProcessQueueStep | app/queue_manager.py:249-302 | after the sweep: stops on an empty queue, then at the concurrency limit, then when selection gives no key or an empty key; otherwise a first job is dispatched on the selected key, whose usage is recorded; the invariant holds |
| QueueManagement.QueueManager.ExecuteRequest | app/queue_manager.py:311-343 | the job ends completed or failed with the outcome of `RetryLoop` from the job's key, and the client is left on that run's final key index; an unknown key fails the job with "Invalid API key" and leaves the client's index alone; the counter drops by one |

## Left out

- Threads, locks, `stop_event`, `start_processing`/`stop_processing` and the sleep cadence of the dispatcher loop: each method is one atomic step. Any interleaving of dispatcher steps and completions keeps the invariant, because each step keeps it.
- Concurrent use of the shared client: in the system, completions running at once call `set_api_key` and rotate one shared index. The model runs one completion at a time.
- `time.time()` and `uuid.uuid4()` are parameters. A dispatcher step uses one `now` for the sweep, the selection and the usage record. The source reads the clock separately in each.
- Times are exact `real` numbers, not floating point. `60.0 / rpm_per_key` is exact division.
- `rpm_per_key > 0` is a constructor precondition, since 60/0 would divide by zero. The key lists are non-empty in the constructors. The `Create` methods model the `ValueError` for an empty list.
- GoogleApiKeyManager.Create: the message is an English rendering of the source's Korean one.
- ProcessQueueStep: heap ties are left open. The dequeued job is some job that no other job precedes, not the one Python's heap happens to return. The unreachable branch where `queue.get` fails right after a non-empty check is not modelled.
- ProcessQueueStep: the counter increment is performed before `record_usage`. No state the model observes lies between the two, so the order makes no difference.
- RecordUsage: a key outside the list, which is a `KeyError` in the source, is a precondition. The dispatcher only passes selected keys.
- ExecuteRequest: `getattr(client, item.operation)`, the config conversion in `generate_content` and the other wrappers, and the SDK call are folded into the oracle `Upstream`. In the source, an unknown operation name and a failed config conversion raise before `execute_with_retry` runs, so they are never classified or retried. In the model they are an error on the first attempt. Such an error whose message contains a quota phrase (a conversion error echoing a user value such as 'rate limit') is retried with a rotation in the model, where the source fails the job at once.
- ExecuteRequest: the completion takes the job from the table, where the source takes the item object it was handed. In the source the two are the same object.
- Lower: only ASCII letters are lower-cased, whereas Python's `str.lower` covers all of Unicode. This does not change `IsQuotaError`. The only non-ASCII characters that lower to ASCII letters are U+212A, which becomes `k`, a letter no quota phrase contains, and U+0130, which becomes `i` followed by U+0307, a mark that breaks the phrase.
- RotateKey: stated through `Next`, which equals `(index + 1) % n`. The closed form of `Advance` as a sum modulo `n` is not proved.
- Logging, `load_file_to_part`, the database, the HTTP routers and proxy-key generation are not part of this model.
- The code has no daily window, no cooldown after upstream rejection, no least-recently-used tie-break and no cancellation; neither has the model.
- An empty-string key returned by selection counts as no key (`if not google_api_key`), as in the code.
