/**
 * The job table and dispatcher of app/queue_manager.py (class QueueManager):
 * a priority queue of pending jobs, a table of job records keyed by request
 * id whose status moves pending -> processing -> completed | failed, a
 * counter of jobs in flight bounded by the concurrency limit, a sweep of old
 * finished records, and one step of the dispatcher followed, later, by the
 * completion of the job it dispatched.
 *
 * Threads and locks are gone: each method is one atomic step. The clock and
 * the fresh request id are parameters.
 */
module QueueManagement {
  import opened Wrappers
  import opened KeyManager
  import opened Gemini

  /** Lifecycle of a job. */
  datatype Status = Pending | Processing | Completed | Failed

  /** A job: who asked, when, for what, and what came of it. */
  datatype QueueItem = QueueItem(
    id: string,
    apiKey: string,
    timestamp: real,
    priority: int,
    model: string,
    operation: string,
    args: map<string, string>,
    result: Option<Response>,
    error: Option<string>,
    status: Status,
    googleApiKey: Option<string>)

  /** Age after which the dispatcher sweeps finished records, in seconds. */
  const CleanMaxAge: int := 3600

  /** Queue order: smaller priority first, then earlier enqueue time. */
  predicate Less(a: QueueItem, b: QueueItem)
    ensures a.priority < b.priority ==> Less(a, b)
    ensures Less(a, b) ==> a.priority <= b.priority
    ensures a.priority == b.priority ==> (Less(a, b) <==> a.timestamp < b.timestamp)
  {
    if a.priority != b.priority then a.priority < b.priority else a.timestamp < b.timestamp
  }

  /** The queue order is a strict weak order: irreflexive, transitive, and
      two items are unordered exactly when priority and time coincide. */
  lemma LessIsStrictWeakOrder(a: QueueItem, b: QueueItem, c: QueueItem)
    ensures !Less(a, a)
    ensures Less(a, b) && Less(b, c) ==> Less(a, c)
    ensures Less(a, b) ==> !Less(b, a)
    ensures !Less(a, b) && !Less(b, a) <==> a.priority == b.priority && a.timestamp == b.timestamp
  {
  }

  /** `x` is an item of `q` that no other item of `q` precedes. */
  predicate IsMinimal(q: multiset<QueueItem>, x: QueueItem)
  {
    x in q && forall y :: y in q ==> !Less(y, x)
  }

  /** Every non-empty queue has an item to dequeue first. */
  lemma {:induction false} MinimalExists(q: multiset<QueueItem>)
    requires |q| > 0
    ensures exists x :: IsMinimal(q, x)
    decreases |q|
  {
    var y :| y in q;
    var rest := q - multiset{y};
    assert q == rest + multiset{y};
    if |rest| == 0 {
      assert q == multiset{y};
      assert IsMinimal(q, y);
    } else {
      MinimalExists(rest);
      var m :| IsMinimal(rest, m);
      if Less(y, m) {
        forall z | z in q
          ensures !Less(z, y)
        {
          if z != y {
            assert z in rest;
            LessIsStrictWeakOrder(z, y, m);
          }
        }
        assert IsMinimal(q, y);
      } else {
        forall z | z in q
          ensures !Less(z, m)
        {
          if z != y {
            assert z in rest;
          }
        }
        assert IsMinimal(q, m);
      }
    }
  }

  /** A finished record the sweep removes: completed or failed, and enqueued
      more than `maxAge` seconds before `now`. */
  predicate Expired(item: QueueItem, now: real, maxAge: int)
    ensures Expired(item, now, maxAge) ==> item.status != Pending && item.status != Processing
    ensures now - item.timestamp <= maxAge as real ==> !Expired(item, now, maxAge)
  {
    (item.status == Completed || item.status == Failed) && now - item.timestamp > maxAge as real
  }

  /** The records the sweep keeps. */
  function Survivors(results: map<string, QueueItem>, now: real, maxAge: int): (r: map<string, QueueItem>)
    ensures forall id :: id in r ==> id in results && r[id] == results[id]
  {
    map id | id in results && !Expired(results[id], now, maxAge) :: results[id]
  }

  /** The sweep deletes exactly the expired records; pending and processing
      records survive whatever their age. */
  lemma SweepRemovesExactlyExpired(results: map<string, QueueItem>, now: real, maxAge: int, id: string)
    ensures id in Survivors(results, now, maxAge) <==> id in results && !Expired(results[id], now, maxAge)
    ensures id in results && (results[id].status == Pending || results[id].status == Processing) ==> id in Survivors(results, now, maxAge)
  {
  }

  /** The sweep is the removal of the expired ids. */
  lemma SweepIsRemoval(results: map<string, QueueItem>, now: real, maxAge: int)
    ensures Survivors(results, now, maxAge) == results - (set id | id in results && Expired(results[id], now, maxAge))
  {
  }

  /** Sweeping twice at the same time is sweeping once. */
  lemma SweepIdempotent(results: map<string, QueueItem>, now: real, maxAge: int)
    ensures Survivors(Survivors(results, now, maxAge), now, maxAge) == Survivors(results, now, maxAge)
  {
  }

  /** The ids whose record has status `s`. */
  function IdsWith(results: map<string, QueueItem>, s: Status): (ids: set<string>)
    ensures ids <= results.Keys
  {
    set id | id in results && results[id].status == s
  }

  /** Number of records with status `s`. */
  function CountStatus(results: map<string, QueueItem>, s: Status): nat
  {
    |IdsWith(results, s)|
  }

  /** The four status counts of the statistics add up to the number of records. */
  lemma StatusCountsSum(results: map<string, QueueItem>)
    ensures CountStatus(results, Pending) + CountStatus(results, Processing) +
            CountStatus(results, Completed) + CountStatus(results, Failed) == |results|
  {
    var p, r, c, f := IdsWith(results, Pending), IdsWith(results, Processing), IdsWith(results, Completed), IdsWith(results, Failed);
    assert p * r == {} && (p + r) * c == {} && (p + r + c) * f == {};
    assert p + r + c + f == results.Keys;
  }

  /** Adding a new record raises the count of its status by one and leaves
      the other counts alone. */
  lemma AddRecordCounts(results: map<string, QueueItem>, id: string, item: QueueItem, s: Status)
    requires id !in results
    ensures CountStatus(results[id := item], s) == CountStatus(results, s) + (if item.status == s then 1 else 0)
  {
    if item.status == s {
      assert IdsWith(results[id := item], s) == IdsWith(results, s) + {id};
    } else {
      assert IdsWith(results[id := item], s) == IdsWith(results, s);
    }
  }

  /** Changing the status of one record moves it from one count to another. */
  lemma ChangeStatusCounts(results: map<string, QueueItem>, id: string, item: QueueItem, s: Status)
    requires id in results
    requires results[id].status != item.status
    ensures CountStatus(results[id := item], s) ==
            CountStatus(results, s) + (if item.status == s then 1 else 0) - (if results[id].status == s then 1 else 0)
  {
    if item.status == s {
      assert IdsWith(results[id := item], s) == IdsWith(results, s) + {id};
    } else if results[id].status == s {
      assert IdsWith(results[id := item], s) == IdsWith(results, s) - {id};
    } else {
      assert IdsWith(results[id := item], s) == IdsWith(results, s);
    }
  }

  /** The sweep removes no processing record, so the in-flight count stays. */
  lemma SweepKeepsProcessingCount(results: map<string, QueueItem>, now: real, maxAge: int)
    ensures CountStatus(Survivors(results, now, maxAge), Processing) == CountStatus(results, Processing)
  {
    assert IdsWith(Survivors(results, now, maxAge), Processing) == IdsWith(results, Processing);
  }

  /** The fields of a record agree with its status: a result exactly when
      completed, an error exactly when failed, a Google key exactly once
      dispatched. */
  predicate WellFormed(item: QueueItem)
  {
    && (item.result.Some? <==> item.status == Completed)
    && (item.error.Some? <==> item.status == Failed)
    && (item.googleApiKey.Some? <==> item.status != Pending)
  }

  /** The job table and the queue agree: every record is filed under its own
      id and well formed; the queue holds each pending record once and
      nothing else. */
  predicate JobsConsistent(queue: multiset<QueueItem>, results: map<string, QueueItem>)
  {
    && (forall id :: id in results ==> results[id].id == id && WellFormed(results[id]))
    && (forall x :: x in queue ==> queue[x] == 1 && x.status == Pending && x.id in results && results[x.id] == x)
    && (forall id :: id in results && results[id].status == Pending ==> results[id] in queue)
  }

  /** A new pending job as enqueue_request builds it. */
  function NewJob(requestId: string, apiKey: string, now: real, priority: int, model: string, operation: string, args: map<string, string>): (item: QueueItem)
    ensures item.id == requestId && item.status == Pending && WellFormed(item)
  {
    QueueItem(requestId, apiKey, now, priority, model, operation, args, None, None, Pending, None)
  }

  /** The record of a dequeued job once the dispatcher assigns it a key. */
  function Dispatch(item: QueueItem, key: string): (r: QueueItem)
    ensures r.status == Processing && r.googleApiKey == Some(key)
    ensures r.id == item.id && r.timestamp == item.timestamp && r.result == item.result && r.error == item.error
  {
    item.(status := Processing, googleApiKey := Some(key))
  }

  /** The record of a processing job once its call returns or raises. */
  function Finish(item: QueueItem, outcome: Result<Response>): (r: QueueItem)
    ensures outcome.Ok? ==> r.status == Completed && r.result == Some(outcome.value) && r.error == item.error
    ensures outcome.Err? ==> r.status == Failed && r.error == Some(outcome.error) && r.result == item.result
    ensures r.id == item.id && r.timestamp == item.timestamp && r.googleApiKey == item.googleApiKey
  {
    match outcome
    case Ok(v) => item.(result := Some(v), status := Completed)
    case Err(e) => item.(error := Some(e), status := Failed)
  }

  /** The invariant of the job table: table and queue agree, and the
      in-flight counter counts the processing records and stays within
      [0, limit]. */
  predicate JobTable(queue: multiset<QueueItem>, results: map<string, QueueItem>, active: int, limit: nat)
  {
    JobsConsistent(queue, results) && active == CountStatus(results, Processing) && 0 <= active <= limit
  }

  /** Enqueueing a fresh pending job keeps the invariant. */
  lemma EnqueueKeepsJobTable(queue: multiset<QueueItem>, results: map<string, QueueItem>, active: int, limit: nat, item: QueueItem)
    requires JobTable(queue, results, active, limit)
    requires item.id !in results && item.status == Pending && WellFormed(item)
    ensures JobTable(queue + multiset{item}, results[item.id := item], active, limit)
  {
    assert item !in queue;
    AddRecordCounts(results, item.id, item, Processing);
  }

  /** Dispatching a queued job while below the limit keeps the invariant with
      one more job in flight. */
  lemma DispatchKeepsJobTable(queue: multiset<QueueItem>, results: map<string, QueueItem>, active: int, limit: nat, item: QueueItem, key: string)
    requires JobTable(queue, results, active, limit)
    requires item in queue && active < limit
    ensures JobTable(queue - multiset{item}, results[item.id := Dispatch(item, key)], active + 1, limit)
  {
    var q := queue - multiset{item};
    assert item !in q;
    forall x | x in q
      ensures x.id != item.id
    {
      assert results[x.id] == x;
    }
    ChangeStatusCounts(results, item.id, Dispatch(item, key), Processing);
  }

  /** Finishing a processing job keeps the invariant with one job fewer in
      flight; in particular the counter never goes negative. */
  lemma FinishKeepsJobTable(queue: multiset<QueueItem>, results: map<string, QueueItem>, active: int, limit: nat, id: string, outcome: Result<Response>)
    requires JobTable(queue, results, active, limit)
    requires id in results && results[id].status == Processing
    ensures JobTable(queue, results[id := Finish(results[id], outcome)], active - 1, limit)
  {
    forall x | x in queue
      ensures x.id != id
    {
      assert results[x.id] == x;
    }
    ChangeStatusCounts(results, id, Finish(results[id], outcome), Processing);
  }

  /** The sweep keeps the invariant. */
  lemma SweepKeepsJobTable(queue: multiset<QueueItem>, results: map<string, QueueItem>, active: int, limit: nat, now: real, maxAge: int)
    requires JobTable(queue, results, active, limit)
    ensures JobTable(queue, Survivors(results, now, maxAge), active, limit)
  {
    SweepKeepsProcessingCount(results, now, maxAge);
  }

  /** Taking a queued job out of both the queue and the table keeps the two
      consistent. */
  lemma RemoveQueuedJob(queue: multiset<QueueItem>, results: map<string, QueueItem>, x: QueueItem)
    requires JobsConsistent(queue, results) && x in queue
    ensures JobsConsistent(queue - multiset{x}, results - {x.id})
  {
    var q, r := queue - multiset{x}, results - {x.id};
    assert x !in q;
    forall y | y in q
      ensures y.id in r
    {
      assert y != x && results[y.id] == y;
    }
  }

  /** Removing a pending record lowers the pending count by one. */
  lemma RemovePendingCount(results: map<string, QueueItem>, id: string)
    requires id in results && results[id].status == Pending
    ensures CountStatus(results - {id}, Pending) == CountStatus(results, Pending) - 1
  {
    assert IdsWith(results - {id}, Pending) == IdsWith(results, Pending) - {id};
  }

  /** The queue holds exactly the pending jobs, so its length is the
      pending count. */
  lemma {:induction false} QueueSizeIsPendingCount(queue: multiset<QueueItem>, results: map<string, QueueItem>)
    requires JobsConsistent(queue, results)
    ensures |queue| == CountStatus(results, Pending)
    decreases |queue|
  {
    if |queue| == 0 {
      assert IdsWith(results, Pending) == {};
    } else {
      var x :| x in queue;
      RemoveQueuedJob(queue, results, x);
      QueueSizeIsPendingCount(queue - multiset{x}, results - {x.id});
      RemovePendingCount(results, x.id);
    }
  }

  /** What the caller of get_request_status sees. */
  datatype RequestStatus = RequestStatus(
    id: string,
    status: Status,
    result: Option<Response>,
    error: Option<string>,
    timestamp: real,
    googleApiKey: Option<string>)

  /** Queue statistics. */
  datatype QueueStats = QueueStats(
    queueSize: nat,
    pending: nat,
    processing: nat,
    completed: nat,
    failed: nat,
    activeRequests: int,
    totalRpm: nat,
    apiKeys: nat,
    apiKeyStatus: map<string, KeyStatus>)

  /** What one iteration of the dispatcher loop did. */
  datatype StepOutcome = QueueEmpty | AtCapacity | NoKeyAvailable | Dispatched(requestId: string, googleApiKey: string)

  class QueueManager {
    /** Pending jobs; the heap of the priority queue seen as a bag. */
    var queue: multiset<QueueItem>
    /** Job records by request id. */
    var results: map<string, QueueItem>
    const keyManager: GoogleApiKeyManager
    const totalRpm: nat
    /** Jobs dispatched and not yet finished. */
    var activeRequests: int
    const maxConcurrent: nat

    ghost predicate Valid()
      reads this, keyManager
    {
      && keyManager.Valid()
      && totalRpm == |keyManager.apiKeys| * keyManager.rpmPerKey
      && JobTable(queue, results, activeRequests, maxConcurrent)
    }

    constructor (googleApiKeys: seq<string>, rpmPerKey: nat, maxConcurrent: nat)
      requires |googleApiKeys| > 0
      requires rpmPerKey > 0
      ensures Valid()
      ensures fresh(keyManager)
      ensures queue == multiset{} && results == map[] && activeRequests == 0
      ensures keyManager.apiKeys == googleApiKeys && keyManager.rpmPerKey == rpmPerKey
      ensures forall k :: k in googleApiKeys ==> keyManager.keyTimestamps[k] == [] && keyManager.lastRequestTimes[k] == 0.0
      ensures totalRpm == |googleApiKeys| * rpmPerKey && this.maxConcurrent == maxConcurrent
    {
      queue := multiset{};
      results := map[];
      keyManager := new GoogleApiKeyManager(googleApiKeys, rpmPerKey);
      totalRpm := |googleApiKeys| * rpmPerKey;
      activeRequests := 0;
      this.maxConcurrent := maxConcurrent;
    }

    /** The constructor's error path: the key manager rejects an empty key list. */
    static method Create(googleApiKeys: seq<string>, rpmPerKey: nat, maxConcurrent: nat) returns (r: Result<QueueManager>)
      requires rpmPerKey > 0
      ensures r.Err? <==> |googleApiKeys| == 0
      ensures r.Err? ==> r.error == EmptyKeysMessage
      ensures r.Ok? ==> fresh(r.value) && r.value.Valid() && r.value.results == map[] && r.value.queue == multiset{}
      ensures r.Ok? ==> r.value.activeRequests == 0 && r.value.maxConcurrent == maxConcurrent
      ensures r.Ok? ==> r.value.keyManager.apiKeys == googleApiKeys && r.value.keyManager.rpmPerKey == rpmPerKey
      ensures r.Ok? ==> forall k :: k in googleApiKeys ==>
                r.value.keyManager.keyTimestamps[k] == [] && r.value.keyManager.lastRequestTimes[k] == 0.0
    {
      if |googleApiKeys| == 0 {
        return Err(EmptyKeysMessage);
      }
      var m := new QueueManager(googleApiKeys, rpmPerKey, maxConcurrent);
      return Ok(m);
    }

    /** Files a new pending job under the fresh id `requestId`, enqueues it
        and returns its id; no existing record changes. */
    method EnqueueRequest(requestId: string, now: real, apiKey: string, model: string, operation: string,
                          args: map<string, string>, priority: int) returns (id: string)
      requires Valid()
      requires requestId !in results
      modifies this
      ensures Valid()
      ensures id == requestId
      ensures var item := NewJob(requestId, apiKey, now, priority, model, operation, args);
              queue == old(queue) + multiset{item} && results == old(results)[requestId := item]
      ensures activeRequests == old(activeRequests)
    {
      var item := NewJob(requestId, apiKey, now, priority, model, operation, args);
      EnqueueKeepsJobTable(queue, results, activeRequests, maxConcurrent, item);
      queue := queue + multiset{item};
      results := results[requestId := item];
      return requestId;
    }

    /** The status of a job, or None for an unknown id. The view agrees with
        the record's status: a result only when completed, an error only when
        failed, a Google key once dispatched. */
    function GetRequestStatus(requestId: string): (r: Option<RequestStatus>)
      reads this
      requires JobsConsistent(queue, results)
      ensures r.None? <==> requestId !in results
      ensures r.Some? ==> r.value.id == requestId && r.value.status == results[requestId].status
      ensures r.Some? ==> var item := results[requestId];
                r.value.result == item.result && r.value.error == item.error &&
                r.value.timestamp == item.timestamp && r.value.googleApiKey == item.googleApiKey
      ensures r.Some? ==> (r.value.result.Some? <==> r.value.status == Completed)
      ensures r.Some? ==> (r.value.error.Some? <==> r.value.status == Failed)
      ensures r.Some? ==> (r.value.googleApiKey.Some? <==> r.value.status != Pending)
    {
      if requestId in results then
        var item := results[requestId];
        Some(RequestStatus(item.id, item.status, item.result, item.error, item.timestamp, item.googleApiKey))
      else None
    }

    /** The deletion loop: removes the records of `ids`, one id at a time. */
    method DeleteIds(ids: set<string>)
      modifies this
      ensures results == old(results) - ids
      ensures queue == old(queue) && activeRequests == old(activeRequests)
    {
      var toRemove := ids;
      while toRemove != {}
        invariant toRemove <= ids
        invariant results == old(results) - (ids - toRemove)
        invariant queue == old(queue) && activeRequests == old(activeRequests)
        decreases toRemove
      {
        var id :| id in toRemove;
        assert ids - (toRemove - {id}) == (ids - toRemove) + {id};
        results := results - {id};
        toRemove := toRemove - {id};
      }
    }

    /** Deletes every finished record enqueued more than `maxAge` seconds
        before `now`. */
    method CleanOldResults(now: real, maxAge: int)
      requires JobTable(queue, results, activeRequests, maxConcurrent)
      modifies this
      ensures JobTable(queue, results, activeRequests, maxConcurrent)
      ensures results == Survivors(old(results), now, maxAge)
      ensures queue == old(queue) && activeRequests == old(activeRequests)
    {
      var toRemove := set id | id in results && Expired(results[id], now, maxAge);
      SweepIsRemoval(results, now, maxAge);
      SweepKeepsJobTable(queue, results, activeRequests, maxConcurrent, now, maxAge);
      DeleteIds(toRemove);
    }

    /** Queue size, the four status counts, the in-flight counter, the
        throughput and the per-key status report (which prunes every window). */
    method GetQueueStats(now: real) returns (stats: QueueStats)
      requires Valid()
      modifies keyManager
      ensures Valid()
      ensures keyManager.keyTimestamps == PruneAll(old(keyManager.keyTimestamps), now - WindowSeconds)
      ensures keyManager.lastRequestTimes == old(keyManager.lastRequestTimes)
      ensures stats.queueSize == |queue| && stats.activeRequests == activeRequests
      ensures stats.pending == CountStatus(results, Pending) && stats.processing == CountStatus(results, Processing)
      ensures stats.completed == CountStatus(results, Completed) && stats.failed == CountStatus(results, Failed)
      ensures stats.pending + stats.processing + stats.completed + stats.failed == |results|
      ensures stats.queueSize == stats.pending
      ensures stats.totalRpm == totalRpm && stats.apiKeys == |keyManager.apiKeys|
      ensures stats.apiKeyStatus == StatusReport(keyManager.apiKeys, keyManager.keyTimestamps, keyManager.lastRequestTimes, keyManager.rpmPerKey, now)
    {
      var pending := CountStatus(results, Pending);
      var processing := CountStatus(results, Processing);
      var completed := CountStatus(results, Completed);
      var failed := CountStatus(results, Failed);
      StatusCountsSum(results);
      QueueSizeIsPendingCount(queue, results);
      var keyStatus := keyManager.GetAllKeysStatus(now);
      stats := QueueStats(|queue|, pending, processing, completed, failed, activeRequests,
                          totalRpm, |keyManager.apiKeys|, keyStatus);
    }

    /** Room for one more job in flight. */
    predicate CanStartNewRequest()
      reads this
      ensures JobTable(queue, results, activeRequests, maxConcurrent) ==>
                (CanStartNewRequest() <==> CountStatus(results, Processing) < maxConcurrent)
    {
      activeRequests < maxConcurrent
    }

    /** The dispatch block of the dispatcher, on the job table: dequeue a
        first job, mark it processing on `key` and count it in flight. */
    method DispatchJob(key: string) returns (id: string)
      requires JobTable(queue, results, activeRequests, maxConcurrent)
      requires |queue| > 0 && activeRequests < maxConcurrent
      modifies this
      ensures JobTable(queue, results, activeRequests, maxConcurrent)
      ensures id in old(results) && IsMinimal(old(queue), old(results)[id])
      ensures queue == old(queue) - multiset{old(results)[id]}
      ensures results == old(results)[id := Dispatch(old(results)[id], key)]
      ensures activeRequests == old(activeRequests) + 1
    {
      MinimalExists(queue);
      var item :| IsMinimal(queue, item);
      DispatchKeepsJobTable(queue, results, activeRequests, maxConcurrent, item, key);
      queue := queue - multiset{item};
      results := results[item.id := Dispatch(item, key)];
      activeRequests := activeRequests + 1;
      return item.id;
    }

    /** The records the sweep at `now` keeps. */
    ghost function SweptAt(now: real): map<string, QueueItem>
      reads this
    {
      Survivors(results, now, CleanMaxAge)
    }

    /** One iteration of the dispatcher: sweep records older than an hour;
        then, if the queue is non-empty, a job may start and a key is
        available, start a first job on that key. An empty-string key counts
        as no key. */
    method ProcessQueueStep(now: real) returns (outcome: StepOutcome)
      requires Valid()
      modifies this, keyManager
      ensures Valid()
      ensures var queue0, results0, active0 := old(queue), old(results), old(activeRequests);
              var canStart, chosen := old(CanStartNewRequest()), old(keyManager.KeyAt(now));
              && (outcome == QueueEmpty <==> |queue0| == 0)
              && (outcome == AtCapacity <==> |queue0| > 0 && !canStart)
              && (outcome == NoKeyAvailable <==> |queue0| > 0 && canStart && (chosen.None? || chosen == Some("")))
              && (outcome.Dispatched? ==> chosen == Some(outcome.googleApiKey) && outcome.googleApiKey != "")
              && (!outcome.Dispatched? ==> queue == queue0 && results == old(SweptAt(now)) && activeRequests == active0)
              && (outcome.Dispatched? ==>
                    var id := outcome.requestId;
                    && id in results0 && IsMinimal(queue0, results0[id])
                    && queue == queue0 - multiset{results0[id]}
                    && results == old(SweptAt(now))[id := Dispatch(results0[id], outcome.googleApiKey)]
                    && activeRequests == active0 + 1)
      ensures outcome.QueueEmpty? || outcome.AtCapacity? ==> unchanged(keyManager)
      ensures var pruned, lasts := old(keyManager.PrunedAt(now)), old(keyManager.lastRequestTimes);
              && (outcome.NoKeyAvailable? ==> keyManager.keyTimestamps == pruned && keyManager.lastRequestTimes == lasts)
              && (outcome.Dispatched? ==>
                    var key := outcome.googleApiKey;
                    && key in pruned
                    && keyManager.keyTimestamps == pruned[key := BoundedAppend(pruned[key], now, keyManager.MaxLen())]
                    && keyManager.lastRequestTimes == lasts[key := now])
    {
      CleanOldResults(now, CleanMaxAge);
      if |queue| == 0 {
        return QueueEmpty;
      }
      if !CanStartNewRequest() {
        return AtCapacity;
      }
      var googleApiKey := keyManager.GetAvailableKey(now);
      if googleApiKey.None? || googleApiKey.value == "" {
        return NoKeyAvailable;
      }
      SelectIsMaximal(keyManager.apiKeys, keyManager.keyTimestamps, keyManager.lastRequestTimes, keyManager.rpmPerKey, now);
      var id := DispatchJob(googleApiKey.value);
      keyManager.RecordUsage(googleApiKey.value, now);
      return Dispatched(id, googleApiKey.value);
    }

    /** Completion of a dispatched job: select its key on the client, run the
        call with retry, record the result or the error, and take the job out
        of the in-flight count. */
    method ExecuteRequest(client: GeminiClient, requestId: string, upstream: Upstream)
      requires Valid() && client.Valid()
      requires requestId in results && results[requestId].status == Processing
      modifies this, client
      ensures Valid() && client.Valid()
      ensures var item := old(results)[requestId];
              var key := item.googleApiKey.value;
              var outcome :=
                if key in client.apiKeys
                then RetryLoop(upstream, IsQuotaError, |client.apiKeys|, FirstIndexOf(client.apiKeys, key), 0, client.maxRetries, "").result
                else Err(InvalidKeyMessage);
              results == old(results)[requestId := Finish(item, outcome)]
      ensures var key := old(results)[requestId].googleApiKey.value;
              && (key !in client.apiKeys ==> client.currentKeyIndex == old(client.currentKeyIndex))
              && (key in client.apiKeys ==>
                    client.currentKeyIndex == RetryLoop(upstream, IsQuotaError, |client.apiKeys|, FirstIndexOf(client.apiKeys, key), 0, client.maxRetries, "").finalIndex)
      ensures queue == old(queue)
      ensures activeRequests == old(activeRequests) - 1
    {
      var item := results[requestId];
      var key := item.googleApiKey.value;
      var outcome: Result<Response>;
      var selected := client.SetApiKey(key);
      if selected.Err? {
        outcome := Err(selected.error);
      } else {
        outcome := client.ExecuteWithRetry(upstream);
      }
      var finished := Finish(item, outcome);
      FinishKeepsJobTable(queue, results, activeRequests, maxConcurrent, requestId, outcome);
      results := results[requestId := finished];
      activeRequests := activeRequests - 1;
    }
  }
}
