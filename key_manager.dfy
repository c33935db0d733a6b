/**
 * The per-key sliding-window accounting of app/queue_manager.py
 * (class GoogleApiKeyManager): for every Google API key a bounded window of
 * request timestamps and the time of its last use; selection of the key with
 * the largest remaining per-minute capacity among those whose minimum request
 * interval has elapsed.
 *
 * Times are seconds, as `real` (the source reads them from the wall clock
 * as floats; here the caller passes `now`).
 */
module KeyManager {
  import opened Wrappers

  /** Length of the sliding window, in seconds. */
  const WindowSeconds: real := 60.0

  /** The timestamps of `window` that are strictly newer than `cutoff`, in
      their original order (the list comprehension that rebuilds a deque). */
  function Recent(window: seq<real>, cutoff: real): (r: seq<real>)
    ensures |r| <= |window|
    ensures forall i :: 0 <= i < |r| ==> r[i] > cutoff && r[i] in window
  {
    if window == [] then []
    else if window[0] > cutoff then [window[0]] + Recent(window[1..], cutoff)
    else Recent(window[1..], cutoff)
  }

  /** A stamp survives pruning exactly when it was in the window and is
      strictly newer than the cutoff. */
  lemma {:induction false} RecentMembers(window: seq<real>, cutoff: real, t: real)
    ensures t in Recent(window, cutoff) <==> t in window && t > cutoff
  {
    if window != [] {
      RecentMembers(window[1..], cutoff, t);
      assert window == [window[0]] + window[1..];
    }
  }

  /** Pruning keeps every stamp newer than the cutoff as many times as it
      occurs, and no other stamp. */
  lemma {:induction false} RecentCounts(window: seq<real>, cutoff: real, t: real)
    ensures multiset(Recent(window, cutoff))[t] == if t > cutoff then multiset(window)[t] else 0
  {
    if window != [] {
      RecentCounts(window[1..], cutoff, t);
      assert window == [window[0]] + window[1..];
    }
  }

  /** Pruning preserves order: it distributes over concatenation. */
  lemma {:induction false} RecentConcat(a: seq<real>, b: seq<real>, cutoff: real)
    ensures Recent(a + b, cutoff) == Recent(a, cutoff) + Recent(b, cutoff)
  {
    if a == [] {
      assert a + b == b;
    } else {
      assert (a + b)[0] == a[0];
      assert (a + b)[1..] == a[1..] + b;
      RecentConcat(a[1..], b, cutoff);
      if a[0] > cutoff {
        calc {
          Recent(a + b, cutoff);
          [a[0]] + Recent(a[1..] + b, cutoff);
          [a[0]] + (Recent(a[1..], cutoff) + Recent(b, cutoff));
          ([a[0]] + Recent(a[1..], cutoff)) + Recent(b, cutoff);
        }
      }
    }
  }

  /** Pruning at a cutoff subsumes any earlier pruning at a smaller or equal
      cutoff; in particular pruning twice at the same time changes nothing. */
  lemma {:induction false} RecentOfRecent(window: seq<real>, earlier: real, later: real)
    requires earlier <= later
    ensures Recent(Recent(window, earlier), later) == Recent(window, later)
  {
    if window != [] {
      RecentOfRecent(window[1..], earlier, later);
    }
  }

  /** A stamp exactly one window old is discarded; one a moment younger is kept. */
  lemma BoundaryStampExpires(stamp: real, now: real)
    ensures Recent([stamp], now - WindowSeconds) == (if stamp > now - WindowSeconds then [stamp] else [])
    ensures stamp == now - WindowSeconds ==> Recent([stamp], now - WindowSeconds) == []
  {
    assert [stamp][1..] == [];
  }

  /** Appending to a deque bounded to `maxLen` entries: the newest `maxLen`
      entries of `window + [t]` are kept. */
  function BoundedAppend(window: seq<real>, t: real, maxLen: nat): (r: seq<real>)
    requires maxLen > 0
    requires |window| <= maxLen
    ensures |r| <= maxLen
    ensures r != [] && r[|r| - 1] == t
  {
    var w := window + [t];
    if |w| > maxLen then w[|w| - maxLen..] else w
  }

  /** The deque keeps everything while it has room and drops exactly its
      oldest entry once it is full. */
  lemma BoundedAppendDropsOldest(window: seq<real>, t: real, maxLen: nat)
    requires maxLen > 0
    requires |window| <= maxLen
    ensures |window| < maxLen ==> BoundedAppend(window, t, maxLen) == window + [t]
    ensures |window| == maxLen ==> BoundedAppend(window, t, maxLen) == window[1..] + [t]
  {
    if |window| == maxLen {
      assert (window + [t])[1..] == window[1..] + [t];
    }
  }

  /** Remaining per-minute capacity of a key whose window has just been
      pruned: the limit minus the requests still in the window. Negative when
      the window holds more stamps than the limit. */
  function Capacity(window: seq<real>, rpm: nat): int
  {
    rpm - |window|
  }

  /** The minimum interval of 60/rpm seconds has elapsed since the last use. */
  predicate IntervalOk(lastUsed: real, rpm: nat, now: real)
    requires rpm > 0
  {
    now - lastUsed >= WindowSeconds / (rpm as real)
  }

  /** A key that the selection loop can pick: its interval has elapsed and its
      capacity beats the initial maximum of -1. */
  predicate Selectable(window: seq<real>, lastUsed: real, rpm: nat, now: real)
    requires rpm > 0
  {
    IntervalOk(lastUsed, rpm, now) && Capacity(window, rpm) > -1
  }

  /** State carried by the selection loop: the best key so far and its capacity. */
  datatype Choice = Choice(best: Option<string>, maxCapacity: int)

  /** The selection loop over `keys`, left to right, on windows already pruned:
      a key replaces the best so far when its interval has elapsed and its
      capacity is strictly larger. */
  function Select(keys: seq<string>, windows: map<string, seq<real>>, lasts: map<string, real>, rpm: nat, now: real): (c: Choice)
    requires rpm > 0
    requires forall k :: k in keys ==> k in windows && k in lasts
    ensures c.best.None? <==> c.maxCapacity == -1
    ensures c.best.Some? ==> c.best.value in keys && c.maxCapacity >= 0
  {
    if keys == [] then Choice(None, -1)
    else
      var prev := Select(keys[..|keys| - 1], windows, lasts, rpm, now);
      var k := keys[|keys| - 1];
      var capacity := Capacity(windows[k], rpm);
      if capacity > prev.maxCapacity && IntervalOk(lasts[k], rpm, now) then Choice(Some(k), capacity)
      else prev
  }

  /** One more iteration of the selection loop. */
  lemma SelectStep(keys: seq<string>, i: nat, windows: map<string, seq<real>>, lasts: map<string, real>, rpm: nat, now: real)
    requires rpm > 0
    requires i < |keys|
    requires forall k :: k in keys ==> k in windows && k in lasts
    ensures var prev := Select(keys[..i], windows, lasts, rpm, now);
            var k := keys[i];
            var capacity := Capacity(windows[k], rpm);
            Select(keys[..i + 1], windows, lasts, rpm, now) ==
              if capacity > prev.maxCapacity && IntervalOk(lasts[k], rpm, now) then Choice(Some(k), capacity) else prev
  {
    assert keys[..i + 1][..i] == keys[..i];
  }

  /** No key is returned exactly when no key is selectable. */
  lemma {:induction false} SelectNoneIff(keys: seq<string>, windows: map<string, seq<real>>, lasts: map<string, real>, rpm: nat, now: real)
    requires rpm > 0
    requires forall k :: k in keys ==> k in windows && k in lasts
    ensures Select(keys, windows, lasts, rpm, now).best.None? <==>
            forall k :: k in keys ==> !Selectable(windows[k], lasts[k], rpm, now)
    ensures Select(keys, windows, lasts, rpm, now).best.None? <==> Select(keys, windows, lasts, rpm, now).maxCapacity == -1
  {
    if keys != [] {
      var init := keys[..|keys| - 1];
      SelectNoneIff(init, windows, lasts, rpm, now);
      SelectIsMaximal(init, windows, lasts, rpm, now);
      assert forall k :: k in keys ==> k in init || k == keys[|keys| - 1];
    }
  }

  /** A returned key is one of the keys, is selectable, carries the recorded
      capacity, and no key whose interval has elapsed has a larger capacity. */
  lemma {:induction false} SelectIsMaximal(keys: seq<string>, windows: map<string, seq<real>>, lasts: map<string, real>, rpm: nat, now: real)
    requires rpm > 0
    requires forall k :: k in keys ==> k in windows && k in lasts
    ensures var c := Select(keys, windows, lasts, rpm, now);
            c.maxCapacity >= -1 &&
            (c.best.Some? ==>
              c.best.value in keys &&
              Selectable(windows[c.best.value], lasts[c.best.value], rpm, now) &&
              c.maxCapacity == Capacity(windows[c.best.value], rpm)) &&
            (forall k :: k in keys && IntervalOk(lasts[k], rpm, now) ==> Capacity(windows[k], rpm) <= c.maxCapacity)
  {
    if keys != [] {
      var init := keys[..|keys| - 1];
      SelectIsMaximal(init, windows, lasts, rpm, now);
      assert forall k :: k in keys ==> k in init || k == keys[|keys| - 1];
    }
  }

  /** Every key before position `i` whose interval has elapsed has capacity
      strictly below `cap`. */
  ghost predicate BelowBefore(keys: seq<string>, i: nat, windows: map<string, seq<real>>, lasts: map<string, real>, rpm: nat, now: real, cap: int)
    requires rpm > 0
    requires i <= |keys|
    requires forall k :: k in keys ==> k in windows && k in lasts
  {
    forall j :: 0 <= j < i && IntervalOk(lasts[keys[j]], rpm, now) ==> Capacity(windows[keys[j]], rpm) < cap
  }

  /** On a tie the earliest key in list order wins: every selectable key
      before the first occurrence of the returned key has strictly smaller
      capacity. */
  lemma {:induction false} SelectEarliestOnTie(keys: seq<string>, windows: map<string, seq<real>>, lasts: map<string, real>, rpm: nat, now: real)
    requires rpm > 0
    requires forall k :: k in keys ==> k in windows && k in lasts
    ensures var c := Select(keys, windows, lasts, rpm, now);
            c.best.Some? ==>
              exists i :: 0 <= i < |keys| && keys[i] == c.best.value && BelowBefore(keys, i, windows, lasts, rpm, now, c.maxCapacity)
  {
    if keys != [] {
      var n := |keys| - 1;
      var init := keys[..n];
      var prev := Select(init, windows, lasts, rpm, now);
      var c := Select(keys, windows, lasts, rpm, now);
      SelectEarliestOnTie(init, windows, lasts, rpm, now);
      if c != prev {
        SelectIsMaximal(init, windows, lasts, rpm, now);
        assert BelowBefore(keys, n, windows, lasts, rpm, now, c.maxCapacity) by {
          forall j | 0 <= j < n
            ensures keys[j] in init
          {
            assert keys[j] == init[j];
          }
        }
      } else if c.best.Some? {
        var i :| 0 <= i < n && init[i] == c.best.value && BelowBefore(init, i, windows, lasts, rpm, now, c.maxCapacity);
        assert init[..i] == keys[..i];
        assert BelowBefore(keys, i, windows, lasts, rpm, now, c.maxCapacity) by {
          forall j | 0 <= j < i
            ensures keys[j] == init[j]
          {
          }
        }
      }
    }
  }

  /** Every window pruned at `cutoff`. */
  function PruneAll(windows: map<string, seq<real>>, cutoff: real): (r: map<string, seq<real>>)
    ensures r.Keys == windows.Keys
    ensures forall k :: k in r ==> |r[k]| <= |windows[k]|
  {
    map k | k in windows :: Recent(windows[k], cutoff)
  }

  /** The maps after the first `n` iterations of a pruning loop over `keys`:
      each visited key's window is pruned at `cutoff`, in visiting order. */
  function PruneFirst(windows: map<string, seq<real>>, keys: seq<string>, n: nat, cutoff: real): (r: map<string, seq<real>>)
    requires n <= |keys|
    ensures r.Keys == windows.Keys
  {
    if n == 0 then windows
    else
      var m := PruneFirst(windows, keys, n - 1, cutoff);
      var k := keys[n - 1];
      if k in m then m[k := Recent(m[k], cutoff)] else m
  }

  /** After `n` iterations a key's window is pruned if the key was visited
      and untouched otherwise; visiting a key twice prunes it once. */
  lemma {:induction false} PruneFirstEntries(windows: map<string, seq<real>>, keys: seq<string>, n: nat, cutoff: real, k: string)
    requires n <= |keys|
    requires k in windows
    ensures PruneFirst(windows, keys, n, cutoff)[k] == if k in keys[..n] then Recent(windows[k], cutoff) else windows[k]
  {
    if n > 0 {
      var m := PruneFirst(windows, keys, n - 1, cutoff);
      PruneFirstEntries(windows, keys, n - 1, cutoff, k);
      assert keys[..n] == keys[..n - 1] + [keys[n - 1]];
      assert k in keys[..n] <==> k in keys[..n - 1] || k == keys[n - 1];
      if k == keys[n - 1] {
        RecentOfRecent(windows[k], cutoff, cutoff);
        assert PruneFirst(windows, keys, n, cutoff)[k] == Recent(m[k], cutoff);
      } else {
        assert PruneFirst(windows, keys, n, cutoff)[k] == m[k];
      }
    }
  }

  /** A loop over every key prunes every window. */
  lemma PruneFirstComplete(windows: map<string, seq<real>>, keys: seq<string>, cutoff: real)
    requires forall k :: k in windows ==> k in keys
    ensures PruneFirst(windows, keys, |keys|, cutoff) == PruneAll(windows, cutoff)
  {
    assert keys[..|keys|] == keys;
    forall k | k in windows
      ensures PruneFirst(windows, keys, |keys|, cutoff)[k] == Recent(windows[k], cutoff)
    {
      PruneFirstEntries(windows, keys, |keys|, cutoff, k);
    }
  }

  /** The window the loop leaves at the key it has just visited is the
      fully pruned one, whatever earlier visits did. */
  lemma PruneFirstVisited(windows: map<string, seq<real>>, keys: seq<string>, i: nat, cutoff: real)
    requires i < |keys|
    requires keys[i] in windows
    ensures PruneFirst(windows, keys, i + 1, cutoff)[keys[i]] == Recent(windows[keys[i]], cutoff)
  {
    PruneFirstEntries(windows, keys, i + 1, cutoff, keys[i]);
    assert keys[i] == keys[..i + 1][i];
  }

  /** One entry of the status report. */
  datatype KeyStatus = KeyStatus(requestsLastMinute: nat, availableCapacity: int, lastUsed: real, timeSinceLast: real)

  /** Status of one key at `now`, given its just-pruned window. */
  function StatusOf(window: seq<real>, lastUsed: real, rpm: nat, now: real): KeyStatus
  {
    KeyStatus(|window|, rpm - |window|, lastUsed, now - lastUsed)
  }

  /** The status report over `keys`: one entry per key. */
  function StatusReport(keys: seq<string>, windows: map<string, seq<real>>, lasts: map<string, real>, rpm: nat, now: real): (r: map<string, KeyStatus>)
    requires forall k :: k in keys ==> k in windows && k in lasts
    ensures forall k :: k in r <==> k in keys
  {
    map k | k in keys :: StatusOf(windows[k], lasts[k], rpm, now)
  }

  /** One more iteration of the status loop adds the visited key's entry. */
  lemma StatusReportStep(keys: seq<string>, i: nat, windows: map<string, seq<real>>, lasts: map<string, real>, rpm: nat, now: real)
    requires i < |keys|
    requires forall k :: k in keys ==> k in windows && k in lasts
    ensures StatusReport(keys[..i + 1], windows, lasts, rpm, now) ==
            StatusReport(keys[..i], windows, lasts, rpm, now)[keys[i] := StatusOf(windows[keys[i]], lasts[keys[i]], rpm, now)]
  {
    assert keys[..i + 1] == keys[..i] + [keys[i]];
  }

  /** The report and the selection agree: on the same pruned windows every
      entry's requests and capacity add up to the limit and its last use and
      idle time add up to `now`, and the key the selection returns reports
      the largest capacity among the keys whose interval has elapsed. */
  lemma StatusAgreesWithSelect(keys: seq<string>, windows: map<string, seq<real>>, lasts: map<string, real>, rpm: nat, now: real)
    requires rpm > 0
    requires forall k :: k in keys ==> k in windows && k in lasts
    ensures var report := StatusReport(keys, windows, lasts, rpm, now);
            forall k :: k in keys ==>
              report[k].requestsLastMinute + report[k].availableCapacity == rpm &&
              report[k].lastUsed + report[k].timeSinceLast == now
    ensures var report := StatusReport(keys, windows, lasts, rpm, now);
            var c := Select(keys, windows, lasts, rpm, now);
            c.best.Some? ==>
              c.best.value in report &&
              report[c.best.value].availableCapacity == c.maxCapacity &&
              forall k :: k in keys && IntervalOk(lasts[k], rpm, now) ==> report[k].availableCapacity <= c.maxCapacity
  {
    SelectIsMaximal(keys, windows, lasts, rpm, now);
  }

  class GoogleApiKeyManager {
    const apiKeys: seq<string>
    const rpmPerKey: nat
    /** Per key, the request timestamps of the bounded deque, oldest first. */
    var keyTimestamps: map<string, seq<real>>
    /** Per key, the time of its last recorded use (0 before any use). */
    var lastRequestTimes: map<string, real>

    /** Each deque is bounded to twice the per-minute limit. */
    function MaxLen(): nat
    {
      2 * rpmPerKey
    }

    /** The windows as pruning at `now` leaves them. */
    ghost function PrunedAt(now: real): map<string, seq<real>>
      reads this
    {
      PruneAll(keyTimestamps, now - WindowSeconds)
    }

    /** The key a selection at `now` returns. */
    ghost function KeyAt(now: real): Option<string>
      reads this
      requires Valid()
    {
      Select(apiKeys, PrunedAt(now), lastRequestTimes, rpmPerKey, now).best
    }

    ghost predicate Valid()
      reads this
    {
      && |apiKeys| > 0
      && rpmPerKey > 0
      && (forall k :: k in keyTimestamps <==> k in apiKeys)
      && (forall k :: k in lastRequestTimes <==> k in apiKeys)
      && (forall k :: k in keyTimestamps ==> |keyTimestamps[k]| <= MaxLen())
    }

    constructor (apiKeys: seq<string>, rpmPerKey: nat)
      requires |apiKeys| > 0
      requires rpmPerKey > 0
      ensures Valid()
      ensures this.apiKeys == apiKeys && this.rpmPerKey == rpmPerKey
      ensures forall k :: k in apiKeys ==> keyTimestamps[k] == [] && lastRequestTimes[k] == 0.0
    {
      this.apiKeys := apiKeys;
      this.rpmPerKey := rpmPerKey;
      keyTimestamps := map k | k in apiKeys :: [];
      lastRequestTimes := map k | k in apiKeys :: 0.0;
    }

    /** The constructor's error path: an empty key list raises an error. */
    static method Create(apiKeys: seq<string>, rpmPerKey: nat) returns (r: Result<GoogleApiKeyManager>)
      requires rpmPerKey > 0
      ensures r.Err? <==> |apiKeys| == 0
      ensures r.Err? ==> r.error == EmptyKeysMessage
      ensures r.Ok? ==> fresh(r.value) && r.value.Valid() && r.value.apiKeys == apiKeys && r.value.rpmPerKey == rpmPerKey
      ensures r.Ok? ==> forall k :: k in apiKeys ==> r.value.keyTimestamps[k] == [] && r.value.lastRequestTimes[k] == 0.0
    {
      if |apiKeys| == 0 {
        return Err(EmptyKeysMessage);
      }
      var m := new GoogleApiKeyManager(apiKeys, rpmPerKey);
      return Ok(m);
    }

    /** The locked block at the head of both loops: drops the stamps of
        `key` at or before `cutoff` and returns how many remain. */
    method PruneKey(key: string, cutoff: real) returns (count: nat)
      requires key in keyTimestamps
      modifies this
      ensures keyTimestamps == old(keyTimestamps)[key := Recent(old(keyTimestamps)[key], cutoff)]
      ensures lastRequestTimes == old(lastRequestTimes)
      ensures count == |keyTimestamps[key]|
    {
      keyTimestamps := keyTimestamps[key := Recent(keyTimestamps[key], cutoff)];
      count := |keyTimestamps[key]|;
    }

    /** Prunes every window at `now` and returns the key the selection loop
        picks on the pruned windows (see Select), or None. */
    method GetAvailableKey(now: real) returns (best: Option<string>)
      requires Valid()
      modifies this
      ensures Valid()
      ensures keyTimestamps == PruneAll(old(keyTimestamps), now - WindowSeconds)
      ensures lastRequestTimes == old(lastRequestTimes)
      ensures best == Select(apiKeys, keyTimestamps, lastRequestTimes, rpmPerKey, now).best
    {
      ghost var windows := keyTimestamps;
      var cutoff := now - WindowSeconds;
      ghost var pruned := PruneAll(windows, cutoff);
      best := None;
      var maxCapacity := -1;
      var i := 0;
      while i < |apiKeys|
        invariant 0 <= i <= |apiKeys|
        invariant lastRequestTimes == old(lastRequestTimes)
        invariant keyTimestamps == PruneFirst(windows, apiKeys, i, cutoff)
        invariant Select(apiKeys[..i], pruned, lastRequestTimes, rpmPerKey, now) == Choice(best, maxCapacity)
      {
        var key := apiKeys[i];
        var count := PruneKey(key, cutoff);
        PruneFirstVisited(windows, apiKeys, i, cutoff);
        var availableCapacity := rpmPerKey - count;
        var timeSinceLast := now - lastRequestTimes[key];
        var minInterval := WindowSeconds / (rpmPerKey as real);
        SelectStep(apiKeys, i, pruned, lastRequestTimes, rpmPerKey, now);
        if availableCapacity > maxCapacity && timeSinceLast >= minInterval {
          maxCapacity := availableCapacity;
          best := Some(key);
        }
        i := i + 1;
      }
      PruneFirstComplete(windows, apiKeys, cutoff);
      assert apiKeys[..i] == apiKeys;
    }

    /** Records a request on `key` at `now`: its timestamp goes into the key's
        bounded deque and becomes the key's last use; no other key changes. */
    method RecordUsage(key: string, now: real)
      requires Valid()
      requires key in apiKeys
      modifies this
      ensures Valid()
      ensures keyTimestamps == old(keyTimestamps)[key := BoundedAppend(old(keyTimestamps)[key], now, MaxLen())]
      ensures lastRequestTimes == old(lastRequestTimes)[key := now]
    {
      keyTimestamps := keyTimestamps[key := BoundedAppend(keyTimestamps[key], now, MaxLen())];
      lastRequestTimes := lastRequestTimes[key := now];
    }

    /** The locked block of the status loop: prunes the window of `key` at
        `cutoff` and reports the key's status at `now` on the pruned window. */
    method PruneAndReport(key: string, cutoff: real, now: real) returns (status: KeyStatus)
      requires key in keyTimestamps && key in lastRequestTimes
      modifies this
      ensures keyTimestamps == old(keyTimestamps)[key := Recent(old(keyTimestamps)[key], cutoff)]
      ensures lastRequestTimes == old(lastRequestTimes)
      ensures status == StatusOf(keyTimestamps[key], lastRequestTimes[key], rpmPerKey, now)
    {
      var count := PruneKey(key, cutoff);
      status := KeyStatus(
        count,
        rpmPerKey - count,
        lastRequestTimes[key],
        now - lastRequestTimes[key]);
    }

    /** Prunes every window at `now` and reports, per key, the requests in the
        last minute, the remaining capacity, the last use and the time since. */
    method GetAllKeysStatus(now: real) returns (result: map<string, KeyStatus>)
      requires Valid()
      modifies this
      ensures Valid()
      ensures keyTimestamps == PruneAll(old(keyTimestamps), now - WindowSeconds)
      ensures lastRequestTimes == old(lastRequestTimes)
      ensures result == StatusReport(apiKeys, keyTimestamps, lastRequestTimes, rpmPerKey, now)
    {
      ghost var windows := keyTimestamps;
      var cutoff := now - WindowSeconds;
      ghost var pruned := PruneAll(windows, cutoff);
      result := map[];
      var i := 0;
      while i < |apiKeys|
        invariant 0 <= i <= |apiKeys|
        invariant lastRequestTimes == old(lastRequestTimes)
        invariant keyTimestamps == PruneFirst(windows, apiKeys, i, cutoff)
        invariant result == StatusReport(apiKeys[..i], pruned, old(lastRequestTimes), rpmPerKey, now)
      {
        var key := apiKeys[i];
        var status := PruneAndReport(key, cutoff, now);
        PruneFirstVisited(windows, apiKeys, i, cutoff);
        StatusReportStep(apiKeys, i, pruned, old(lastRequestTimes), rpmPerKey, now);
        result := result[key := status];
        i := i + 1;
      }
      PruneFirstComplete(windows, apiKeys, cutoff);
      assert apiKeys[..i] == apiKeys;
    }
  }

  const EmptyKeysMessage: string := "API key list is empty"
}
