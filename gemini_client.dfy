/**
 * The Gemini client of app/gemini_client.py: a list of Google API keys with
 * a current index, rotation to the next key, the retry loop that rotates on
 * quota errors only, and selection of a given key.
 *
 * The SDK call is an oracle `Upstream`: given the attempt number and the
 * index of the current key it yields a response, a None result or an error
 * message. The operation name and its arguments are fixed by the caller and
 * folded into the oracle.
 */
module Gemini {
  import opened Wrappers

  /** Message of the error raised when the client is built without keys. */
  const NoKeysMessage: string := "No Google API keys provided"
  /** Message of the error raised when an operation returns None. */
  const NoneResponseMessage: string := "Received None response from Gemini API"
  /** Message of the error raised when an unknown key is selected. */
  const InvalidKeyMessage: string := "Invalid API key"
  /** Number of retries after the first attempt. */
  const MaxRetries: nat := 2

  /** The phrases that mark an error message as a quota or rate-limit error. */
  const QuotaTerms: seq<string> := ["quota exceeded", "rate limit", "resource exhausted", "too many requests", "resource has been exhausted"]

  /** Lower-casing of one character; only ASCII letters change. */
  function LowerChar(c: char): char
  {
    if 'A' <= c <= 'Z' then (c as int + 32) as char else c
  }

  /** Lower-casing of a message, character by character: no upper-case
      letter is left and every other character stays as it was. */
  function Lower(s: string): (r: string)
    ensures |r| == |s|
    ensures forall i :: 0 <= i < |s| ==> r[i] == LowerChar(s[i])
    ensures forall i :: 0 <= i < |r| ==> !('A' <= r[i] <= 'Z')
    ensures forall i :: 0 <= i < |s| && !('A' <= s[i] <= 'Z') ==> r[i] == s[i]
  {
    seq(|s|, i requires 0 <= i < |s| => LowerChar(s[i]))
  }

  /** `term` occurs in `text` starting at position `i`. */
  predicate OccursAt(text: string, term: string, i: int)
  {
    0 <= i <= |text| - |term| && text[i..i + |term|] == term
  }

  /** `term` occurs in `text` as a contiguous substring. */
  predicate Contains(text: string, term: string)
  {
    exists i :: 0 <= i <= |text| - |term| && OccursAt(text, term, i)
  }

  /** Some quota phrase occurs in the lower-cased message. */
  predicate IsQuotaError(message: string)
    ensures IsQuotaError(message) ==> |message| >= |"rate limit"|
  {
    exists term :: term in QuotaTerms && Contains(Lower(message), term)
  }

  /** Lower-casing twice is lower-casing once. */
  lemma LowerIdempotent(s: string)
    ensures Lower(Lower(s)) == Lower(s)
  {
  }

  /** The classification ignores the case of ASCII letters. */
  lemma QuotaIgnoresCase(message: string)
    ensures IsQuotaError(Lower(message)) <==> IsQuotaError(message)
  {
    LowerIdempotent(message);
  }

  /** A character of an occurring term is a character of the text. */
  lemma ContainsChar(text: string, term: string, c: char)
    requires Contains(text, term)
    requires c in term
    ensures c in text
  {
    var i :| 0 <= i <= |text| - |term| && OccursAt(text, term, i);
    var j :| 0 <= j < |term| && term[j] == c;
    assert text[i + j] == text[i..i + |term|][j];
  }

  /** Every quota phrase contains the letter 't'. */
  lemma QuotaTermsContainT()
    ensures forall term :: term in QuotaTerms ==> 't' in term
  {
    assert "quota exceeded"[3] == 't';
    assert "rate limit"[2] == 't';
    assert "resource exhausted"[15] == 't';
    assert "too many requests"[0] == 't';
    assert "resource has been exhausted"[24] == 't';
  }

  /** A message without the letter 't' in either case is never a quota error. */
  lemma NoTIsNotQuota(message: string)
    requires 't' !in message && 'T' !in message
    ensures !IsQuotaError(message)
  {
    var low := Lower(message);
    assert 't' !in low by {
      forall i | 0 <= i < |low|
        ensures low[i] != 't'
      {
        assert message[i] != 't' && message[i] != 'T';
      }
    }
    QuotaTermsContainT();
    forall term | term in QuotaTerms && Contains(low, term)
      ensures false
    {
      ContainsChar(low, term, 't');
    }
  }

  /** A None response is not retried: its error message is no quota error. */
  lemma NoneResponseIsNotQuota()
    ensures !IsQuotaError(NoneResponseMessage)
  {
    NoTIsNotQuota(NoneResponseMessage);
  }

  /** A message whose lower-cased form holds a quota phrase at any position
      is a quota error. */
  lemma QuotaPhraseAnywhere(message: string, term: string, i: nat)
    requires term in QuotaTerms
    requires i + |term| <= |message| && Lower(message)[i..i + |term|] == term
    ensures IsQuotaError(message)
  {
    assert OccursAt(Lower(message), term, i);
  }

  /** A message that starts with a quota phrase in any case is a quota error,
      e.g. the upstream's "429 Too Many Requests". */
  lemma QuotaPhraseAtStart(message: string, term: string)
    requires term in QuotaTerms
    requires |term| <= |message| && Lower(message)[..|term|] == term
    ensures IsQuotaError(message)
  {
    assert OccursAt(Lower(message), term, 0);
  }

  /** The response payload of the SDK, opaque here. */
  type Response = string

  /** What one SDK call yields. */
  datatype UpstreamOutcome = Success(response: Response) | NoneResult | Error(message: string)

  /** The SDK, seen from the retry loop: attempt number and key index to outcome. */
  type Upstream = (nat, nat) -> UpstreamOutcome

  /** The message of the exception a failed call raises. */
  function FailureMessage(o: UpstreamOutcome): (msg: string)
    requires !o.Success?
    ensures o.Error? ==> msg == o.message
    ensures o.NoneResult? ==> msg == NoneResponseMessage
  {
    if o.NoneResult? then NoneResponseMessage else o.message
  }

  /** The observable run of the retry loop: the result, the key index left
      current, the number of SDK calls and the number of rotations. */
  datatype RetryRun = RetryRun(result: Result<Response>, finalIndex: nat, attempts: nat, rotations: nat)

  /** The retry loop from state (`index`, `retries`, `lastError`) over `n`
      keys: a success returns, an error that `isQuota` accepts rotates and
      retries while retries remain, any other failure stops with its
      message. The client passes IsQuotaError; the facts proved below hold
      for any classifier. */
  function RetryLoop(upstream: Upstream, isQuota: string -> bool, n: nat, index: nat, retries: nat, maxRetries: nat, lastError: string): (run: RetryRun)
    requires index < n
    ensures run.finalIndex < n
    ensures run.attempts >= retries
    ensures retries <= maxRetries ==> run.attempts > retries
    decreases maxRetries + 1 - retries
  {
    if retries > maxRetries then RetryRun(Err(lastError), index, retries, retries)
    else
      var outcome := upstream(retries, index);
      if outcome.Success? then RetryRun(Ok(outcome.response), index, retries + 1, retries)
      else
        var msg := FailureMessage(outcome);
        if isQuota(msg) then RetryLoop(upstream, isQuota, n, Next(index, n), retries + 1, maxRetries, msg)
        else RetryRun(Err(msg), index, retries + 1, retries)
  }

  /** The index after `index` in a ring of `n` keys. */
  function Next(index: nat, n: nat): (r: nat)
    requires index < n
    ensures r == (index + 1) % n
  {
    if index + 1 < n then index + 1 else 0
  }

  /** The key index after rotating `k` times from `index` over `n` keys. */
  function Advance(index: nat, k: nat, n: nat): (r: nat)
    requires index < n
    ensures r < n
  {
    if k == 0 then index else Next(Advance(index, k - 1, n), n)
  }

  /** Rotating `k` times from the next key is rotating `k + 1` times. */
  lemma {:induction false} AdvanceNext(index: nat, k: nat, n: nat)
    requires index < n
    ensures Advance(Next(index, n), k, n) == Advance(index, k + 1, n)
  {
    if k > 0 {
      AdvanceNext(index, k - 1, n);
    }
  }

  /** The outcome of attempt `j` of a loop that started at `index` on attempt
      `start` and rotated once per earlier attempt. */
  function AttemptOutcome(upstream: Upstream, n: nat, index: nat, start: nat, j: nat): UpstreamOutcome
    requires index < n
    requires start <= j
  {
    upstream(j, Advance(index, j - start, n))
  }

  /** A failure that `isQuota` classifies as a quota error. */
  predicate QuotaFailure(o: UpstreamOutcome, isQuota: string -> bool)
  {
    !o.Success? && isQuota(FailureMessage(o))
  }

  /** The shape of every run: calls and rotations are bounded by the retry
      budget, every rotation was caused by a quota failure of the key then
      current, and the final index is the start advanced once per rotation. */
  lemma {:induction false} RetryTrace(upstream: Upstream, isQuota: string -> bool, n: nat, index: nat, retries: nat, maxRetries: nat, lastError: string)
    requires index < n
    ensures var run := RetryLoop(upstream, isQuota, n, index, retries, maxRetries, lastError);
            && retries <= run.rotations <= run.attempts <= run.rotations + 1
            && (retries <= maxRetries + 1 ==> run.attempts <= maxRetries + 1)
            && run.finalIndex == Advance(index, run.rotations - retries, n)
            && (forall j :: retries <= j < run.rotations ==> QuotaFailure(AttemptOutcome(upstream, n, index, retries, j), isQuota))
    decreases maxRetries + 1 - retries
  {
    var run := RetryLoop(upstream, isQuota, n, index, retries, maxRetries, lastError);
    if retries <= maxRetries {
      var outcome := upstream(retries, index);
      assert outcome == AttemptOutcome(upstream, n, index, retries, retries);
      if QuotaFailure(outcome, isQuota) {
        var next := Next(index, n);
        RetryTrace(upstream, isQuota, n, next, retries + 1, maxRetries, FailureMessage(outcome));
        AdvanceNext(index, run.rotations - (retries + 1), n);
        forall j | retries < j < run.rotations
          ensures QuotaFailure(AttemptOutcome(upstream, n, index, retries, j), isQuota)
        {
          AdvanceNext(index, j - (retries + 1), n);
          assert AttemptOutcome(upstream, n, next, retries + 1, j) == AttemptOutcome(upstream, n, index, retries, j);
        }
      }
    }
  }

  /** How a run ends, given the outcome of its last call: a success is that
      call's response with no rotation after it; an error after fewer than
      all retries is that call's non-quota failure; a run that rotated after
      every call used every retry and ended on a quota failure. */
  ghost predicate EndsWith(run: RetryRun, last: UpstreamOutcome, isQuota: string -> bool, maxRetries: nat)
  {
    && (run.result.Ok? <==> last.Success?)
    && (run.result.Ok? ==> run.result.value == last.response && run.attempts == run.rotations + 1)
    && (run.result.Err? ==> run.result.error == FailureMessage(last))
    && (run.result.Err? && run.attempts == run.rotations + 1 ==> !QuotaFailure(last, isQuota))
    && (run.attempts == run.rotations ==> run.result.Err? && run.attempts == maxRetries + 1 && QuotaFailure(last, isQuota))
  }

  /** Every run ends as `EndsWith` describes, on the outcome of its last call. */
  lemma {:induction false} RetryEnding(upstream: Upstream, isQuota: string -> bool, n: nat, index: nat, retries: nat, maxRetries: nat, lastError: string)
    requires index < n
    requires retries <= maxRetries
    ensures var run := RetryLoop(upstream, isQuota, n, index, retries, maxRetries, lastError);
            run.attempts > retries &&
            EndsWith(run, AttemptOutcome(upstream, n, index, retries, run.attempts - 1), isQuota, maxRetries)
    decreases maxRetries + 1 - retries
  {
    var run := RetryLoop(upstream, isQuota, n, index, retries, maxRetries, lastError);
    var outcome := upstream(retries, index);
    assert outcome == AttemptOutcome(upstream, n, index, retries, retries);
    if QuotaFailure(outcome, isQuota) {
      var next := Next(index, n);
      if retries + 1 <= maxRetries {
        var sub := RetryLoop(upstream, isQuota, n, next, retries + 1, maxRetries, FailureMessage(outcome));
        assert run == sub;
        RetryEnding(upstream, isQuota, n, next, retries + 1, maxRetries, FailureMessage(outcome));
        AdvanceNext(index, run.attempts - 1 - (retries + 1), n);
        assert AttemptOutcome(upstream, n, next, retries + 1, run.attempts - 1) == AttemptOutcome(upstream, n, index, retries, run.attempts - 1);
      }
    }
  }

  /** A first call that succeeds returns at once on the current key. */
  lemma FirstSuccessNoRotation(upstream: Upstream, n: nat, index: nat, response: Response)
    requires index < n
    requires upstream(0, index) == Success(response)
    ensures RetryLoop(upstream, IsQuotaError, n, index, 0, MaxRetries, "") == RetryRun(Ok(response), index, 1, 0)
  {
  }

  /** A None result is not retried: the run fails at once with its message
      and the key does not rotate. */
  lemma NoneResultNotRetried(upstream: Upstream, n: nat, index: nat)
    requires index < n
    requires upstream(0, index) == NoneResult
    ensures RetryLoop(upstream, IsQuotaError, n, index, 0, MaxRetries, "") == RetryRun(Err(NoneResponseMessage), index, 1, 0)
  {
    NoneResponseIsNotQuota();
  }

  /** The first position of `key` in `keys`. */
  function FirstIndexOf(keys: seq<string>, key: string): (i: nat)
    requires key in keys
    ensures i < |keys| && keys[i] == key
    ensures forall j :: 0 <= j < i ==> keys[j] != key
  {
    if keys[0] == key then 0 else 1 + FirstIndexOf(keys[1..], key)
  }

  class GeminiClient {
    const apiKeys: seq<string>
    /** Index of the key whose SDK client serves the next call. */
    var currentKeyIndex: nat
    const maxRetries: nat

    ghost predicate Valid()
      reads this
    {
      |apiKeys| > 0 && currentKeyIndex < |apiKeys| && maxRetries == MaxRetries
    }

    constructor (apiKeys: seq<string>)
      requires |apiKeys| > 0
      ensures Valid()
      ensures this.apiKeys == apiKeys && currentKeyIndex == 0
    {
      this.apiKeys := apiKeys;
      currentKeyIndex := 0;
      maxRetries := MaxRetries;
    }

    /** The constructor's error path: an empty key list raises an error. */
    static method Create(apiKeys: seq<string>) returns (r: Result<GeminiClient>)
      ensures r.Err? <==> |apiKeys| == 0
      ensures r.Err? ==> r.error == NoKeysMessage
      ensures r.Ok? ==> fresh(r.value) && r.value.Valid() && r.value.apiKeys == apiKeys && r.value.currentKeyIndex == 0
    {
      if |apiKeys| == 0 {
        return Err(NoKeysMessage);
      }
      var c := new GeminiClient(apiKeys);
      return Ok(c);
    }

    /** Moves to the next key, wrapping around after the last one. */
    method RotateKey()
      requires Valid()
      modifies this
      ensures Valid()
      ensures currentKeyIndex == Next(old(currentKeyIndex), |apiKeys|)
    {
      currentKeyIndex := (currentKeyIndex + 1) % |apiKeys|;
    }

    /** Calls the SDK on the current key; on a quota error rotates and
        retries, at most `maxRetries` times; any other failure, including a
        None result, stops at once. The result and the key left current are
        those of RetryLoop from the current key. */
    method ExecuteWithRetry(upstream: Upstream) returns (r: Result<Response>)
      requires Valid()
      modifies this
      ensures Valid()
      ensures var run := RetryLoop(upstream, IsQuotaError, |apiKeys|, old(currentKeyIndex), 0, maxRetries, "");
              r == run.result && currentKeyIndex == run.finalIndex
    {
      ghost var run := RetryLoop(upstream, IsQuotaError, |apiKeys|, currentKeyIndex, 0, maxRetries, "");
      var retries := 0;
      var lastError := "";
      while retries <= maxRetries
        invariant Valid()
        invariant RetryLoop(upstream, IsQuotaError, |apiKeys|, currentKeyIndex, retries, maxRetries, lastError) == run
        decreases maxRetries + 1 - retries
      {
        var outcome := upstream(retries, currentKeyIndex);
        if outcome.Success? {
          return Ok(outcome.response);
        }
        lastError := FailureMessage(outcome);
        if IsQuotaError(lastError) {
          RotateKey();
          retries := retries + 1;
        } else {
          return Err(lastError);
        }
      }
      return Err(lastError);
    }

    /** Makes `apiKey` current: its first position in the list, or an error
        that leaves the index alone when the key is not in the list. */
    method SetApiKey(apiKey: string) returns (r: Result<()>)
      requires Valid()
      modifies this
      ensures Valid()
      ensures r.Err? <==> apiKey !in apiKeys
      ensures r.Err? ==> r.error == InvalidKeyMessage && currentKeyIndex == old(currentKeyIndex)
      ensures r.Ok? ==> currentKeyIndex == FirstIndexOf(apiKeys, apiKey)
    {
      if apiKey !in apiKeys {
        return Err(InvalidKeyMessage);
      }
      var idx := 0;
      while apiKeys[idx] != apiKey
        invariant 0 <= idx < |apiKeys|
        invariant apiKey in apiKeys[idx..]
        invariant forall j :: 0 <= j < idx ==> apiKeys[j] != apiKey
        decreases |apiKeys| - idx
      {
        assert apiKeys[idx..] == [apiKeys[idx]] + apiKeys[idx + 1..];
        idx := idx + 1;
      }
      currentKeyIndex := idx;
      return Ok(());
    }
  }
}
