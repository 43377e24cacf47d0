/** The sliding-window rate limiter and what it promises over its whole history. */
module RateLimit {
  datatype Call = Call(key: string, now: real)

  datatype Policy = Policy(limit: int, window: real)

  /** The monotonic clock. */
  predicate Nondecreasing(calls: seq<Call>) {
    forall i, j :: 0 <= i < j < |calls| ==> calls[i].now <= calls[j].now
  }

  /** The hits still inside the window: popping from the left while the oldest is at least a window old. */
  function Prune(p: Policy, hits: seq<real>, now: real): seq<real> {
    if hits != [] && now - hits[0] >= p.window then Prune(p, hits[1..], now) else hits
  }

  /** The deque of a key after a history of calls of all keys. */
  function Hits(p: Policy, calls: seq<Call>, key: string): seq<real>
    decreases |calls|, 0
  {
    if calls == [] then []
    else
      var before, c := calls[..|calls| - 1], calls[|calls| - 1];
      if c.key != key then Hits(p, before, key)
      else if Admits(p, before, c) then Prune(p, Hits(p, before, key), c.now) + [c.now]
      else Prune(p, Hits(p, before, key), c.now)
  }

  /** Is the call accepted after this history? */
  predicate Admits(p: Policy, calls: seq<Call>, c: Call)
    decreases |calls|, 1
  {
    |Prune(p, Hits(p, calls, c.key), c.now)| < p.limit
  }

  /** When the accepted calls of a key happened. */
  function Accepted(p: Policy, calls: seq<Call>, key: string): seq<real> {
    if calls == [] then []
    else
      var before, c := calls[..|calls| - 1], calls[|calls| - 1];
      Accepted(p, before, key) + if c.key == key && Admits(p, before, c) then [c.now] else []
  }

  // ------------------------------------------------------------------ the limiter

  /** `NoOldestHit` is the IndexError of a limit below one, where the refusal looks at the head of an empty deque. */
  datatype Answer = Allowed | Refused(retryAfter: real) | NoOldestHit

  class RateLimiter {
    const policy: Policy
    var hits: map<string, seq<real>>
    ghost var calls: seq<Call>

    constructor (limit: int, window: real)
      ensures Valid() && policy == Policy(limit, window) && calls == []
    {
      policy, hits, calls := Policy(limit, window), map[], [];
    }

    /** The deques are those the history of calls leaves. */
    ghost predicate Valid()
      reads this
    {
      forall key {:trigger Hits(policy, calls, key)} ::
        Hits(policy, calls, key) == if key in hits then hits[key] else []
    }

    method Allow(key: string, now: real) returns (answer: Answer)
      requires Valid() && Nondecreasing(calls + [Call(key, now)])
      modifies this
      ensures Valid() && calls == old(calls) + [Call(key, now)]
      ensures answer == Allowed <==> Admits(policy, old(calls), Call(key, now))
      ensures answer == NoOldestHit <==> policy.limit <= 0
      ensures answer.Refused? ==> answer.retryAfter == RetryAfter(policy, old(calls), Call(key, now))
    {
      ghost var before := Hits(policy, calls, key);
      ghost var call := Call(key, now);
      assert (calls + [call])[..|calls|] == calls;
      NothingWithoutLimit(policy, calls, key);
      var recent := if key in hits then hits[key] else [];
      while recent != [] && now - recent[0] >= policy.window
        invariant Prune(policy, recent, now) == Prune(policy, before, now)
        invariant before == [] ==> recent == []
        decreases |recent|
      {
        recent := recent[1..];
      }
      if |recent| >= policy.limit {
        if recent == [] {
          answer := NoOldestHit;
        } else {
          var wait := policy.window - (now - recent[0]);
          answer := Refused(if wait > 0.0 then wait else 0.0);
        }
      } else {
        recent := recent + [now];
        answer := Allowed;
      }
      var updated := hits[key := recent];
      forall k ensures Hits(policy, calls + [call], k) == if k in updated then updated[k] else [] {
      }
      hits := updated;
      calls := calls + [call];
    }
  }

  /** A limit below one accepts nothing, so no deque ever has a head. */
  lemma {:induction false} NothingWithoutLimit(p: Policy, calls: seq<Call>, key: string)
    ensures p.limit <= 0 ==> Hits(p, calls, key) == []
  {
    if calls != [] { NothingWithoutLimit(p, calls[..|calls| - 1], key); }
  }

  /** What a refusal reports: how long until the oldest hit leaves the window. */
  function RetryAfter(p: Policy, calls: seq<Call>, c: Call): real
    requires p.limit >= 1 && !Admits(p, calls, c)
  {
    p.window - (c.now - Prune(p, Hits(p, calls, c.key), c.now)[0])
  }

  // ---------------------------------------------------------------- over histories

  lemma {:induction false} PruneIsSuffix(p: Policy, hits: seq<real>, now: real) returns (k: nat)
    ensures k <= |hits| && Prune(p, hits, now) == hits[k..]
    ensures forall i :: 0 <= i < k ==> now - hits[i] >= p.window
    ensures k < |hits| ==> now - hits[k] < p.window
  {
    k := 0;
    if hits != [] && now - hits[0] >= p.window {
      var k' := PruneIsSuffix(p, hits[1..], now);
      k := k' + 1;
      assert hits[1..][k'..] == hits[k..];
      assert forall i :: 0 < i < k ==> hits[i] == hits[1..][i - 1];
    }
  }

  /** The deque is the tail of the accepted calls; everything before it left the window. */
  ghost predicate IsWindow(p: Policy, accepted: seq<real>, hits: seq<real>, now: real) {
    && |hits| <= |accepted| && |hits| <= p.limit
    && hits == accepted[|accepted| - |hits|..]
    && (forall i :: 0 <= i < |accepted| - |hits| ==> now - accepted[i] >= p.window)
    && (forall i :: 0 <= i < |accepted| ==> accepted[i] <= now)
  }

  /** No `limit + 1` successive accepted calls fall inside one window. */
  ghost predicate Spaced(p: Policy, accepted: seq<real>)
    requires p.limit >= 1
  {
    forall i :: 0 <= i && i + p.limit < |accepted| ==> accepted[i + p.limit] - accepted[i] >= p.window
  }

  lemma {:induction false} WindowOverHistory(p: Policy, calls: seq<Call>, key: string, now: real)
    requires p.limit >= 1 && Nondecreasing(calls) && (calls != [] ==> calls[|calls| - 1].now <= now)
    ensures IsWindow(p, Accepted(p, calls, key), Hits(p, calls, key), now)
    ensures Spaced(p, Accepted(p, calls, key))
  {
    hide IsWindow, Spaced;
    if calls == [] {
      NoCalls(p, now);
    } else {
      var n := |calls| - 1;
      var c := calls[n];
      var hits, accepted := Hits(p, calls[..n], key), Accepted(p, calls[..n], key);
      WindowOverHistory(p, calls[..n], key, c.now);
      assert accepted + [] == accepted;
      if c.key == key { WindowStep(p, accepted, hits, c.now); }
      WindowLater(p, Accepted(p, calls, key), Hits(p, calls, key), c.now, now);
    }
  }

  lemma NoCalls(p: Policy, now: real)
    requires p.limit >= 1
    ensures IsWindow(p, [], [], now) && Spaced(p, [])
  {
  }

  lemma WindowLater(p: Policy, accepted: seq<real>, hits: seq<real>, at: real, now: real)
    requires IsWindow(p, accepted, hits, at) && at <= now
    ensures IsWindow(p, accepted, hits, now)
  {
  }

  /** Popping expired hits moves the window along. */
  lemma WindowPruned(p: Policy, accepted: seq<real>, hits: seq<real>, k: nat, now: real)
    requires p.limit >= 1 && IsWindow(p, accepted, hits, now)
    requires k <= |hits| && forall i :: 0 <= i < k ==> now - hits[i] >= p.window
    ensures IsWindow(p, accepted, hits[k..], now)
  {
    var m := |accepted| - |hits|;
    assert hits[k..] == accepted[m + k..];
    forall i | m <= i < m + k ensures now - accepted[i] >= p.window {
      assert accepted[i] == hits[i - m];
    }
  }

  /** A call is accepted only when all but the last limit - 1 accepted ones have left the window. */
  lemma WindowAdmits(p: Policy, accepted: seq<real>, hits: seq<real>, now: real)
    requires p.limit >= 1 && IsWindow(p, accepted, hits, now) && Spaced(p, accepted) && |hits| < p.limit
    ensures IsWindow(p, accepted + [now], hits + [now], now) && Spaced(p, accepted + [now])
  {
    var m := |accepted| - |hits|;
    assert hits + [now] == (accepted + [now])[m..];
  }

  lemma WindowStep(p: Policy, accepted: seq<real>, hits: seq<real>, now: real)
    requires p.limit >= 1 && IsWindow(p, accepted, hits, now) && Spaced(p, accepted)
    ensures var recent := Prune(p, hits, now);
            if |recent| < p.limit then IsWindow(p, accepted + [now], recent + [now], now) && Spaced(p, accepted + [now])
            else IsWindow(p, accepted, recent, now)
  {
    hide IsWindow, Spaced;
    var k := PruneIsSuffix(p, hits, now);
    WindowPruned(p, accepted, hits, k, now);
    if |hits[k..]| < p.limit { WindowAdmits(p, accepted, hits[k..], now); }
  }

  /** Over every history of interleaved calls, any limit + 1 successive accepted calls of one key span at least the
      window. */
  lemma NeverOverLimit(p: Policy, calls: seq<Call>, key: string, i: nat)
    requires p.limit >= 1 && Nondecreasing(calls)
    requires i + p.limit < |Accepted(p, calls, key)|
    ensures Accepted(p, calls, key)[i + p.limit] - Accepted(p, calls, key)[i] >= p.window
  {
    WindowOverHistory(p, calls, key, calls[|calls| - 1].now);
  }

  lemma {:induction false} AcceptedInOrder(p: Policy, calls: seq<Call>, key: string)
    requires Nondecreasing(calls)
    ensures forall i, j :: 0 <= i < j < |Accepted(p, calls, key)| ==>
              Accepted(p, calls, key)[i] <= Accepted(p, calls, key)[j]
    ensures calls != [] ==>
              forall i :: 0 <= i < |Accepted(p, calls, key)| ==> Accepted(p, calls, key)[i] <= calls[|calls| - 1].now
  {
    hide Admits;
    if calls != [] { AcceptedInOrder(p, calls[..|calls| - 1], key); }
  }

  /** Which accepted calls lie less than a window before `now`. */
  function Recent(p: Policy, accepted: seq<real>, now: real): set<int> {
    set i | 0 <= i < |accepted| && now - accepted[i] < p.window
  }

  lemma {:induction false} RecentAreLast(p: Policy, accepted: seq<real>, now: real, m: nat)
    requires m <= |accepted|
    requires forall i :: 0 <= i < m ==> now - accepted[i] >= p.window
    requires forall i :: m <= i < |accepted| ==> now - accepted[i] < p.window
    ensures |Recent(p, accepted, now)| == |accepted| - m
    decreases |accepted|
  {
    if m == |accepted| {
      assert Recent(p, accepted, now) == {};
    } else {
      var n := |accepted| - 1;
      RecentAreLast(p, accepted[..n], now, m);
      assert Recent(p, accepted, now) == Recent(p, accepted[..n], now) + {n};
    }
  }

  lemma WindowSize(p: Policy, accepted: seq<real>, hits: seq<real>, now: real)
    requires IsWindow(p, accepted, hits, now)
    requires forall i, j :: 0 <= i < j < |accepted| ==> accepted[i] <= accepted[j]
    ensures |Prune(p, hits, now)| == |Recent(p, accepted, now)|
  {
    var k := PruneIsSuffix(p, hits, now);
    var m := |accepted| - |hits|;
    forall i | 0 <= i < m + k ensures now - accepted[i] >= p.window {
      if i >= m { assert accepted[i] == hits[i - m]; }
    }
    if k < |hits| { assert accepted[m + k] == hits[k]; }
    RecentAreLast(p, accepted, now, m + k);
  }

  /** Counted on the accepted calls alone: over every history, a call is accepted if and only if fewer than `limit`
      accepted calls of its key lie less than a window before it. */
  lemma AdmitsExactly(p: Policy, calls: seq<Call>, c: Call)
    requires Nondecreasing(calls + [c])
    ensures Admits(p, calls, c) <==> |Recent(p, Accepted(p, calls, c.key), c.now)| < p.limit
  {
    if p.limit >= 1 {
      hide IsWindow, Recent;
      BeforeLast(calls, c);
      WindowOverHistory(p, calls, c.key, c.now);
      AcceptedInOrder(p, calls, c.key);
      WindowSize(p, Accepted(p, calls, c.key), Hits(p, calls, c.key), c.now);
    }
  }

  lemma BeforeLast(calls: seq<Call>, c: Call)
    requires Nondecreasing(calls + [c])
    ensures Nondecreasing(calls) && (calls != [] ==> calls[|calls| - 1].now <= c.now)
  {
    var all := calls + [c];
    assert all[|calls|] == c && forall i :: 0 <= i < |calls| ==> all[i] == calls[i];
  }

  /** Calls of the key before the oldest hit expires leave its full deque alone. */
  lemma {:induction false} FullUntil(p: Policy, calls: seq<Call>, later: seq<Call>, key: string, hits: seq<real>)
    requires hits != [] && |hits| >= p.limit && hits == Hits(p, calls, key)
    requires forall c :: c in later && c.key == key ==> c.now - hits[0] < p.window
    ensures Hits(p, calls + later, key) == hits
  {
    if later == [] {
      assert calls + later == calls;
    } else {
      var n := |later| - 1;
      assert (calls + later)[..|calls + later| - 1] == calls + later[..n];
      assert later[n] in later;
      FullUntil(p, calls, later[..n], key, hits);
    }
  }

  /** The retry value of a refusal is exact. After it, whatever other keys do and however often this key is tried
      before, a call at time t is accepted if and only if t has reached the refusal time plus the retry value. */
  lemma RetryIsExact(p: Policy, calls: seq<Call>, c: Call, later: seq<Call>, t: real)
    requires p.limit >= 1 && Nondecreasing(calls + [c]) && !Admits(p, calls, c)
    requires forall d :: d in later && d.key == c.key ==> d.now < c.now + RetryAfter(p, calls, c)
    ensures RetryAfter(p, calls, c) > 0.0
    ensures Admits(p, calls + [c] + later, Call(c.key, t)) <==> t >= c.now + RetryAfter(p, calls, c)
  {
    var before := Hits(p, calls, c.key);
    var k := PruneIsSuffix(p, before, c.now);
    var hits := before[k..];
    assert (calls + [c])[..|calls|] == calls;
    assert hits == Hits(p, calls + [c], c.key) && hits != [];
    WindowOverHistory(p, calls + [c], c.key, c.now);
    FullUntil(p, calls + [c], later, c.key, hits);
    var k' := PruneIsSuffix(p, hits, t);
  }
}
