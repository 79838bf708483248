/**
 * The sliding-window rate limiter: for each client key, the times of its admitted
 * requests. A request first prunes the key's times to those strictly after
 * `now - window`, is rejected when `limit` of them remain, and is otherwise admitted
 * and its time appended. Times are integers (nanoseconds); the clock is a parameter.
 */
module RateLimit {

  /** `defaultIPExtractor`: the X-Forwarded-For header when non-empty, else the remote address. */
  function ClientKey(forwardedFor: string, remoteAddr: string): (key: string)
    ensures forwardedFor != "" ==> key == forwardedFor
    ensures forwardedFor == "" ==> key == remoteAddr
  {
    if forwardedFor == "" then remoteAddr else forwardedFor
  }

  /** The times strictly after `cutoff`, in their original order (`t.After(cutoff)`). */
  function After(times: seq<int>, cutoff: int): (kept: seq<int>)
    ensures |kept| <= |times|
  {
    if times == [] then []
    else
      var last := times[|times| - 1];
      After(times[..|times| - 1], cutoff) + (if last > cutoff then [last] else [])
  }

  /** Exactly the times after the cutoff survive. */
  lemma {:induction false} AfterMembers(times: seq<int>, cutoff: int)
    ensures forall t :: t in After(times, cutoff) <==> t in times && t > cutoff
  {
    if times != [] {
      var init := times[..|times| - 1];
      AfterMembers(init, cutoff);
      assert times == init + [times[|times| - 1]];
    }
  }

  /** Filtering distributes over concatenation, so relative order is kept. */
  lemma {:induction false} AfterAppend(a: seq<int>, b: seq<int>, cutoff: int)
    ensures After(a + b, cutoff) == After(a, cutoff) + After(b, cutoff)
    decreases |b|
  {
    if b == [] {
      assert a + b == a;
    } else {
      var init := b[..|b| - 1];
      AfterAppend(a, init, cutoff);
      assert (a + b)[..|a + b| - 1] == a + init;
    }
  }

  /** Pruning twice with the same cutoff prunes once. */
  lemma {:induction false} AfterIdempotent(times: seq<int>, cutoff: int)
    ensures After(After(times, cutoff), cutoff) == After(times, cutoff)
  {
    if times != [] {
      var init := times[..|times| - 1];
      var last := times[|times| - 1];
      AfterIdempotent(init, cutoff);
      AfterAppend(After(init, cutoff), if last > cutoff then [last] else [], cutoff);
    }
  }

  /** The pruning loop of `Middleware`. */
  method Prune(times: seq<int>, cutoff: int) returns (valid: seq<int>)
    ensures valid == After(times, cutoff)
  {
    valid := [];
    var i := 0;
    while i < |times|
      invariant 0 <= i <= |times|
      invariant valid == After(times[..i], cutoff)
    {
      if times[i] > cutoff {
        valid := valid + [times[i]];
      }
      assert times[..i + 1][..i] == times[..i];
      i := i + 1;
    }
    assert times[..|times|] == times;
  }

  /** The limit as a bound on list lengths (a negative limit admits nothing). */
  function Cap(limit: int): nat
  {
    if limit < 0 then 0 else limit
  }

  /** The key's pruned times, or none when the key has no entry. */
  function Recent(requests: map<string, seq<int>>, key: string, cutoff: int): (r: seq<int>)
    ensures key in requests ==> r == After(requests[key], cutoff)
    ensures key !in requests ==> r == []
  {
    if key in requests then After(requests[key], cutoff) else []
  }

  class RateLimiter {
    var requests: map<string, seq<int>>
    const limit: int
    const window: int

    /** No stored list is longer than the limit. */
    ghost predicate Valid()
      reads this
    {
      forall key :: key in requests ==> |requests[key]| <= Cap(limit)
    }

    /** `NewRateLimiter`. */
    constructor(limit: int, window: int)
      ensures this.limit == limit && this.window == window
      ensures requests == map[]
      ensures Valid()
    {
      this.limit := limit;
      this.window := window;
      requests := map[];
    }

    /** One request from `key` at time `now`: prune, check, record. */
    method Handle(key: string, now: int) returns (admitted: bool)
      requires Valid()
      modifies this
      ensures Valid()
      ensures admitted <==> |Recent(old(requests), key, now - window)| < limit
      ensures admitted ==> requests == old(requests)[key := Recent(old(requests), key, now - window) + [now]]
      ensures !admitted && key in old(requests) ==> requests == old(requests)[key := Recent(old(requests), key, now - window)]
      ensures !admitted && key !in old(requests) ==> requests == old(requests)
      ensures forall other :: other != key ==>
        (other in requests <==> other in old(requests)) && (other in requests ==> requests[other] == old(requests)[other])
      ensures key in requests ==> forall t :: t in requests[key] ==> t > now - window || t == now
    {
      var cutoff := now - window;
      AfterMembers(if key in requests then requests[key] else [], cutoff);
      if key in requests {
        var valid := Prune(requests[key], cutoff);
        requests := requests[key := valid];
      }
      var current := if key in requests then requests[key] else [];
      if |current| >= limit {
        return false;
      }
      requests := requests[key := current + [now]];
      return true;
    }
  }

  /** A key may be admitted `limit` times at one instant, and the next request is refused. */
  method BurstAtOneInstant(key: string, now: int) returns (first: bool, second: bool, third: bool)
    ensures first && second && !third
  {
    var limiter := new RateLimiter(2, 1000);
    first := limiter.Handle(key, now);
    second := limiter.Handle(key, now);
    third := limiter.Handle(key, now);
  }

  /**
   * With a limit of one: refused one tick before the window has passed, admitted again
   * exactly one window later (the earlier time is no longer strictly after the cutoff).
   */
  method AdmittedAfterWindow(key: string, now: int) returns (inside: bool, boundary: bool)
    ensures !inside && boundary
  {
    var limiter := new RateLimiter(1, 1000);
    var first := limiter.Handle(key, now);
    inside := limiter.Handle(key, now + 999);
    boundary := limiter.Handle(key, now + 1000);
  }
}
