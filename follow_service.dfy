/**
 * The follow service: following a public profile directly, requesting to follow a private
 * one, unfollowing, and accepting or declining a request. Notifications and the user look-ups
 * that only feed them are not modelled; a user missing from `isPublic` does not exist.
 */
module FollowService {
  import opened Wrappers
  import opened UserStats
  import opened FollowRepository

  /** Whether the pair's first request row is pending. */
  predicate HasPendingRequest(requests: seq<Request>, f: string, t: string)
  {
    FirstRequest(requests, f, t).Some? && FirstRequest(requests, f, t).value.status == Pending
  }

  /** After the status update every request row of the pair carries the new status. */
  lemma FirstRequestAfterUpdate(requests: seq<Request>, f: string, t: string, status: string)
    requires FirstRequest(requests, f, t).Some?
    ensures FirstRequest(WithRequestStatus(requests, f, t, status), f, t) == Some(FirstRequest(requests, f, t).value.(status := status))
  {
    if requests[0].follower == f && requests[0].following == t {
      assert WithRequestStatus(requests, f, t, status)[0] == requests[0].(status := status);
    } else {
      assert WithRequestStatus(requests, f, t, status)[1..] == WithRequestStatus(requests[1..], f, t, status);
      FirstRequestAfterUpdate(requests[1..], f, t, status);
    }
  }

  /** A new request appended behind no earlier row for the pair is the one found. */
  lemma FirstRequestAfterAppend(requests: seq<Request>, q: Request)
    requires FirstRequest(requests, q.follower, q.following).None?
    ensures FirstRequest(requests + [q], q.follower, q.following) == Some(q)
  {
    if requests != [] {
      assert (requests + [q])[1..] == requests[1..] + [q];
      FirstRequestAfterAppend(requests[1..], q);
    }
  }

  /** `FollowUser`: `Ok(true)` for a new relation, `Ok(false)` for a (re)opened request. */
  method FollowUser(store: FollowStore, f: string, t: string) returns (r: Result<bool>)
    requires store.Valid()
    modifies store
    ensures store.Valid()
    ensures r.Ok? <==> (f != t && !IsFollowing(old(store.links), f, t) && t in store.isPublic &&
      (store.isPublic[t] || (f in store.isPublic && !HasPendingRequest(old(store.requests), f, t))))
    ensures f == t ==> r == Err("you cannot follow yourself")
    ensures f != t && IsFollowing(old(store.links), f, t) ==> r == Err("already following this user")
    ensures r.Ok? ==> r.value == store.isPublic[t]
    ensures r == Ok(true) ==> store.links == old(store.links) + [Link(f, t)] && store.requests == old(store.requests)
    ensures r == Ok(false) ==> store.links == old(store.links) && HasPendingRequest(store.requests, f, t)
    ensures r.Err? ==> store.links == old(store.links) && store.requests == old(store.requests)
    ensures r != Ok(true) ==> store.stats == old(store.stats)
    ensures IsFollowing(store.links, f, t) <==> r == Ok(true) || IsFollowing(old(store.links), f, t)
    ensures store.isPublic == old(store.isPublic)
  {
    if f == t {
      return Err("you cannot follow yourself");
    }
    if IsFollowing(store.links, f, t) {
      return Err("already following this user");
    }
    if t !in store.isPublic {
      return Err("user not found");
    }
    if store.isPublic[t] {
      store.CreateFollower(f, t);
      assert store.links[|store.links| - 1] == Link(f, t);
      return Ok(true);
    }
    var existing := FirstRequest(store.requests, f, t);
    if f !in store.isPublic {
      return Err("user not found");
    }
    if existing.Some? {
      if existing.value.status == Pending {
        return Err("follow request already pending");
      }
      FirstRequestAfterUpdate(store.requests, f, t, Pending);
      store.UpdateFollowRequestStatus(f, t, Pending);
    } else {
      FirstRequestAfterAppend(store.requests, Request(f, t, Pending));
      store.CreateFollowRequest(f, t);
    }
    return Ok(false);
  }

  /** `UnfollowUser`: only an existing relation, never one's own. */
  method UnfollowUser(store: FollowStore, f: string, t: string) returns (r: Status)
    modifies store
    ensures old(store.Valid()) ==> store.Valid()
    ensures r.Success? <==> f != t && IsFollowing(old(store.links), f, t)
    ensures f == t ==> r == Failure("you cannot unfollow yourself")
    ensures f != t && !IsFollowing(old(store.links), f, t) ==> r == Failure("not following this user")
    ensures r.Success? ==> store.links == Unlinked(old(store.links), Link(f, t)) && !IsFollowing(store.links, f, t)
    ensures r.Failure? ==> store.links == old(store.links) && store.stats == old(store.stats)
    ensures store.requests == old(store.requests) && store.isPublic == old(store.isPublic)
  {
    if f == t {
      return Failure("you cannot unfollow yourself");
    }
    if !IsFollowing(store.links, f, t) {
      return Failure("not following this user");
    }
    store.DeleteFollower(f, t);
    return Success;
  }

  /** The checks shared by accepting and declining a request. */
  function RequestRefusal(requests: seq<Request>, f: string, t: string): (e: Option<string>)
    ensures e.None? <==> HasPendingRequest(requests, f, t)
  {
    match FirstRequest(requests, f, t)
    case None => Some("follow request not found")
    case Some(q) => if q.status != Pending then Some("follow request is not pending") else None
  }

  /**
   * `AcceptFollowRequest` as written: the request becomes accepted and a relation row is
   * inserted, without asking whether the pair already follows.
   */
  method AcceptFollowRequest(store: FollowStore, f: string, t: string) returns (r: Status)
    requires NonNegative(store.stats) && Tracks(store.links, store.stats)
    modifies store
    ensures NonNegative(store.stats) && Tracks(store.links, store.stats)
    ensures old(store.Valid()) && !IsFollowing(old(store.links), f, t) ==> store.Valid()
    ensures r.Success? <==> f != "" && t != "" && HasPendingRequest(old(store.requests), f, t)
    ensures f == "" || t == "" ==> r == Failure("follower or following id is required")
    ensures r.Success? ==> (store.links == old(store.links) + [Link(f, t)] &&
      store.requests == WithRequestStatus(old(store.requests), f, t, Accepted))
    ensures r.Failure? ==> store.links == old(store.links) && store.requests == old(store.requests)
    ensures store.isPublic == old(store.isPublic)
  {
    if f == "" || t == "" {
      return Failure("follower or following id is required");
    }
    var refusal := RequestRefusal(store.requests, f, t);
    if refusal.Some? {
      return Failure(refusal.value);
    }
    store.UpdateFollowRequestStatus(f, t, Accepted);
    store.CreateFollower(f, t);
    return Success;
  }

  /** `AcceptFollowRequest` that only inserts the relation when the pair does not follow yet. */
  method AcceptFollowRequestOnce(store: FollowStore, f: string, t: string) returns (r: Status)
    requires store.Valid()
    modifies store
    ensures store.Valid()
    ensures r.Success? <==> f != "" && t != "" && HasPendingRequest(old(store.requests), f, t)
    ensures r.Success? ==> (IsFollowing(store.links, f, t) &&
      store.requests == WithRequestStatus(old(store.requests), f, t, Accepted))
    ensures r.Success? && !IsFollowing(old(store.links), f, t) ==> store.links == old(store.links) + [Link(f, t)]
    ensures r.Success? && IsFollowing(old(store.links), f, t) ==> store.links == old(store.links)
    ensures r.Failure? ==> store.links == old(store.links) && store.requests == old(store.requests)
    ensures store.isPublic == old(store.isPublic)
  {
    if f == "" || t == "" {
      return Failure("follower or following id is required");
    }
    var refusal := RequestRefusal(store.requests, f, t);
    if refusal.Some? {
      return Failure(refusal.value);
    }
    store.UpdateFollowRequestStatus(f, t, Accepted);
    if !IsFollowing(store.links, f, t) {
      store.CreateFollower(f, t);
      assert store.links[|store.links| - 1] == Link(f, t);
    }
    return Success;
  }

  /** `DeclineFollowRequest`: a pending request becomes declined; no relation is created. */
  method DeclineFollowRequest(store: FollowStore, f: string, t: string) returns (r: Status)
    modifies store
    ensures r.Success? <==> HasPendingRequest(old(store.requests), f, t)
    ensures r.Failure? ==> r == Failure(RequestRefusal(old(store.requests), f, t).value) && store.requests == old(store.requests)
    ensures r.Success? ==> store.requests == WithRequestStatus(old(store.requests), f, t, Declined)
    ensures store.links == old(store.links) && store.stats == old(store.stats) && store.isPublic == old(store.isPublic)
  {
    var refusal := RequestRefusal(store.requests, f, t);
    if refusal.Some? {
      return Failure(refusal.value);
    }
    store.UpdateFollowRequestStatus(f, t, Declined);
    return Success;
  }

  /** A suggestion of `GetSuggestedFriends`: a user and the number of followers it shares with the viewer. */
  datatype Suggestion = Suggestion(id: string, mutualFriends: nat)

  /** `GetSuggestedFriends`: every user not followed (and not requested), with its mutual-follower count. */
  method GetSuggestedFriends(store: FollowStore, users: seq<string>, u: string) returns (r: seq<Suggestion>)
    ensures |r| == |UsersNotFollowed(users, store.links, store.requests, u)|
    ensures forall i :: 0 <= i < |r| ==>
      r[i].id == UsersNotFollowed(users, store.links, store.requests, u)[i] &&
      r[i].mutualFriends == MutualCount(store.links, store.links, u, r[i].id)
  {
    var candidates := UsersNotFollowed(users, store.links, store.requests, u);
    r := [];
    var i := 0;
    while i < |candidates|
      invariant 0 <= i <= |candidates| && |r| == i
      invariant forall k :: 0 <= k < i ==>
        r[k].id == candidates[k] && r[k].mutualFriends == MutualCount(store.links, store.links, u, r[k].id)
    {
      r := r + [Suggestion(candidates[i], MutualCount(store.links, store.links, u, candidates[i]))];
      i := i + 1;
    }
  }

  /**
   * A request left pending while the target turns public lets `FollowUser` store the relation
   * and `AcceptFollowRequest` store it again: the table holds the pair twice, and after the
   * unfollow that deletes both rows the followed user's counter is still one above its rows.
   */
  lemma AcceptWhileFollowingDrifts(links: seq<Link>, stats: Table, l: Link)
    requires ValidTables(links, stats) && l in links
    ensures !Distinct(links + [l])
    ensures var twice := Stepped(stats, l, true);
      var after := Stepped(twice, l, false);
      Get(after, l.following, FollowersColumn) == FollowersCount(Unlinked(links + [l], l), l.following) + 1
  {
    var i :| 0 <= i < |links| && links[i] == l;
    assert (links + [l])[i] == (links + [l])[|links|];
    SteppedCounters(stats, l, true);
    SteppedCounters(Stepped(stats, l, true), l, false);
    CountsAfterUnlink(links, l, l.following);
    assert Unlinked(links + [l], l) == Unlinked(links, l) by {
      assert (links + [l])[..|links|] == links;
    }
  }
}
