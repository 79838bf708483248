/**
 * The follow repository: the `followers` table (one row per follow relation, in insertion
 * order), the `follow_requests` table, the `followers_count` / `following_count` columns of
 * `user_stats`, and the `is_public` column of `users` that the follow rules read.
 */
module FollowRepository {
  import opened Wrappers
  import opened UserStats

  const Pending := "pending"
  const Accepted := "accepted"
  const Declined := "declined"

  const FollowersColumn := "followers_count"
  const FollowingColumn := "following_count"

  /** A row of `followers`: `follower` follows `following`. */
  datatype Link = Link(follower: string, following: string)

  /** A row of `follow_requests`. */
  datatype Request = Request(follower: string, following: string, status: string)

  // ---------------------------------------------------------------- counting queries

  /** `GetFollowersCount`: the rows whose followed user is `u`. */
  function FollowersCount(links: seq<Link>, u: string): (n: nat)
    ensures n <= |links|
    ensures n > 0 <==> exists l :: l in links && l.following == u
  {
    if links == [] then 0
    else
      var init := links[..|links| - 1];
      var last := links[|links| - 1];
      assert forall l :: l in links <==> l in init || l == last;
      FollowersCount(init, u) + (if last.following == u then 1 else 0)
  }

  /** `GetFollowingCount`: the rows whose follower is `u`. */
  function FollowingCount(links: seq<Link>, u: string): (n: nat)
    ensures n <= |links|
    ensures n > 0 <==> exists l :: l in links && l.follower == u
  {
    if links == [] then 0
    else
      var init := links[..|links| - 1];
      var last := links[|links| - 1];
      assert forall l :: l in links <==> l in init || l == last;
      FollowingCount(init, u) + (if last.follower == u then 1 else 0)
  }

  /** The rows equal to `l`. */
  function LinkCount(links: seq<Link>, l: Link): (n: nat)
    ensures n <= |links|
    ensures n > 0 <==> l in links
  {
    if links == [] then 0
    else
      var init := links[..|links| - 1];
      assert links == init + [links[|links| - 1]];
      LinkCount(init, l) + (if links[|links| - 1] == l then 1 else 0)
  }

  /** `IsFollowing`: the COUNT of (follower, following) rows is positive, i.e. such a row exists. */
  function IsFollowing(links: seq<Link>, f: string, t: string): (b: bool)
    ensures b <==> Link(f, t) in links
  {
    LinkCount(links, Link(f, t)) > 0
  }

  /** No relation is stored twice (the unique pair the table definition asks for). */
  predicate Distinct(links: seq<Link>)
  {
    forall i, j :: 0 <= i < j < |links| ==> links[i] != links[j]
  }

  /** `DeleteFollower`'s DELETE: every row equal to `l` goes, the others keep their order. */
  function Unlinked(links: seq<Link>, l: Link): (r: seq<Link>)
    ensures forall x :: x in r <==> x in links && x != l
    ensures |r| <= |links|
  {
    if links == [] then []
    else
      var init := links[..|links| - 1];
      var last := links[|links| - 1];
      assert forall x :: x in links <==> x in init || x == last;
      Unlinked(init, l) + (if last == l then [] else [last])
  }

  /** `GetMutualFollowersCount`: the join of the rows following `a` and the rows following `b` on the follower. */
  function MutualCount(outer: seq<Link>, all: seq<Link>, a: string, b: string): (n: nat)
    ensures n > 0 <==> exists x :: Link(x, a) in outer && Link(x, b) in all
  {
    if outer == [] then 0
    else
      var init := outer[..|outer| - 1];
      var last := outer[|outer| - 1];
      assert forall l :: l in outer <==> l in init || l == last;
      MutualCount(init, all, a, b) + (if last.following == a then LinkCount(all, Link(last.follower, b)) else 0)
  }

  /** The users following both `a` and `b`. */
  function CommonFollowers(outer: seq<Link>, all: seq<Link>, a: string, b: string): set<string>
  {
    set l | l in outer && l.following == a && Link(l.follower, b) in all :: l.follower
  }

  /** With no duplicate rows, the join counts each common follower once. */
  lemma {:induction false} MutualCountIsCommonFollowers(outer: seq<Link>, all: seq<Link>, a: string, b: string)
    requires Distinct(outer) && Distinct(all)
    ensures MutualCount(outer, all, a, b) == |CommonFollowers(outer, all, a, b)|
  {
    if outer != [] {
      var init := outer[..|outer| - 1];
      var last := outer[|outer| - 1];
      assert Distinct(init);
      MutualCountIsCommonFollowers(init, all, a, b);
      assert forall l :: l in outer <==> l in init || l == last;
      var before := CommonFollowers(init, all, a, b);
      if last.following == a && Link(last.follower, b) in all {
        LinkCountDistinct(all, Link(last.follower, b));
        assert last !in init by {
          forall i | 0 <= i < |init| ensures init[i] != last {
            assert outer[i] != outer[|outer| - 1];
          }
        }
        assert last.follower !in before;
        assert CommonFollowers(outer, all, a, b) == before + {last.follower};
      } else {
        assert CommonFollowers(outer, all, a, b) == before;
      }
    }
  }

  /** In a table without duplicates, a row occurs at most once. */
  lemma {:induction false} LinkCountDistinct(links: seq<Link>, l: Link)
    requires Distinct(links)
    ensures LinkCount(links, l) <= 1
  {
    if links != [] {
      var init := links[..|links| - 1];
      assert Distinct(init);
      LinkCountDistinct(init, l);
      if links[|links| - 1] == l {
        assert l !in init by {
          forall i | 0 <= i < |init| ensures init[i] != l {
            assert links[i] != links[|links| - 1];
          }
        }
      }
    }
  }

  // ---------------------------------------------------------------- requests

  /** `GetFollowRequest`: the first request row for the pair, or none. */
  function FirstRequest(requests: seq<Request>, f: string, t: string): (r: Option<Request>)
    ensures r.Some? ==> r.value in requests && r.value.follower == f && r.value.following == t
    ensures r.None? <==> forall q :: q in requests ==> !(q.follower == f && q.following == t)
  {
    if requests == [] then None
    else if requests[0].follower == f && requests[0].following == t then Some(requests[0])
    else
      assert forall q :: q in requests <==> q == requests[0] || q in requests[1..];
      FirstRequest(requests[1..], f, t)
  }

  /** `UpdateFollowRequestStatus`: every request row of the pair gets `status`. */
  function WithRequestStatus(requests: seq<Request>, f: string, t: string, status: string): (r: seq<Request>)
    ensures |r| == |requests|
    ensures forall i :: 0 <= i < |r| ==>
      r[i] == if requests[i].follower == f && requests[i].following == t then requests[i].(status := status) else requests[i]
  {
    seq(|requests|, i requires 0 <= i < |requests| =>
      if requests[i].follower == f && requests[i].following == t then requests[i].(status := status) else requests[i])
  }

  /**
   * `GetPendingFollowRequests`: the pending requests addressed to `u`, newest first; rows are
   * kept in the order they were created, so `ORDER BY created_at DESC` reads them from the back.
   */
  function PendingFor(requests: seq<Request>, u: string): (r: seq<Request>)
    ensures forall q :: q in r <==> q in requests && q.following == u && q.status == Pending
    ensures |r| <= |requests|
  {
    if requests == [] then []
    else
      var init := requests[..|requests| - 1];
      var last := requests[|requests| - 1];
      assert forall q :: q in requests <==> q in init || q == last;
      (if last.following == u && last.status == Pending then [last] else []) + PendingFor(init, u)
  }

  /** A request made after all the others heads the list when it is pending for `u`. */
  lemma {:induction false} PendingNewestFirst(requests: seq<Request>, q: Request, u: string)
    ensures PendingFor(requests + [q], u)
      == (if q.following == u && q.status == Pending then [q] else []) + PendingFor(requests, u)
  {
    assert (requests + [q])[..|requests|] == requests;
  }

  /**
   * `GetUsersNotFollowed`: everyone but `u`, those `u` follows, and those `u` has a pending
   * request to, newest first; `users` lists the accounts in the order they were created.
   */
  function UsersNotFollowed(users: seq<string>, links: seq<Link>, requests: seq<Request>, u: string): (r: seq<string>)
    ensures forall x :: x in r <==>
      x in users && x != u && Link(u, x) !in links && Request(u, x, Pending) !in requests
    ensures |r| <= |users|
  {
    if users == [] then []
    else
      var init := users[..|users| - 1];
      var x := users[|users| - 1];
      assert forall y :: y in users <==> y in init || y == x;
      (if x != u && Link(u, x) !in links && Request(u, x, Pending) !in requests then [x] else [])
      + UsersNotFollowed(init, links, requests, u)
  }

  /** An account created after all the others heads the suggestions when it qualifies. */
  lemma {:induction false} UsersNotFollowedNewestFirst(users: seq<string>, links: seq<Link>, requests: seq<Request>, u: string, x: string)
    ensures UsersNotFollowed(users + [x], links, requests, u)
      == (if x != u && Link(u, x) !in links && Request(u, x, Pending) !in requests then [x] else [])
        + UsersNotFollowed(users, links, requests, u)
  {
    assert (users + [x])[..|users|] == users;
  }

  // ---------------------------------------------------------------- counters

  /** The two counter steps of `CreateFollower` (`true`) or `DeleteFollower` (`false`). */
  function Stepped(stats: Table, l: Link, increment: bool): Table
  {
    Bump(Bump(stats, l.following, FollowersColumn, increment), l.follower, FollowingColumn, increment)
  }

  /** The counters agree with the `followers` rows, as `GetFollowersCount` / `GetFollowingCount` read them. */
  ghost predicate Tracks(links: seq<Link>, stats: Table)
  {
    forall u :: Get(stats, u, FollowersColumn) == FollowersCount(links, u) &&
      Get(stats, u, FollowingColumn) == FollowingCount(links, u)
  }

  /** The invariant of the follow tables. */
  ghost predicate ValidTables(links: seq<Link>, stats: Table)
  {
    NonNegative(stats) && Tracks(links, stats) && Distinct(links)
  }

  /** The two counter steps: each column moves by one (clamped at 0 going down), nothing else moves. */
  lemma SteppedCounters(stats: Table, l: Link, increment: bool)
    requires NonNegative(stats)
    ensures NonNegative(Stepped(stats, l, increment))
    ensures forall u :: (Get(Stepped(stats, l, increment), u, FollowersColumn) ==
      if u != l.following then Get(stats, u, FollowersColumn)
      else if increment then Get(stats, u, FollowersColumn) + 1
      else if Get(stats, u, FollowersColumn) > 0 then Get(stats, u, FollowersColumn) - 1 else 0)
    ensures forall u :: (Get(Stepped(stats, l, increment), u, FollowingColumn) ==
      if u != l.follower then Get(stats, u, FollowingColumn)
      else if increment then Get(stats, u, FollowingColumn) + 1
      else if Get(stats, u, FollowingColumn) > 0 then Get(stats, u, FollowingColumn) - 1 else 0)
  {
    var once := Bump(stats, l.following, FollowersColumn, increment);
    BumpStep(stats, l.following, FollowersColumn, increment);
    BumpStep(once, l.follower, FollowingColumn, increment);
  }

  /** `CreateFollower` keeps the counters in step, and the invariant when the relation is new. */
  lemma ValidAfterLink(links: seq<Link>, stats: Table, l: Link)
    requires NonNegative(stats) && Tracks(links, stats)
    ensures NonNegative(Stepped(stats, l, true)) && Tracks(links + [l], Stepped(stats, l, true))
    ensures Distinct(links) && l !in links ==> Distinct(links + [l])
  {
    SteppedCounters(stats, l, true);
    assert (links + [l])[..|links|] == links;
  }

  /** Removing a relation stored once lowers the two counts it contributed to by one. */
  lemma {:induction false} CountsAfterUnlink(links: seq<Link>, l: Link, u: string)
    requires Distinct(links) && l in links
    ensures FollowersCount(Unlinked(links, l), u) == FollowersCount(links, u) - (if l.following == u then 1 else 0)
    ensures FollowingCount(Unlinked(links, l), u) == FollowingCount(links, u) - (if l.follower == u then 1 else 0)
  {
    var init := links[..|links| - 1];
    var last := links[|links| - 1];
    assert Distinct(init);
    if last == l {
      assert l !in init by {
        forall i | 0 <= i < |init| ensures init[i] != l {
          assert links[i] != links[|links| - 1];
        }
      }
      UnlinkedAbsent(init, l);
      assert Unlinked(links, l) == init;
    } else {
      assert l in init by {
        assert forall x :: x in links <==> x in init || x == last;
      }
      CountsAfterUnlink(init, l, u);
      var rest := Unlinked(init, l);
      assert Unlinked(links, l) == rest + [last];
      assert (rest + [last])[..|rest|] == rest;
      assert FollowersCount(rest + [last], u) == FollowersCount(rest, u) + (if last.following == u then 1 else 0);
      assert FollowingCount(rest + [last], u) == FollowingCount(rest, u) + (if last.follower == u then 1 else 0);
    }
  }

  /** Unlinking a relation that is not stored changes nothing. */
  lemma {:induction false} UnlinkedAbsent(links: seq<Link>, l: Link)
    requires l !in links
    ensures Unlinked(links, l) == links
  {
    if links != [] {
      var init := links[..|links| - 1];
      assert links == init + [links[|links| - 1]];
      UnlinkedAbsent(init, l);
    }
  }

  /** Removing rows keeps the remaining ones distinct. */
  lemma {:induction false} DistinctAfterUnlink(links: seq<Link>, l: Link)
    requires Distinct(links)
    ensures Distinct(Unlinked(links, l))
  {
    if links != [] {
      var init := links[..|links| - 1];
      var last := links[|links| - 1];
      assert Distinct(init);
      DistinctAfterUnlink(init, l);
      if last != l {
        assert last !in init by {
          forall i | 0 <= i < |init| ensures init[i] != last {
            assert links[i] != links[|links| - 1];
          }
        }
        var r := Unlinked(init, l);
        assert last !in r;
        forall i, j | 0 <= i < j < |r + [last]| ensures (r + [last])[i] != (r + [last])[j] {
          if j == |r| {
            assert (r + [last])[i] == r[i];
          } else {
            assert (r + [last])[i] == r[i] && (r + [last])[j] == r[j];
          }
        }
      }
    }
  }

  /** `DeleteFollower` of a stored relation keeps the invariant. */
  lemma ValidAfterUnlink(links: seq<Link>, stats: Table, l: Link)
    requires ValidTables(links, stats) && l in links
    ensures ValidTables(Unlinked(links, l), Stepped(stats, l, false))
  {
    SteppedCounters(stats, l, false);
    DistinctAfterUnlink(links, l);
    forall u
      ensures Get(Stepped(stats, l, false), u, FollowersColumn) == FollowersCount(Unlinked(links, l), u)
      ensures Get(Stepped(stats, l, false), u, FollowingColumn) == FollowingCount(Unlinked(links, l), u)
    {
      CountsAfterUnlink(links, l, u);
    }
  }

  // ---------------------------------------------------------------- the store

  class FollowStore {
    var links: seq<Link>
    var requests: seq<Request>
    var stats: Table
    /** `users.is_public`; a user missing here does not exist. */
    var isPublic: map<string, bool>

    ghost predicate Valid()
      reads this
    {
      ValidTables(links, stats)
    }

    constructor(isPublic: map<string, bool>)
      ensures this.isPublic == isPublic && links == [] && requests == [] && stats == map[]
      ensures Valid()
    {
      this.isPublic := isPublic;
      links := [];
      requests := [];
      stats := map[];
    }

    /** `CreateFollowRequest`: a new pending row. */
    method CreateFollowRequest(f: string, t: string)
      modifies this
      ensures requests == old(requests) + [Request(f, t, Pending)]
      ensures links == old(links) && stats == old(stats) && isPublic == old(isPublic)
    {
      requests := requests + [Request(f, t, Pending)];
    }

    /** `UpdateFollowRequestStatus`. */
    method UpdateFollowRequestStatus(f: string, t: string, status: string)
      modifies this
      ensures requests == WithRequestStatus(old(requests), f, t, status)
      ensures links == old(links) && stats == old(stats) && isPublic == old(isPublic)
    {
      requests := WithRequestStatus(requests, f, t, status);
    }

    /** `CreateFollower`: the row and both counters, in one transaction. */
    method CreateFollower(f: string, t: string)
      requires NonNegative(stats) && Tracks(links, stats)
      modifies this
      ensures links == old(links) + [Link(f, t)] && stats == Stepped(old(stats), Link(f, t), true)
      ensures NonNegative(stats) && Tracks(links, stats)
      ensures old(Valid()) && !IsFollowing(old(links), f, t) ==> Valid()
      ensures requests == old(requests) && isPublic == old(isPublic)
    {
      ValidAfterLink(links, stats, Link(f, t));
      links := links + [Link(f, t)];
      stats := Stepped(stats, Link(f, t), true);
    }

    /** `DeleteFollower`: every matching row, and one decrement of each counter. */
    method DeleteFollower(f: string, t: string)
      modifies this
      ensures links == Unlinked(old(links), Link(f, t)) && stats == Stepped(old(stats), Link(f, t), false)
      ensures old(Valid()) && IsFollowing(old(links), f, t) ==> Valid()
      ensures requests == old(requests) && isPublic == old(isPublic)
    {
      if Valid() && IsFollowing(links, f, t) {
        ValidAfterUnlink(links, stats, Link(f, t));
      }
      links := Unlinked(links, Link(f, t));
      stats := Stepped(stats, Link(f, t), false);
    }

    /** The `is_public = !isPrivate` column write of `UpdateUserProfile`. */
    method SetPrivacy(u: string, isPrivate: bool)
      modifies this
      ensures isPublic == old(isPublic)[u := !isPrivate]
      ensures links == old(links) && requests == old(requests) && stats == old(stats)
    {
      isPublic := isPublic[u := !isPrivate];
    }
  }
}
