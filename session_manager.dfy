/**
 * The cookie session manager. The `sessions` table is a map from session id to its row; the
 * session id (a UUID in the source) and the current time in seconds are parameters, and the
 * cookie written to the response is returned as a value.
 */
module SessionManager {
  import opened Wrappers

  /** A `sessions` row. */
  datatype Session = Session(userId: string, expiresAt: int)

  /** The cookie a response sets: its name, its value, its expiry and its `Max-Age`. */
  datatype Cookie = Cookie(name: string, value: string, expires: int, maxAge: int)

  /** The ids of the user's sessions. */
  function SessionsOf(sessions: map<string, Session>, u: string): (ids: set<string>)
    ensures forall id :: id in ids <==> id in sessions && sessions[id].userId == u
  {
    set id | id in sessions && sessions[id].userId == u
  }

  /** At most one session per user. */
  predicate OnePerUser(sessions: map<string, Session>)
  {
    forall a, b :: a in sessions && b in sessions && sessions[a].userId == sessions[b].userId ==> a == b
  }

  /** `DeleteUserSessions`: every row of the user removed, every other row kept. */
  function WithoutUser(sessions: map<string, Session>, u: string): (r: map<string, Session>)
    ensures forall id :: id in r <==> id in sessions && sessions[id].userId != u
    ensures forall id :: id in r ==> r[id] == sessions[id]
    ensures SessionsOf(r, u) == {}
  {
    map id | id in sessions && sessions[id].userId != u :: sessions[id]
  }

  class SessionManager {
    var sessions: map<string, Session>
    const cookieName: string
    /** Seconds: both the session lifetime and the cookie's `Max-Age`. */
    const maxAge: int

    /** The sessions table holds at most one session per user. */
    predicate Valid()
      reads this
    {
      OnePerUser(sessions)
    }

    constructor(cookieName: string, maxAge: int)
      ensures this.cookieName == cookieName && this.maxAge == maxAge
      ensures sessions == map[] && Valid()
    {
      this.cookieName, this.maxAge := cookieName, maxAge;
      sessions := map[];
    }

    /**
     * `CreateSession`: deletes every session of the user, then stores `id` expiring `maxAge`
     * seconds from now and returns the cookie carrying it.
     */
    method CreateSession(u: string, id: string, now: int) returns (cookie: Cookie)
      requires id !in WithoutUser(sessions, u)
      modifies this
      ensures sessions == WithoutUser(old(sessions), u)[id := Session(u, now + maxAge)]
      ensures SessionsOf(sessions, u) == {id}
      ensures sessions[id].expiresAt == now + maxAge
      ensures forall v :: v != u ==> SessionsOf(sessions, v) == SessionsOf(old(sessions), v)
      ensures cookie == Cookie(cookieName, id, now + maxAge, maxAge)
      ensures old(Valid()) ==> Valid()
    {
      sessions := WithoutUser(sessions, u);
      sessions := sessions[id := Session(u, now + maxAge)];
      cookie := Cookie(cookieName, id, now + maxAge, maxAge);
    }

    /**
     * `GetUserFromSession`: the user of the cookie's session. A missing cookie or an unknown
     * session fails; a session past its expiry is deleted and fails.
     */
    method GetUserFromSession(cookie: Option<string>, now: int) returns (r: Result<string>)
      modifies this
      ensures cookie.None? ==> r == Err("no session cookie found")
      ensures cookie.Some? && cookie.value !in old(sessions) ==> r == Err("session not found")
      ensures cookie.Some? && cookie.value in old(sessions) && now > old(sessions)[cookie.value].expiresAt ==>
        r == Err("session expired") && sessions == old(sessions) - {cookie.value}
      ensures r.Ok? <==> cookie.Some? && cookie.value in old(sessions) && now <= old(sessions)[cookie.value].expiresAt
      ensures r.Ok? ==> r.value == old(sessions)[cookie.value].userId
      ensures r != Err("session expired") ==> sessions == old(sessions)
      ensures old(Valid()) ==> Valid()
    {
      if cookie.None? {
        return Err("no session cookie found");
      }
      var id := cookie.value;
      if id !in sessions {
        return Err("session not found");
      }
      var s := sessions[id];
      if now > s.expiresAt {
        sessions := sessions - {id};
        return Err("session expired");
      }
      return Ok(s.userId);
    }

    /** `ClearSession`: deletes the cookie's session when there is a cookie, and always expires the cookie. */
    method ClearSession(cookie: Option<string>) returns (expired: Cookie)
      modifies this
      ensures cookie.Some? ==> sessions == old(sessions) - {cookie.value}
      ensures cookie.None? ==> sessions == old(sessions)
      ensures expired == Cookie(cookieName, "", 0, -1)
      ensures old(Valid()) ==> Valid()
    {
      if cookie.Some? {
        sessions := sessions - {cookie.value};
      }
      expired := Cookie(cookieName, "", 0, -1);
    }

    /** `ClearAllUserSessions`: no session of the user remains, and no other session is touched. */
    method ClearAllUserSessions(u: string)
      modifies this
      ensures sessions == WithoutUser(old(sessions), u)
      ensures SessionsOf(sessions, u) == {}
      ensures forall v :: v != u ==> SessionsOf(sessions, v) == SessionsOf(old(sessions), v)
      ensures old(Valid()) ==> Valid()
    {
      sessions := WithoutUser(sessions, u);
    }
  }
}
