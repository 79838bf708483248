/**
 * The web client's route guard: every page request is classified by its pathname as public,
 * protected or neither, and a protected page without a `token` cookie is redirected to "/".
 */
module Middleware {
  import opened Wrappers
  import Text

  const ProtectedRoutes: seq<string> :=
    ["/home", "/posts", "/profile", "/messages", "/notification", "/groups", "/events", "/Friends", "/settings"]

  const PublicRoutes: seq<string> := ["/", "/register", "/forgot-password"]

  /** The guard's answer: let the request through, or redirect it with the marker header. */
  datatype Decision = Next | Redirect(location: string, headerName: string, headerValue: string)

  /** A route covers the path itself and everything below it. */
  predicate Matches(route: string, path: string)
  {
    path == route || Text.StartsWith(path, route + "/")
  }

  /** `routes.some(...)`. */
  predicate AnyMatches(routes: seq<string>, path: string)
  {
    exists i :: 0 <= i < |routes| && Matches(routes[i], path)
  }

  /** Because "/" is a public route, it covers "/" and every path starting with "//", and nothing else. */
  lemma RootRouteCovers(path: string)
    ensures Matches("/", path) <==> path == "/" || Text.StartsWith(path, "//")
  {
  }

  /** `middleware`: public paths pass, unguarded paths pass, protected paths need a non-empty token. */
  function Decide(path: string, token: Option<string>): (d: Decision)
    ensures AnyMatches(PublicRoutes, path) ==> d == Next
    ensures !AnyMatches(PublicRoutes, path) && !AnyMatches(ProtectedRoutes, path) ==> d == Next
    ensures d.Redirect? <==> !AnyMatches(PublicRoutes, path) && AnyMatches(ProtectedRoutes, path) && (token.None? || token.value == "")
    ensures d.Redirect? ==> d == Redirect("/", "x-middleware-redirect", "true")
  {
    if AnyMatches(PublicRoutes, path) then Next
    else if !AnyMatches(ProtectedRoutes, path) then Next
    else if token.None? || token.value == "" then Redirect("/", "x-middleware-redirect", "true")
    else Next
  }

  /** Protected pages under the public root are not guarded: "//home" passes without a token. */
  lemma DoubleSlashBypassesGuard()
    ensures Decide("//home", None) == Next
  {
    assert Matches(PublicRoutes[0], "//home");
  }

  /** Route matching is case-sensitive: "/friends" is not guarded while "/Friends" is. */
  lemma GuardIsCaseSensitive()
    ensures Decide("/Friends", None).Redirect?
    ensures Decide("/friends", None) == Next
  {
    OneSegment(PublicRoutes, "/Friends");
    OneSegment(ProtectedRoutes, "/Friends");
    OneSegment(PublicRoutes, "/friends");
    OneSegment(ProtectedRoutes, "/friends");
    assert "/Friends" != "/friends" by {
      assert "/Friends"[1] != "/friends"[1];
    }
  }

  /** A path with no '/' after its first character matches a list of routes only by being one of them. */
  lemma OneSegment(routes: seq<string>, path: string)
    requires forall i :: 0 <= i < |routes| ==> |routes[i]| >= 1
    requires |path| >= 1 && forall k :: 1 <= k < |path| ==> path[k] != '/'
    ensures AnyMatches(routes, path) <==> path in routes
  {
    forall i | 0 <= i < |routes|
      ensures !Text.StartsWith(path, routes[i] + "/")
    {
      NotBelow(routes[i], path);
    }
  }

  /** Such a path lies below no non-empty route. */
  lemma NotBelow(route: string, path: string)
    requires |route| >= 1
    requires forall k :: 1 <= k < |path| ==> path[k] != '/'
    ensures !Text.StartsWith(path, route + "/")
  {
    if |route| + 1 <= |path| {
      assert path[..|route| + 1][|route|] == path[|route|] != '/';
      assert (route + "/")[|route|] == '/';
    }
  }

  /** A guarded page below a protected route with a token passes; without one it is sent to "/". */
  lemma ProtectedSubpath(route: string, rest: string, t: string)
    requires route in ProtectedRoutes && t != ""
    ensures Decide(route + "/" + rest, Some(t)) == Next
    ensures !AnyMatches(PublicRoutes, route + "/" + rest) ==> Decide(route + "/" + rest, None).Redirect?
  {
    var path := route + "/" + rest;
    var i :| 0 <= i < |ProtectedRoutes| && ProtectedRoutes[i] == route;
    assert path[..|route + "/"|] == route + "/";
    assert Matches(ProtectedRoutes[i], path);
  }
}
