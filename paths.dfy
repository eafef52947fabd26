/** The route and URL normalisation the executables apply to their
    configuration: bin/server/server.go and server/server.go give the route
    a leading '/' and drop one trailing '/'; bin/client/client.go and
    client/client.go drop one trailing '/' from the server URL. */
module Paths {

  /** The route with a '/' in front when it had none. */
  function WithLeadingSlash(route: string): (r: string)
    requires route != ""
    ensures |r| >= 1 && r[0] == '/'
    ensures route[0] == '/' ==> r == route
    ensures route[0] != '/' ==> r == "/" + route
  {
    if route[0] != '/' then "/" + route else route
  }

  /** The text with one trailing '/' dropped, when it ends with one. */
  function StripTrailingSlash(s: string): (r: string)
    requires s != ""
    ensures s[|s| - 1] == '/' ==> r + "/" == s
    ensures s[|s| - 1] != '/' ==> r == s
  {
    if s[|s| - 1] == '/' then s[..|s| - 1] else s
  }

  /** A configured route as the servers use it. */
  function NormalizedRoute(route: string): (r: string)
    requires route != ""
  {
    StripTrailingSlash(WithLeadingSlash(route))
  }

  /** A normalised route is empty exactly for "/", and otherwise starts
      with '/'; it is the route with a leading '/', less at most one
      trailing '/'. */
  lemma NormalizedRouteShape(route: string)
    requires route != ""
    ensures NormalizedRoute(route) == "" <==> route == "/"
    ensures NormalizedRoute(route) != "" ==> NormalizedRoute(route)[0] == '/'
    ensures NormalizedRoute(route) == WithLeadingSlash(route) || NormalizedRoute(route) + "/" == WithLeadingSlash(route)
  {
    var p := WithLeadingSlash(route);
    var r := NormalizedRoute(route);
    if p[|p| - 1] != '/' {
      assert r == p;
    } else if |p| == 1 {
      assert r == [];
      assert route == "/";
    } else {
      assert |r| == |p| - 1 && r[0] == p[0];
    }
  }

  /** A route that already starts with '/' and does not end with one is
      left as it is. */
  lemma NormalizedRouteFixpoint(route: string)
    requires route != "" && route[0] == '/' && route[|route| - 1] != '/'
    ensures NormalizedRoute(route) == route
  {
  }

  /** Normalising twice changes nothing more, unless the route ended with
      two '/' (only one is dropped). */
  lemma NormalizedRouteIdempotent(route: string)
    requires route != ""
    requires NormalizedRoute(route) != ""
    requires |WithLeadingSlash(route)| < 2 || WithLeadingSlash(route)[|WithLeadingSlash(route)| - 2] != '/'
    ensures NormalizedRoute(NormalizedRoute(route)) == NormalizedRoute(route)
  {
    var p := WithLeadingSlash(route);
    var r := NormalizedRoute(route);
    NormalizedRouteShape(route);
    if p[|p| - 1] == '/' {
      assert r == p[..|p| - 1];
      assert r[|r| - 1] == p[|p| - 2];
    }
    NormalizedRouteFixpoint(r);
  }

  /** Dropping a trailing '/' from a URL is undone by appending one, and
      leaves a URL without one alone. */
  lemma StripTrailingSlashShape(s: string)
    requires s != ""
    ensures StripTrailingSlash(s) == s <==> s[|s| - 1] != '/'
    ensures |StripTrailingSlash(s)| >= |s| - 1
  {
    if s[|s| - 1] == '/' {
      assert |StripTrailingSlash(s)| == |s| - 1;
    }
  }
}
