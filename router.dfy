/** `prepareRouter` of src/server/server.go: the five routes registered
    under the configured route prefix, and how gorilla/mux picks the handler
    for a path (the first registered route whose template matches, a
    `{variable}` matching one non-empty path segment). */
module Router {
  import opened Wrappers
  import Text

  datatype Handler = SendFile | ListLastUploaded | SearchByTags | DeleteFile | ServeFile

  datatype Segment = Literal(text: string) | Variable(name: string)

  /** A registered route: prefix + "/" + the template's segments. */
  datatype Route = Route(prefix: string, template: seq<Segment>, handler: Handler)

  /** A path segment a `{variable}` accepts. */
  predicate IsSegment(s: string)
  {
    s != "" && '/' !in s
  }

  predicate SegmentMatches(t: Segment, s: string)
  {
    match t
    case Literal(text) => s == text
    case Variable(_) => s != ""
  }

  predicate TemplateMatches(template: seq<Segment>, segments: seq<string>)
  {
    |segments| == |template| && forall i | 0 <= i < |segments| :: SegmentMatches(template[i], segments[i])
  }

  predicate Matches(r: Route, path: string)
  {
    && |r.prefix| < |path|
    && path[..|r.prefix|] == r.prefix
    && path[|r.prefix|] == '/'
    && TemplateMatches(r.template, Text.Split(path[|r.prefix| + 1..], '/'))
  }

  /** The handler of the first route that matches, if any. */
  function Dispatch(routes: seq<Route>, path: string): Option<Handler>
  {
    if routes == [] then None
    else if Matches(routes[0], path) then Some(routes[0].handler)
    else Dispatch(routes[1..], path)
  }

  /** The handler of the first route whose template matches `segments`. */
  function DispatchSegments(routes: seq<Route>, segments: seq<string>): Option<Handler>
  {
    if routes == [] then None
    else if TemplateMatches(routes[0].template, segments) then Some(routes[0].handler)
    else DispatchSegments(routes[1..], segments)
  }

  function ServePath(route: string, id: string): string
  {
    route + "/" + id
  }

  function DeletePath(route: string, id: string, key: string): string
  {
    route + "/" + id + "/" + key
  }

  /** The API names that the delete route `/{file}/{key}` would also match. */
  predicate IsApiPath(id: string, key: string)
  {
    id == "1.0" && (key == "send" || key == "list" || key == "search_tags")
  }

  /** Under a common prefix, dispatching a path is dispatching the
      segments it was joined from. */
  lemma {:induction false} DispatchUnderPrefix(routes: seq<Route>, route: string, segments: seq<string>)
    requires forall i | 0 <= i < |routes| :: routes[i].prefix == route
    requires |segments| >= 1
    requires forall i | 0 <= i < |segments| :: '/' !in segments[i]
    ensures Dispatch(routes, route + "/" + Text.Join(segments, '/')) == DispatchSegments(routes, segments)
    decreases |routes|
  {
    var path := route + "/" + Text.Join(segments, '/');
    assert path[..|route|] == route;
    assert path[|route| + 1..] == Text.Join(segments, '/');
    Text.SplitJoin(segments, '/');
    if routes != [] {
      DispatchUnderPrefix(routes[1..], route, segments);
    }
  }

  /** The routes `PrepareRouter` registers, in order. */
  predicate IsRouteTable(routes: seq<Route>, route: string)
  {
    routes == [
      Route(route, [Literal("1.0"), Literal("send")], SendFile),
      Route(route, [Literal("1.0"), Literal("list")], ListLastUploaded),
      Route(route, [Literal("1.0"), Literal("search_tags")], SearchByTags),
      Route(route, [Variable("file"), Variable("key")], DeleteFile),
      Route(route, [Variable("file")], ServeFile)]
  }

  /** The handler of each API name under "1.0". */
  function ApiHandler(key: string): Option<Handler>
  {
    if key == "send" then Some(SendFile)
    else if key == "list" then Some(ListLastUploaded)
    else if key == "search_tags" then Some(SearchByTags)
    else None
  }

  /** An API path of the table reaches its own handler. */
  lemma ApiDispatch(routes: seq<Route>, route: string, key: string)
    requires IsRouteTable(routes, route)
    requires ApiHandler(key).Some?
    ensures Dispatch(routes, route + "/1.0/" + key) == ApiHandler(key)
  {
    var segments := ["1.0", key];
    assert '/' !in key;
    DispatchUnderPrefix(routes, route, segments);
    ApiPathJoin(route, key);
    ApiSegments(routes, route, key);
  }

  /** An API path is the prefix joined with the segments "1.0" and the name. */
  lemma ApiPathJoin(route: string, key: string)
    ensures route + "/1.0/" + key == route + "/" + Text.Join(["1.0", key], '/')
  {
    assert Text.Join(["1.0", key], '/') == "1.0" + "/" + key;
  }

  /** The segments "1.0" and an API name select that name's route. */
  lemma ApiSegments(routes: seq<Route>, route: string, key: string)
    requires IsRouteTable(routes, route)
    requires ApiHandler(key).Some?
    ensures DispatchSegments(routes, ["1.0", key]) == ApiHandler(key)
  {
    var segments := ["1.0", key];
    var tail1 := routes[1..];
    var tail2 := routes[2..];
    assert tail1[1..] == tail2;
    if key == "send" {
      assert TemplateMatches(routes[0].template, segments);
    } else if key == "list" {
      assert !TemplateMatches(routes[0].template, segments) by { assert segments[1] != "send"; }
      assert TemplateMatches(tail1[0].template, segments);
    } else {
      assert !TemplateMatches(routes[0].template, segments) by { assert segments[1] != "send"; }
      assert !TemplateMatches(tail1[0].template, segments) by { assert segments[1] != "list"; }
      assert TemplateMatches(tail2[0].template, segments);
      assert DispatchSegments(tail1, segments) == DispatchSegments(tail2, segments);
    }
  }

  /** Any other two-segment path reaches the delete handler. */
  lemma DeleteDispatch(routes: seq<Route>, route: string, id: string, key: string)
    requires IsRouteTable(routes, route)
    requires IsSegment(id) && IsSegment(key) && !IsApiPath(id, key)
    ensures Dispatch(routes, DeletePath(route, id, key)) == Some(DeleteFile)
  {
    var segments := [id, key];
    DispatchUnderPrefix(routes, route, segments);
    assert DeletePath(route, id, key) == route + "/" + Text.Join(segments, '/');
    var tail1 := routes[1..];
    var tail2 := routes[2..];
    var tail3 := routes[3..];
    assert tail1[1..] == tail2 && tail2[1..] == tail3;
    assert !TemplateMatches(routes[0].template, segments);
    assert !TemplateMatches(tail1[0].template, segments);
    assert !TemplateMatches(tail2[0].template, segments);
    assert TemplateMatches(tail3[0].template, segments);
    assert DispatchSegments(tail1, segments) == DispatchSegments(tail2, segments);
    assert DispatchSegments(tail2, segments) == DispatchSegments(tail3, segments);
  }

  /** Any one-segment path reaches the serving handler. */
  lemma ServeDispatch(routes: seq<Route>, route: string, id: string)
    requires IsRouteTable(routes, route)
    requires IsSegment(id)
    ensures Dispatch(routes, ServePath(route, id)) == Some(ServeFile)
  {
    var segments := [id];
    DispatchUnderPrefix(routes, route, segments);
    assert ServePath(route, id) == route + "/" + Text.Join(segments, '/');
    var tail4 := routes[4..];
    assert DispatchSegments(routes, segments) == DispatchSegments(tail4, segments) by {
      var tail1 := routes[1..];
      var tail2 := routes[2..];
      var tail3 := routes[3..];
      assert tail1[1..] == tail2 && tail2[1..] == tail3 && tail3[1..] == tail4;
      assert DispatchSegments(tail1, segments) == DispatchSegments(tail2, segments);
      assert DispatchSegments(tail2, segments) == DispatchSegments(tail3, segments);
      assert DispatchSegments(tail3, segments) == DispatchSegments(tail4, segments);
    }
    assert TemplateMatches(tail4[0].template, segments);
  }

  /** In the route table the API routes come before the two routes made of
      variables, so an API path reaches its own handler although
      `/{file}/{key}` matches it too; any other one- or two-segment path
      under the prefix reaches the serving or the delete handler. */
  lemma TableDispatch(routes: seq<Route>, route: string)
    requires IsRouteTable(routes, route)
    ensures Dispatch(routes, route + "/1.0/send") == Some(SendFile)
    ensures Dispatch(routes, route + "/1.0/list") == Some(ListLastUploaded)
    ensures Dispatch(routes, route + "/1.0/search_tags") == Some(SearchByTags)
    ensures forall id, key | IsSegment(id) && IsSegment(key) && !IsApiPath(id, key) ::
      Dispatch(routes, DeletePath(route, id, key)) == Some(DeleteFile)
    ensures forall id | IsSegment(id) :: Dispatch(routes, ServePath(route, id)) == Some(ServeFile)
  {
    ApiDispatch(routes, route, "send");
    assert route + "/1.0/send" == route + "/1.0/" + "send";
    ApiDispatch(routes, route, "list");
    assert route + "/1.0/list" == route + "/1.0/" + "list";
    ApiDispatch(routes, route, "search_tags");
    assert route + "/1.0/search_tags" == route + "/1.0/" + "search_tags";
    forall id, key | IsSegment(id) && IsSegment(key) && !IsApiPath(id, key)
      ensures Dispatch(routes, DeletePath(route, id, key)) == Some(DeleteFile)
    {
      DeleteDispatch(routes, route, id, key);
    }
    forall id | IsSegment(id)
      ensures Dispatch(routes, ServePath(route, id)) == Some(ServeFile)
    {
      ServeDispatch(routes, route, id);
    }
  }

  /** `prepareRouter`: registers the five routes under the prefix, in the
      order of the route table. */
  method PrepareRouter(route: string) returns (routes: seq<Route>)
    ensures IsRouteTable(routes, route)
    ensures |routes| == 5
    ensures forall i | 0 <= i < |routes| :: routes[i].prefix == route
  {
    routes := [];
    routes := routes + [Route(route, [Literal("1.0"), Literal("send")], SendFile)];
    routes := routes + [Route(route, [Literal("1.0"), Literal("list")], ListLastUploaded)];
    routes := routes + [Route(route, [Literal("1.0"), Literal("search_tags")], SearchByTags)];
    routes := routes + [Route(route, [Variable("file"), Variable("key")], DeleteFile)];
    routes := routes + [Route(route, [Variable("file")], ServeFile)];
  }
}
