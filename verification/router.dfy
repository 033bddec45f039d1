/** The router: a trie of path segments, against the list of registered patterns. */
module Routing {
  import opened Bytes
  import opened HttpSyntax

  /** A handler, by its identity. */
  type Handler = int

  type Params = map<string, string>

  // --- Paths ------------------------------------------------------------------------------------------

  /** The non-empty pieces of a path between slashes. */
  function Segments(path: string): seq<string>
    decreases |path|
  {
    match Find(path, "/", 0)
    case None => if path == "" then [] else [path]
    case Some(k) => (if k > 0 then [path[..k]] else []) + Segments(path[k + 1..])
  }

  lemma SegmentsWhole(rest: string)
    requires Find(rest, "/", 0) == None
    ensures Segments(rest) == if rest == "" then [] else [rest]
  {
    hide Find;
  }

  lemma SegmentsCut(rest: string, k: nat)
    requires Find(rest, "/", 0) == Some(k)
    ensures Segments(rest) == (if k > 0 then [rest[..k]] else []) + Segments(rest[k + 1..])
  {
    hide Find;
  }

  /** The pieces from position `start` on. */
  lemma SegmentsFrom(path: string, start: nat)
    requires start <= |path|
    ensures Find(path, "/", start).None? ==> Segments(path[start..]) == if start < |path| then [path[start..]] else []
    ensures Find(path, "/", start).Some? ==>
              var k := Find(path, "/", start).value;
              Segments(path[start..]) == (if k > start then [path[start..k]] else []) + Segments(path[k + 1..])
  {
    hide Find, Segments;
    FindShift(path, "/", start, 0);
    var rest := path[start..];
    if Find(path, "/", start).None? {
      SegmentsWhole(rest);
    } else {
      var k := Find(path, "/", start).value;
      SegmentsCut(rest, k - start);
      assert rest[k - start + 1..] == path[k + 1..];
      assert rest[..k - start] == path[start..k];
    }
  }

  /** `split_path_to_segments`. */
  method SplitPathToSegments(path: string) returns (segments: seq<string>)
    ensures segments == Segments(path)
  {
    hide Segments, Find;
    segments := [];
    var start := 0;
    var end := Find(path, "/", 0);
    assert path[0..] == path;
    while end.Some?
      invariant start <= |path| && end == Find(path, "/", start)
      invariant segments + Segments(path[start..]) == Segments(path)
      decreases |path| - start
    {
      SegmentsFrom(path, start);
      if end.value > start {
        segments := segments + [path[start..end.value]];
      }
      start := end.value + 1;
      end := Find(path, "/", start);
    }
    SegmentsFrom(path, start);
    if start < |path| {
      segments := segments + [path[start..]];
    }
  }

  predicate Plain(segment: string)
  {
    segment != "" && forall i | 0 <= i < |segment| :: segment[i] != '/'
  }

  predicate AllPlain(segments: seq<string>)
  {
    forall s | s in segments :: Plain(s)
  }

  /** Splitting yields no other segments. */
  lemma {:induction false} SegmentsPlain(path: string)
    ensures AllPlain(Segments(path))
    decreases |path|
  {
    FindSpec(path, "/", 0);
    forall j
      ensures OccursAt(path, "/", j) <==> 0 <= j < |path| && path[j] == '/'
    {
      OccursChar(path, '/', j);
    }
    hide Find, OccursAt;
    if Find(path, "/", 0).Some? {
      SegmentsPlain(path[Find(path, "/", 0).value + 1..]);
    }
  }

  function Joined(segments: seq<string>): string
  {
    if segments == [] then "" else "/" + segments[0] + Joined(segments[1..])
  }

  lemma SegmentsOf(first: string, rest: string)
    requires Plain(first)
    ensures Segments(first + "/" + rest) == [first] + Segments(rest)
    ensures Segments("/" + rest) == Segments(rest)
    ensures Segments(first) == [first]
  {
    var s := first + "/" + rest;
    FindChar(s, '/', 0, |first|);
    assert s[..|first|] == first && s[|first| + 1..] == rest;
    FindChar("/" + rest, '/', 0, 0);
    assert ("/" + rest)[1..] == rest;
    FindCharNone(first, '/', 0);
  }

  lemma JoinedTail(segments: seq<string>)
    requires segments != []
    ensures Joined(segments) == "/" + (segments[0] + Joined(segments[1..]))
  {
  }

  /** Splitting inverts joining. */
  lemma {:induction false} SegmentsInvertJoined(segments: seq<string>)
    requires AllPlain(segments)
    ensures Segments(Joined(segments)) == segments
  {
    hide Segments, Find, Joined;
    if segments == [] {
      NoSegments();
    } else {
      var first, rest := segments[0], segments[1..];
      assert first in segments;
      SegmentsInvertJoined(rest);
      JoinedTail(segments);
      SegmentsOf(first, first + Joined(rest));
      if rest == [] {
        NoSegments();
        assert first + Joined(rest) == first;
      } else {
        JoinedTail(rest);
        var tail := rest[0] + Joined(rest[1..]);
        assert first + ("/" + tail) == first + "/" + tail;
        SegmentsOf(first, tail);
      }
    }
  }

  lemma NoSegments()
    ensures Segments("") == [] && Joined([]) == ""
  {
  }

  // --- The trie -----------------------------------------------------------------------------------------

  datatype Node = Node(children: map<string, Node>, param: Option<Node>, paramName: string,
                       handlers: map<Method, Handler>)

  function Leaf(): Node { Node(map[], None, "", map[]) }

  predicate IsParam(segment: string) { segment != "" && segment[0] == ':' }

  /** `add_route_recursive`: the name of a parameter is that of the first route through its node. */
  function AddAt(node: Node, segments: seq<string>, verb: Method, handler: Handler): Node
    decreases |segments|
  {
    if segments == [] then node.(handlers := node.handlers[verb := handler])
    else
      var s := segments[0];
      if IsParam(s) then
        match node.param
        case None => node.(param := Some(AddAt(Leaf(), segments[1..], verb, handler)), paramName := s[1..])
        case Some(child) => node.(param := Some(AddAt(child, segments[1..], verb, handler)))
      else
        var child := if s in node.children then node.children[s] else Leaf();
        node.(children := node.children[s := AddAt(child, segments[1..], verb, handler)])
  }

  /** What a search ends in; `OutOfRange` is reading past the last segment, which the program does not check. */
  datatype Found = Found(handler: Handler, params: Params) | NotFound(params: Params) | OutOfRange

  /** `match_route_recursive` from segment `i`. Both descents advance the same iterator: after a static descent
      that failed, the parameter descent starts one segment too far. */
  function MatchAt(node: Node, segments: seq<string>, i: nat, verb: Method, params: Params): Found
    requires i <= |segments| + 1
    decreases |segments| + 1 - i
  {
    if i > |segments| then OutOfRange
    else if i == |segments| then
      if verb in node.handlers then Found(node.handlers[verb], params) else NotFound(params)
    else
      var s := segments[i];
      if s in node.children then
        match MatchAt(node.children[s], segments, i + 1, verb, params)
        case Found(handler, bound) => Found(handler, bound)
        case OutOfRange => OutOfRange
        case NotFound(left) => MatchParam(node, segments, i, i + 2, verb, left)
      else MatchParam(node, segments, i, i + 1, verb, params)
  }

  /** The parameter descent of segment `i`, continued at segment `next`. */
  function MatchParam(node: Node, segments: seq<string>, i: nat, next: nat, verb: Method, params: Params): Found
    requires i < |segments| && i < next <= i + 2
    decreases |segments| + 1 - i, 0
  {
    match node.param
    case None => NotFound(params)
    case Some(child) =>
      match MatchAt(child, segments, next, verb, params[node.paramName := segments[i]])
      case Found(handler, bound) => Found(handler, bound)
      case OutOfRange => OutOfRange
      case NotFound(left) => NotFound(left - {node.paramName})
  }

  /** `find_route`. */
  function Search(node: Node, path: string, verb: Method, params: Params): Found
  {
    if path == "" || path[0] != '/' then NotFound(params)
    else MatchAt(node, Segments(path[1..]), 0, verb, params)
  }

  // --- The list of registered patterns ------------------------------------------------------------------

  datatype Route = Route(verb: Method, pattern: seq<string>, handler: Handler)

  /** The trie after registering the routes in order. */
  function Build(routes: seq<Route>): Node
  {
    if routes == [] then Leaf()
    else
      var r := routes[|routes| - 1];
      AddAt(Build(routes[..|routes| - 1]), r.pattern, r.verb, r.handler)
  }

  predicate Fits(p: string, s: string) { IsParam(p) || p == s }

  /** A pattern matches the segments of a path. */
  predicate Matches(pattern: seq<string>, segments: seq<string>)
  {
    |pattern| == |segments| && forall k | 0 <= k < |pattern| :: Fits(pattern[k], segments[k])
  }

  /** The handler of the last matching route. */
  function LastMatch(routes: seq<Route>, segments: seq<string>, verb: Method): Option<Handler>
  {
    if routes == [] then None
    else
      var r := routes[|routes| - 1];
      if r.verb == verb && Matches(r.pattern, segments) then Some(r.handler)
      else LastMatch(routes[..|routes| - 1], segments, verb)
  }

  /** The first `k` + 1 segments of a pattern match those of a path. */
  predicate Through(pattern: seq<string>, segments: seq<string>, k: nat)
    requires k < |segments|
  {
    |pattern| > k && Matches(pattern[..k + 1], segments[..k + 1])
  }

  /** The pattern of the first route whose first `k` + 1 segments match those of the path. */
  function FirstThrough(routes: seq<Route>, segments: seq<string>, k: nat): Option<seq<string>>
    requires k < |segments|
  {
    if routes == [] then None
    else
      var r := routes[|routes| - 1];
      match FirstThrough(routes[..|routes| - 1], segments, k)
      case Some(p) => Some(p)
      case None =>
        if Through(r.pattern, segments, k) then Some(r.pattern) else None
  }

  /** Segment `k` bound under the name its place has in the pattern `p`, if that place is a parameter. */
  function BindOne(p: Option<seq<string>>, segments: seq<string>, k: nat, params: Params): Params
    requires k < |segments|
  {
    if p.Some? && k < |p.value| && IsParam(p.value[k]) then params[p.value[k][1..] := segments[k]] else params
  }

  /** The parameters of a path from segment `k` on: each bound under the name its place was first given. */
  function Bind(routes: seq<Route>, segments: seq<string>, k: nat, params: Params): Params
    requires k <= |segments|
    decreases |segments| - k
  {
    if k == |segments| then params
    else Bind(routes, segments, k + 1, BindOne(FirstThrough(routes, segments, k), segments, k, params))
  }

  predicate SameShape(p: seq<string>, q: seq<string>)
  {
    |p| == |q| && forall k | 0 <= k < |p| :: (IsParam(p[k]) && IsParam(q[k])) || p[k] == q[k]
  }

  /** The patterns are those of paths. */
  predicate PlainRoutes(routes: seq<Route>)
  {
    forall r | r in routes :: AllPlain(r.pattern)
  }

  /** No place of the table has both literal segments and a parameter. */
  predicate Clear(routes: seq<Route>)
  {
    forall r, q, k: nat | r in routes && q in routes && k < |r.pattern| && k < |q.pattern| ::
      SameShape(r.pattern[..k], q.pattern[..k]) ==> (IsParam(r.pattern[k]) <==> IsParam(q.pattern[k]))
  }

  // --- The trie is the list -------------------------------------------------------------------------------

  /** The routes through the literal child `s`, or through the parameter child, without their first segment. */
  function Tails(routes: seq<Route>, s: string): seq<Route>
  {
    if routes == [] then []
    else
      var r := routes[|routes| - 1];
      Tails(routes[..|routes| - 1], s)
      + if r.pattern != [] && !IsParam(r.pattern[0]) && r.pattern[0] == s then [r.(pattern := r.pattern[1..])] else []
  }

  function ParamTails(routes: seq<Route>): seq<Route>
  {
    if routes == [] then []
    else
      var r := routes[|routes| - 1];
      ParamTails(routes[..|routes| - 1])
      + if r.pattern != [] && IsParam(r.pattern[0]) then [r.(pattern := r.pattern[1..])] else []
  }

  /** The parameter name of the first route that starts with a parameter. */
  function FirstName(routes: seq<Route>): string
  {
    if routes == [] then ""
    else
      var r, before := routes[|routes| - 1], routes[..|routes| - 1];
      if ParamTails(before) == [] && r.pattern != [] && IsParam(r.pattern[0]) then r.pattern[0][1..]
      else FirstName(before)
  }

  ghost predicate ChildrenAre(children: map<string, Node>, routes: seq<Route>)
  {
    && (forall s: string :: s in children <==> Tails(routes, s) != [])
    && (forall s | s in children :: children[s] == Build(Tails(routes, s)))
  }

  ghost predicate ParamIs(param: Option<Node>, name: string, routes: seq<Route>)
  {
    && param == (if ParamTails(routes) == [] then None else Some(Build(ParamTails(routes))))
    && name == FirstName(routes)
  }

  ghost predicate HandlersAre(handlers: map<Method, Handler>, routes: seq<Route>)
  {
    && (forall verb: Method :: verb in handlers <==> LastMatch(routes, [], verb).Some?)
    && (forall verb: Method | verb in handlers :: LastMatch(routes, [], verb) == Some(handlers[verb]))
  }

  /** The node of a table: its children are the nodes of the tables of tails. */
  ghost predicate NodeIs(node: Node, routes: seq<Route>)
  {
    ChildrenAre(node.children, routes) && ParamIs(node.param, node.paramName, routes)
    && HandlersAre(node.handlers, routes)
  }

  lemma BuildAppend(routes: seq<Route>, r: Route)
    ensures Build(routes + [r]) == AddAt(Build(routes), r.pattern, r.verb, r.handler)
  {
    assert (routes + [r])[..|routes|] == routes;
  }

  /** What one more route adds to the tails, and to the answers. */
  lemma TailsAppend(routes: seq<Route>, r: Route, s: string)
    ensures Tails(routes + [r], s)
         == if r.pattern != [] && !IsParam(r.pattern[0]) && r.pattern[0] == s
            then Tails(routes, s) + [r.(pattern := r.pattern[1..])] else Tails(routes, s)
  {
    assert (routes + [r])[..|routes|] == routes;
    assert Tails(routes, s) + [] == Tails(routes, s);
  }

  lemma ParamTailsAppend(routes: seq<Route>, r: Route)
    ensures ParamTails(routes + [r])
         == if r.pattern != [] && IsParam(r.pattern[0])
            then ParamTails(routes) + [r.(pattern := r.pattern[1..])] else ParamTails(routes)
    ensures FirstName(routes + [r])
         == if ParamTails(routes) == [] && r.pattern != [] && IsParam(r.pattern[0]) then r.pattern[0][1..]
            else FirstName(routes)
  {
    assert (routes + [r])[..|routes|] == routes;
    assert ParamTails(routes) + [] == ParamTails(routes);
  }

  lemma LastMatchAppend(routes: seq<Route>, r: Route, segments: seq<string>, verb: Method)
    ensures LastMatch(routes + [r], segments, verb)
         == if r.verb == verb && Matches(r.pattern, segments) then Some(r.handler)
            else LastMatch(routes, segments, verb)
  {
    assert (routes + [r])[..|routes|] == routes;
  }

  lemma BuildNothing()
    ensures Build([]) == Leaf()
  {
  }

  lemma HandlersAppend(handlers: map<Method, Handler>, routes: seq<Route>, r: Route)
    requires HandlersAre(handlers, routes)
    ensures HandlersAre(if r.pattern == [] then handlers[r.verb := r.handler] else handlers, routes + [r])
  {
    forall verb: Method
      ensures LastMatch(routes + [r], [], verb)
           == if r.verb == verb && r.pattern == [] then Some(r.handler) else LastMatch(routes, [], verb)
    {
      LastMatchAppend(routes, r, [], verb);
    }
    hide LastMatch;
  }

  lemma ParamAppend(param: Option<Node>, name: string, routes: seq<Route>, r: Route)
    requires ParamIs(param, name, routes) && r.pattern != [] && IsParam(r.pattern[0])
    ensures var child := if param.Some? then param.value else Leaf();
            ParamIs(Some(AddAt(child, r.pattern[1..], r.verb, r.handler)),
                    if param.Some? then name else r.pattern[0][1..], routes + [r])
  {
    var rest := r.(pattern := r.pattern[1..]);
    ParamTailsAppend(routes, r);
    BuildAppend(ParamTails(routes), rest);
    BuildNothing();
    hide Build, ParamTails, FirstName, AddAt;
  }

  lemma ParamKept(param: Option<Node>, name: string, routes: seq<Route>, r: Route)
    requires ParamIs(param, name, routes) && (r.pattern == [] || !IsParam(r.pattern[0]))
    ensures ParamIs(param, name, routes + [r])
  {
    ParamTailsAppend(routes, r);
    hide Build, ParamTails, FirstName;
  }

  lemma ChildAppend(routes: seq<Route>, r: Route, child: Node)
    requires r.pattern != [] && !IsParam(r.pattern[0])
    requires child == Build(Tails(routes, r.pattern[0]))
    ensures Tails(routes + [r], r.pattern[0]) != []
    ensures AddAt(child, r.pattern[1..], r.verb, r.handler) == Build(Tails(routes + [r], r.pattern[0]))
  {
    hide Tails, IsParam, Build, AddAt;
    TailsAppend(routes, r, r.pattern[0]);
    BuildAppend(Tails(routes, r.pattern[0]), r.(pattern := r.pattern[1..]));
  }

  lemma ChildrenAppend(children: map<string, Node>, routes: seq<Route>, r: Route)
    requires ChildrenAre(children, routes) && r.pattern != [] && !IsParam(r.pattern[0])
    ensures var s := r.pattern[0];
            var child := if s in children then children[s] else Leaf();
            ChildrenAre(children[s := AddAt(child, r.pattern[1..], r.verb, r.handler)], routes + [r])
  {
    var first := r.pattern[0];
    var child := if first in children then children[first] else Leaf();
    BuildNothing();
    hide Tails, IsParam, Build, AddAt;
    ChildAppend(routes, r, child);
    var next, all := children[first := AddAt(child, r.pattern[1..], r.verb, r.handler)], routes + [r];
    forall s: string
      ensures s in next <==> Tails(all, s) != []
      ensures s in next ==> next[s] == Build(Tails(all, s))
    {
      if s != first {
        TailsAppend(routes, r, s);
        assert s in next <==> s in children;
      }
    }
  }

  lemma ChildrenKept(children: map<string, Node>, routes: seq<Route>, r: Route)
    requires ChildrenAre(children, routes) && (r.pattern == [] || IsParam(r.pattern[0]))
    ensures ChildrenAre(children, routes + [r])
  {
    forall s: string
      ensures Tails(routes + [r], s) == Tails(routes, s)
    {
      TailsAppend(routes, r, s);
    }
    hide Build, Tails;
  }

  lemma AddedIs(node: Node, routes: seq<Route>, r: Route)
    requires NodeIs(node, routes)
    ensures NodeIs(AddAt(node, r.pattern, r.verb, r.handler), routes + [r])
  {
    hide ChildrenAre, ParamIs, HandlersAre;
    HandlersAppend(node.handlers, routes, r);
    if r.pattern != [] && IsParam(r.pattern[0]) {
      ChildrenKept(node.children, routes, r);
      ParamAppend(node.param, node.paramName, routes, r);
    } else {
      ParamKept(node.param, node.paramName, routes, r);
      if r.pattern == [] {
        ChildrenKept(node.children, routes, r);
      } else {
        ChildrenAppend(node.children, routes, r);
      }
    }
  }

  lemma {:induction false} BuildIs(routes: seq<Route>)
    ensures NodeIs(Build(routes), routes)
  {
    if routes != [] {
      var before, r := routes[..|routes| - 1], routes[|routes| - 1];
      BuildIs(before);
      BuildAppend(before, r);
      assert routes == before + [r];
      hide NodeIs, Build;
      AddedIs(Build(before), before, r);
    }
  }

  // --- Searching a clear table -----------------------------------------------------------------------------

  lemma MatchesCons(pattern: seq<string>, segments: seq<string>)
    requires segments != []
    ensures Matches(pattern, segments)
       <==> pattern != [] && Fits(pattern[0], segments[0]) && Matches(pattern[1..], segments[1..])
  {
    hide Fits;
    if |pattern| == |segments| {
      if Fits(pattern[0], segments[0]) && Matches(pattern[1..], segments[1..]) {
        forall k | 0 <= k < |pattern|
          ensures Fits(pattern[k], segments[k])
        {
          assert k > 0 ==> pattern[k] == pattern[1..][k - 1] && segments[k] == segments[1..][k - 1];
        }
      }
    }
  }

  /** One route decides alike for a path and, without their first segments, for the tails. */
  lemma OneRoute(r: Route, segments: seq<string>)
    requires segments != []
    ensures r.pattern != [] && !IsParam(r.pattern[0]) ==>
              (Matches(r.pattern, segments) <==> r.pattern[0] == segments[0] && Matches(r.pattern[1..], segments[1..]))
    ensures r.pattern != [] && IsParam(r.pattern[0]) ==>
              (Matches(r.pattern, segments) <==> Matches(r.pattern[1..], segments[1..]))
    ensures r.pattern == [] ==> !Matches(r.pattern, segments)
  {
    MatchesCons(r.pattern, segments);
    hide Matches;
  }

  /** Where no route starts with a parameter, the routes through the literal child decide. */
  lemma {:induction false} LastMatchLiteral(routes: seq<Route>, segments: seq<string>, verb: Method)
    requires segments != [] && ParamTails(routes) == []
    ensures LastMatch(routes, segments, verb) == LastMatch(Tails(routes, segments[0]), segments[1..], verb)
  {
    if routes == [] {
    } else {
      hide Matches, Tails, ParamTails, LastMatch, IsParam;
      var before, r := routes[..|routes| - 1], routes[|routes| - 1];
      assert routes == before + [r];
      ParamTailsAppend(before, r);
      LastMatchLiteral(before, segments, verb);
      OneRoute(r, segments);
      TailsAppend(before, r, segments[0]);
      LastMatchAppend(before, r, segments, verb);
      LastMatchAppend(Tails(before, segments[0]), r.(pattern := if r.pattern == [] then [] else r.pattern[1..]),
                      segments[1..], verb);
    }
  }

  /** Where no route starts with this literal, the routes through the parameter child decide. */
  lemma {:induction false} LastMatchParam(routes: seq<Route>, segments: seq<string>, verb: Method)
    requires segments != [] && Tails(routes, segments[0]) == []
    ensures LastMatch(routes, segments, verb) == LastMatch(ParamTails(routes), segments[1..], verb)
  {
    if routes == [] {
    } else {
      hide Matches, Tails, ParamTails, LastMatch, IsParam;
      var before, r := routes[..|routes| - 1], routes[|routes| - 1];
      assert routes == before + [r];
      TailsAppend(before, r, segments[0]);
      LastMatchParam(before, segments, verb);
      OneRoute(r, segments);
      ParamTailsAppend(before, r);
      LastMatchAppend(before, r, segments, verb);
      LastMatchAppend(ParamTails(before), r.(pattern := if r.pattern == [] then [] else r.pattern[1..]),
                      segments[1..], verb);
    }
  }

  lemma {:induction false} TailMember(routes: seq<Route>, s: string, t: Route)
    requires t in Tails(routes, s)
    ensures !IsParam(s) && t.(pattern := [s] + t.pattern) in routes
  {
    var before, r := routes[..|routes| - 1], routes[|routes| - 1];
    if t in Tails(before, s) {
      TailMember(before, s, t);
    } else {
      assert r.pattern == [s] + r.pattern[1..];
    }
  }

  lemma {:induction false} ParamTailMember(routes: seq<Route>, t: Route) returns (p: string)
    requires t in ParamTails(routes)
    ensures IsParam(p) && t.(pattern := [p] + t.pattern) in routes
  {
    var before, r := routes[..|routes| - 1], routes[|routes| - 1];
    if t in ParamTails(before) {
      p := ParamTailMember(before, t);
    } else {
      p := r.pattern[0];
      assert r.pattern == [p] + r.pattern[1..];
    }
  }

  lemma ClearPair(routes: seq<Route>, r: Route, q: Route, k: nat)
    requires Clear(routes) && r in routes && q in routes && k < |r.pattern| && k < |q.pattern|
    requires SameShape(r.pattern[..k], q.pattern[..k])
    ensures IsParam(r.pattern[k]) <==> IsParam(q.pattern[k])
  {
  }

  lemma ShapeCons(a: string, b: string, p: seq<string>, q: seq<string>, k: nat)
    requires k <= |p| && k <= |q| && SameShape(p[..k], q[..k]) && ((IsParam(a) && IsParam(b)) || a == b)
    ensures SameShape(([a] + p)[..k + 1], ([b] + q)[..k + 1])
  {
    hide IsParam;
    var u, v := ([a] + p)[..k + 1], ([b] + q)[..k + 1];
    forall j | 0 <= j < k + 1
      ensures (IsParam(u[j]) && IsParam(v[j])) || u[j] == v[j]
    {
      assert j > 0 ==> u[j] == p[..k][j - 1] && v[j] == q[..k][j - 1];
    }
  }

  /** The tables of tails of a clear table are clear, and it has not both kinds of them. */
  lemma ClearTails(routes: seq<Route>, s: string)
    requires Clear(routes)
    ensures Clear(Tails(routes, s)) && Clear(ParamTails(routes))
    ensures Tails(routes, s) == [] || ParamTails(routes) == []
  {
    hide Clear, IsParam, SameShape;
    var tails, params := Tails(routes, s), ParamTails(routes);
    assert Clear(tails) by {
      forall r, q, k: nat | r in tails && q in tails && k < |r.pattern| && k < |q.pattern|
                            && SameShape(r.pattern[..k], q.pattern[..k])
        ensures IsParam(r.pattern[k]) <==> IsParam(q.pattern[k])
      {
        TailMember(routes, s, r);
        TailMember(routes, s, q);
        ShapeCons(s, s, r.pattern, q.pattern, k);
        ClearPair(routes, r.(pattern := [s] + r.pattern), q.(pattern := [s] + q.pattern), k + 1);
      }
      ClearIf(tails);
    }
    assert Clear(params) by {
      forall r, q, k: nat | r in params && q in params && k < |r.pattern| && k < |q.pattern|
                            && SameShape(r.pattern[..k], q.pattern[..k])
        ensures IsParam(r.pattern[k]) <==> IsParam(q.pattern[k])
      {
        var a := ParamTailMember(routes, r);
        var b := ParamTailMember(routes, q);
        ShapeCons(a, b, r.pattern, q.pattern, k);
        ClearPair(routes, r.(pattern := [a] + r.pattern), q.(pattern := [b] + q.pattern), k + 1);
      }
      ClearIf(params);
    }
    if tails != [] && params != [] {
      TailMember(routes, s, tails[0]);
      var a := ParamTailMember(routes, params[0]);
      var r, q := tails[0].(pattern := [s] + tails[0].pattern), params[0].(pattern := [a] + params[0].pattern);
      assert SameShape(r.pattern[..0], q.pattern[..0]) by { NoShape(r.pattern, q.pattern); }
      ClearPair(routes, r, q, 0);
    }
  }

  lemma ClearIf(routes: seq<Route>)
    requires forall r, q, k: nat | r in routes && q in routes && k < |r.pattern| && k < |q.pattern| ::
               SameShape(r.pattern[..k], q.pattern[..k]) ==> (IsParam(r.pattern[k]) <==> IsParam(q.pattern[k]))
    ensures Clear(routes)
  {
  }

  lemma NoShape(p: seq<string>, q: seq<string>)
    ensures SameShape(p[..0], q[..0])
  {
  }

  lemma FirstThroughAppend(routes: seq<Route>, r: Route, segments: seq<string>, k: nat)
    requires k < |segments|
    ensures FirstThrough(routes + [r], segments, k)
         == if FirstThrough(routes, segments, k).Some? then FirstThrough(routes, segments, k)
            else if Through(r.pattern, segments, k) then Some(r.pattern)
            else None
  {
    hide Through;
    assert (routes + [r])[..|routes|] == routes;
  }

  /** A pattern goes through the segments of a path as, without their first ones, its rest does. */
  lemma ThroughCons(pattern: seq<string>, segments: seq<string>, k: nat)
    requires k + 1 < |segments|
    ensures Through(pattern, segments, k + 1)
       <==> pattern != [] && (IsParam(pattern[0]) || pattern[0] == segments[0]) && Through(pattern[1..], segments[1..], k)
  {
    hide Matches;
    if |pattern| > k + 1 {
      MatchesCons(pattern[..k + 2], segments[..k + 2]);
      assert pattern[..k + 2][1..] == pattern[1..][..k + 1];
      assert segments[..k + 2][1..] == segments[1..][..k + 1];
    }
  }

  lemma {:induction false} FirstThroughLiteral(routes: seq<Route>, segments: seq<string>, k: nat)
    requires k + 1 < |segments| && ParamTails(routes) == []
    ensures var t := FirstThrough(Tails(routes, segments[0]), segments[1..], k);
            var p := FirstThrough(routes, segments, k + 1);
            if t.Some? then p.Some? && p.value != [] && p.value[1..] == t.value else p == None
  {
    if routes == [] {
    } else {
      hide Through, Tails, ParamTails, FirstThrough, IsParam;
      var before, r := routes[..|routes| - 1], routes[|routes| - 1];
      assert routes == before + [r];
      ParamTailsAppend(before, r);
      FirstThroughLiteral(before, segments, k);
      ThroughCons(r.pattern, segments, k);
      TailsAppend(before, r, segments[0]);
      FirstThroughAppend(before, r, segments, k + 1);
      FirstThroughAppend(Tails(before, segments[0]), r.(pattern := if r.pattern == [] then [] else r.pattern[1..]),
                         segments[1..], k);
    }
  }

  lemma {:induction false} FirstThroughParam(routes: seq<Route>, segments: seq<string>, k: nat)
    requires k + 1 < |segments| && Tails(routes, segments[0]) == []
    ensures var t := FirstThrough(ParamTails(routes), segments[1..], k);
            var p := FirstThrough(routes, segments, k + 1);
            if t.Some? then p.Some? && p.value != [] && p.value[1..] == t.value else p == None
  {
    if routes == [] {
    } else {
      hide Through, Tails, ParamTails, FirstThrough, IsParam;
      var before, r := routes[..|routes| - 1], routes[|routes| - 1];
      assert routes == before + [r];
      TailsAppend(before, r, segments[0]);
      FirstThroughParam(before, segments, k);
      ThroughCons(r.pattern, segments, k);
      ParamTailsAppend(before, r);
      FirstThroughAppend(before, r, segments, k + 1);
      FirstThroughAppend(ParamTails(before), r.(pattern := if r.pattern == [] then [] else r.pattern[1..]),
                         segments[1..], k);
    }
  }

  lemma ThroughOne(pattern: seq<string>, segments: seq<string>)
    requires segments != []
    ensures Through(pattern, segments, 0) <==> pattern != [] && Fits(pattern[0], segments[0])
  {
    if pattern != [] {
      MatchesCons(pattern[..1], segments[..1]);
    }
  }

  /** The first segment of a path is bound exactly when it goes to the parameter child, under the name of that. */
  lemma {:induction false} FirstThroughZero(routes: seq<Route>, segments: seq<string>)
    requires segments != []
    ensures var p := FirstThrough(routes, segments, 0);
            && (p.Some? ==> p.value != [])
            && (ParamTails(routes) == [] ==> p.Some? ==> !IsParam(p.value[0]))
            && (Tails(routes, segments[0]) == [] && ParamTails(routes) != [] ==>
                  p.Some? && IsParam(p.value[0]) && p.value[0][1..] == FirstName(routes))
            && (Tails(routes, segments[0]) == [] && ParamTails(routes) == [] ==> p.None?)
  {
    hide Through;
    if routes != [] {
      var before, r := routes[..|routes| - 1], routes[|routes| - 1];
      assert routes == before + [r];
      FirstThroughZero(before, segments);
      ThroughOne(r.pattern, segments);
      ParamTailsAppend(before, r);
      TailsAppend(before, r, segments[0]);
      FirstThroughAppend(before, r, segments, 0);
      hide Tails, ParamTails, FirstThrough, FirstName;
    }
  }

  lemma {:induction false} BindLiteral(routes: seq<Route>, segments: seq<string>, k: nat, params: Params)
    requires k + 1 <= |segments| && ParamTails(routes) == []
    ensures Bind(routes, segments, k + 1, params) == Bind(Tails(routes, segments[0]), segments[1..], k, params)
    decreases |segments| - k
  {
    hide FirstThrough, Tails, ParamTails, IsParam;
    if k + 1 < |segments| {
      FirstThroughLiteral(routes, segments, k);
      BindLiteral(routes, segments, k + 1,
                  BindOne(FirstThrough(routes, segments, k + 1), segments, k + 1, params));
    }
  }

  lemma {:induction false} BindParam(routes: seq<Route>, segments: seq<string>, k: nat, params: Params)
    requires k + 1 <= |segments| && Tails(routes, segments[0]) == []
    ensures Bind(routes, segments, k + 1, params) == Bind(ParamTails(routes), segments[1..], k, params)
    decreases |segments| - k
  {
    hide FirstThrough, Tails, ParamTails, IsParam;
    if k + 1 < |segments| {
      FirstThroughParam(routes, segments, k);
      BindParam(routes, segments, k + 1,
                BindOne(FirstThrough(routes, segments, k + 1), segments, k + 1, params));
    }
  }

  /** The search of a clear table finds the last route that matches, and binds what the list binds; where none
      matches it ends without one, and never reads past the last segment. */
  ghost predicate Agrees(r: Found, routes: seq<Route>, segments: seq<string>, verb: Method, params: Params)
  {
    match LastMatch(routes, segments, verb)
    case Some(handler) => r == Found(handler, Bind(routes, segments, 0, params))
    case None => r.NotFound?
  }

  lemma EndStep(routes: seq<Route>, segments: seq<string>, verb: Method, params: Params)
    requires NodeIs(Build(routes), routes)
    ensures Agrees(MatchAt(Build(routes), segments, |segments|, verb, params), routes, [], verb, params)
  {
    hide ChildrenAre, ParamIs, Build, LastMatch;
  }

  lemma {:induction false} MatchIs(routes: seq<Route>, segments: seq<string>, i: nat, verb: Method, params: Params)
    requires i <= |segments| && Clear(routes)
    ensures Agrees(MatchAt(Build(routes), segments, i, verb, params), routes, segments[i..], verb, params)
    decreases |segments| - i
  {
    hide NodeIs, Build, MatchAt, Tails, ParamTails, Agrees, Clear, FirstName;
    BuildIs(routes);
    if i == |segments| {
      assert segments[i..] == [];
      EndStep(routes, segments, verb, params);
    } else {
      var s := segments[i];
      assert segments[i..][1..] == segments[i + 1..];
      ClearTails(routes, s);
      if Tails(routes, s) != [] {
        MatchIs(Tails(routes, s), segments, i + 1, verb, params);
        LiteralStep(routes, segments, i, verb, params);
      } else {
        if ParamTails(routes) != [] {
          MatchIs(ParamTails(routes), segments, i + 1, verb, params[FirstName(routes) := s]);
        }
        ParamStep(routes, segments, i, verb, params);
      }
    }
  }

  lemma NodeOf(routes: seq<Route>, s: string)
    requires NodeIs(Build(routes), routes)
    ensures var node := Build(routes);
            && (s in node.children <==> Tails(routes, s) != [])
            && (s in node.children ==> node.children[s] == Build(Tails(routes, s)))
            && node.param == (if ParamTails(routes) == [] then None else Some(Build(ParamTails(routes))))
            && node.paramName == FirstName(routes)
  {
    hide Build, Tails, ParamTails, FirstName, HandlersAre;
  }

  /** A search that descends into a literal child of a node without a parameter ends as the child's does. */
  lemma DescendLiteral(node: Node, segments: seq<string>, i: nat, verb: Method, params: Params)
    requires i < |segments| && segments[i] in node.children && node.param == None
    ensures var r := MatchAt(node.children[segments[i]], segments, i + 1, verb, params);
            var t := MatchAt(node, segments, i, verb, params);
            if r.NotFound? then t.NotFound? else t == r
  {
  }

  lemma DescendParam(node: Node, segments: seq<string>, i: nat, verb: Method, params: Params)
    requires i < |segments| && segments[i] !in node.children
    ensures var t := MatchAt(node, segments, i, verb, params);
            if node.param.None? then t.NotFound?
            else
              var r := MatchAt(node.param.value, segments, i + 1, verb, params[node.paramName := segments[i]]);
              if r.NotFound? then t.NotFound? else t == r
  {
  }

  lemma BindFirst(routes: seq<Route>, segments: seq<string>, params: Params)
    requires segments != []
    ensures Bind(routes, segments, 0, params)
         == Bind(routes, segments, 1, BindOne(FirstThrough(routes, segments, 0), segments, 0, params))
  {
    hide FirstThrough, BindOne;
  }

  lemma LiteralStep(routes: seq<Route>, segments: seq<string>, i: nat, verb: Method, params: Params)
    requires i < |segments| && NodeIs(Build(routes), routes)
    requires Tails(routes, segments[i]) != [] && ParamTails(routes) == []
    requires Agrees(MatchAt(Build(Tails(routes, segments[i])), segments, i + 1, verb, params),
                    Tails(routes, segments[i]), segments[i..][1..], verb, params)
    ensures Agrees(MatchAt(Build(routes), segments, i, verb, params), routes, segments[i..], verb, params)
  {
    hide Tails, ParamTails, LastMatch, FirstThrough, FirstName, Build, IsParam, NodeIs, MatchAt, Bind;
    var rest := segments[i..];
    NodeOf(routes, segments[i]);
    DescendLiteral(Build(routes), segments, i, verb, params);
    FirstThroughZero(routes, rest);
    BindFirst(routes, rest, params);
    LastMatchLiteral(routes, rest, verb);
    BindLiteral(routes, rest, 0, params);
  }

  lemma ParamStep(routes: seq<Route>, segments: seq<string>, i: nat, verb: Method, params: Params)
    requires i < |segments| && NodeIs(Build(routes), routes) && Tails(routes, segments[i]) == []
    requires ParamTails(routes) != [] ==>
               Agrees(MatchAt(Build(ParamTails(routes)), segments, i + 1, verb, params[FirstName(routes) := segments[i]]),
                      ParamTails(routes), segments[i..][1..], verb, params[FirstName(routes) := segments[i]])
    ensures Agrees(MatchAt(Build(routes), segments, i, verb, params), routes, segments[i..], verb, params)
  {
    hide Tails, ParamTails, LastMatch, FirstThrough, FirstName, Build, IsParam, NodeIs, MatchAt, Bind;
    var rest := segments[i..];
    NodeOf(routes, segments[i]);
    DescendParam(Build(routes), segments, i, verb, params);
    FirstThroughZero(routes, rest);
    BindFirst(routes, rest, params);
    LastMatchParam(routes, rest, verb);
    BindParam(routes, rest, 0, params[FirstName(routes) := segments[i]]);
    if ParamTails(routes) == [] {
      NoMatch(rest[1..], verb);
    }
  }

  lemma NoMatch(segments: seq<string>, verb: Method)
    ensures LastMatch([], segments, verb) == None
  {
  }

  // --- The router -----------------------------------------------------------------------------------------------

  class Router {
    var root: Node
    ghost var routes: seq<Route>

    ghost predicate Valid()
      reads this
    {
      root == Build(routes) && PlainRoutes(routes)
    }

    constructor ()
      ensures Valid() && routes == []
    {
      root := Leaf();
      routes := [];
    }

    /** `add_route`: false where it throws, for a path that does not start with a slash. */
    method AddRoute(verb: Method, path: string, handler: Handler) returns (ok: bool)
      requires Valid()
      modifies this
      ensures Valid() && ok == (path != "" && path[0] == '/')
      ensures routes == if ok then old(routes) + [Route(verb, Segments(path[1..]), handler)] else old(routes)
    {
      ok := path != "" && path[0] == '/';
      if ok {
        ghost var r := Route(verb, Segments(path[1..]), handler);
        BuildAppend(routes, r);
        SegmentsPlain(path[1..]);
        if path == "/" {
          NoSegments();
          assert path[1..] == "";
          root := root.(handlers := root.handlers[verb := handler]);
        } else {
          var segments := SplitPathToSegments(path[1..]);
          root := AddAt(root, segments, verb, handler);
        }
        routes := routes + [r];
      }
    }

    /** `find_route`: on a clear table, the last registered route whose pattern matches, with its parameters. */
    method FindRoute(verb: Method, path: string, params: Params) returns (r: Found)
      requires Valid()
      ensures r == Search(root, path, verb, params)
      ensures path != "" && path[0] == '/' && Clear(routes) ==>
                Agrees(r, routes, Segments(path[1..]), verb, params)
    {
      hide Agrees, Clear, Build, PlainRoutes;
      if path == "" || path[0] != '/' {
        return NotFound(params);
      }
      ghost var wanted := Segments(path[1..]);
      assert wanted[0..] == wanted;
      if Clear(routes) {
        MatchIs(routes, wanted, 0, verb, params);
      }
      if path == "/" {
        NoSegments();
        assert path[1..] == "";
        return if verb in root.handlers then Found(root.handlers[verb], params) else NotFound(params);
      }
      var segments := SplitPathToSegments(path[1..]);
      hide MatchAt;
      r := MatchAt(root, segments, 0, verb, params);
    }
  }
}
