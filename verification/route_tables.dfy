/** Which route tables the router searches right: the second descent of a search starts one segment too far. */
module RouteTables {
  import opened Bytes
  import opened HttpSyntax
  import opened Routing

  // --- Tables that are not clear ----------------------------------------------------------------------------

  /** A search that advances once for each level, and tries the parameter child where the literal child fails. */
  function Intended(node: Node, segments: seq<string>, verb: Method, params: Params): Found
    decreases |segments|
  {
    if segments == [] then
      if verb in node.handlers then Found(node.handlers[verb], params) else NotFound(params)
    else
      var s := segments[0];
      var literal := if s in node.children then Intended(node.children[s], segments[1..], verb, params) else NotFound(params);
      if literal.Found? then literal
      else if node.param.Some? then Intended(node.param.value, segments[1..], verb, params[node.paramName := s])
      else NotFound(params)
  }

  /** Which handler is found does not depend on the parameters bound so far. */
  lemma {:induction false} IntendedHandler(node: Node, segments: seq<string>, verb: Method, p: Params, q: Params)
    ensures var u, v := Intended(node, segments, verb, p), Intended(node, segments, verb, q);
            u.Found? == v.Found? && (u.Found? ==> u.handler == v.handler)
    decreases |segments|
  {
    if segments != [] {
      var s, rest := segments[0], segments[1..];
      if s in node.children {
        IntendedHandler(node.children[s], rest, verb, p, q);
      }
      if node.param.Some? {
        IntendedHandler(node.param.value, rest, verb, p[node.paramName := s], q[node.paramName := s]);
      }
    }
  }

  predicate Registered(routes: seq<Route>, segments: seq<string>, verb: Method)
  {
    exists r | r in routes :: r.verb == verb && Matches(r.pattern, segments)
  }

  lemma {:induction false} RegisteredIsLast(routes: seq<Route>, segments: seq<string>, verb: Method)
    ensures Registered(routes, segments, verb) <==> LastMatch(routes, segments, verb).Some?
  {
    hide Matches;
    if routes != [] {
      RegisteredIsLast(routes[..|routes| - 1], segments, verb);
    }
  }

  lemma RegisteredTails(routes: seq<Route>, segments: seq<string>, verb: Method)
    requires segments != []
    ensures Registered(routes, segments, verb)
       <==> Registered(Tails(routes, segments[0]), segments[1..], verb)
            || Registered(ParamTails(routes), segments[1..], verb)
  {
    var s, rest := segments[0], segments[1..];
    if Registered(routes, segments, verb) {
      var r :| r in routes && r.verb == verb && Matches(r.pattern, segments);
      OneRoute(r, segments);
      InTails(routes, r, s);
    }
    if Registered(Tails(routes, s), rest, verb) {
      var t :| t in Tails(routes, s) && t.verb == verb && Matches(t.pattern, rest);
      TailMember(routes, s, t);
      OneRoute(t.(pattern := [s] + t.pattern), segments);
      hide Matches, IsParam, Tails;
      assert t.(pattern := [s] + t.pattern).pattern[1..] == t.pattern;
    }
    if Registered(ParamTails(routes), rest, verb) {
      var t :| t in ParamTails(routes) && t.verb == verb && Matches(t.pattern, rest);
      var p := ParamTailMember(routes, t);
      OneRoute(t.(pattern := [p] + t.pattern), segments);
      hide Matches, IsParam, ParamTails;
      assert t.(pattern := [p] + t.pattern).pattern[1..] == t.pattern;
    }
  }

  lemma {:induction false} InTails(routes: seq<Route>, r: Route, s: string)
    requires r in routes && r.pattern != []
    ensures !IsParam(r.pattern[0]) && r.pattern[0] == s ==> r.(pattern := r.pattern[1..]) in Tails(routes, s)
    ensures IsParam(r.pattern[0]) ==> r.(pattern := r.pattern[1..]) in ParamTails(routes)
  {
    hide IsParam;
    if routes[|routes| - 1] != r {
      InTails(routes[..|routes| - 1], r, s);
    }
  }

  /** The handler is that of a route of the method that matches. */
  predicate ByRoute(routes: seq<Route>, segments: seq<string>, verb: Method, handler: Handler)
  {
    exists r | r in routes :: r.verb == verb && r.handler == handler && Matches(r.pattern, segments)
  }

  lemma {:induction false} LastIsByRoute(routes: seq<Route>, segments: seq<string>, verb: Method)
    requires LastMatch(routes, segments, verb).Some?
    ensures ByRoute(routes, segments, verb, LastMatch(routes, segments, verb).value)
  {
    hide Matches;
    var r := routes[|routes| - 1];
    if r.verb == verb && Matches(r.pattern, segments) {
      assert r in routes;
    } else {
      LastIsByRoute(routes[..|routes| - 1], segments, verb);
    }
  }

  lemma ByRouteTails(routes: seq<Route>, segments: seq<string>, verb: Method, handler: Handler)
    requires segments != []
    ensures ByRoute(Tails(routes, segments[0]), segments[1..], verb, handler) ==> ByRoute(routes, segments, verb, handler)
    ensures ByRoute(ParamTails(routes), segments[1..], verb, handler) ==> ByRoute(routes, segments, verb, handler)
  {
    var s, rest := segments[0], segments[1..];
    if ByRoute(Tails(routes, s), rest, verb, handler) {
      var t :| t in Tails(routes, s) && t.verb == verb && t.handler == handler && Matches(t.pattern, rest);
      TailMember(routes, s, t);
      OneRoute(t.(pattern := [s] + t.pattern), segments);
      hide Matches, IsParam, Tails;
      assert t.(pattern := [s] + t.pattern).pattern[1..] == t.pattern;
    }
    if ByRoute(ParamTails(routes), rest, verb, handler) {
      var t :| t in ParamTails(routes) && t.verb == verb && t.handler == handler && Matches(t.pattern, rest);
      var p := ParamTailMember(routes, t);
      OneRoute(t.(pattern := [p] + t.pattern), segments);
      hide Matches, IsParam, ParamTails;
      assert t.(pattern := [p] + t.pattern).pattern[1..] == t.pattern;
    }
  }

  /** The intended search finds a handler exactly when some registered pattern of the method matches, and then that
      of such a pattern. */
  lemma {:induction false} IntendedIsComplete(routes: seq<Route>, segments: seq<string>, verb: Method, params: Params)
    ensures var r := Intended(Build(routes), segments, verb, params);
            && (r.Found? <==> Registered(routes, segments, verb))
            && (r.Found? ==> ByRoute(routes, segments, verb, r.handler))
    decreases |segments|
  {
    BuildIs(routes);
    if segments == [] {
      RegisteredIsLast(routes, [], verb);
      if LastMatch(routes, [], verb).Some? {
        LastIsByRoute(routes, [], verb);
      }
      hide ChildrenAre, ParamIs, Build, LastMatch, Registered, ByRoute;
    } else {
      hide NodeIs, Build, Tails, ParamTails, FirstName, Registered, ByRoute;
      var s, rest, node := segments[0], segments[1..], Build(routes);
      NodeOf(routes, s);
      RegisteredTails(routes, segments, verb);
      IntendedIsComplete(Tails(routes, s), rest, verb, params);
      IntendedIsComplete(ParamTails(routes), rest, verb, params[node.paramName := s]);
      NothingRegistered(rest, verb);
      var r := Intended(node, segments, verb, params);
      if r.Found? {
        ByRouteTails(routes, segments, verb, r.handler);
      }
    }
  }

  lemma NothingRegistered(segments: seq<string>, verb: Method)
    ensures !Registered([], segments, verb)
  {
  }

  /** A search falls back when a literal descent fails at a node that has a parameter child too. */
  predicate FallsBack(node: Node, segments: seq<string>, verb: Method)
    decreases |segments|
  {
    segments != [] &&
    var s := segments[0];
    if s in node.children then
      || FallsBack(node.children[s], segments[1..], verb)
      || (node.param.Some? && !Intended(node.children[s], segments[1..], verb, map[]).Found?)
    else node.param.Some? && FallsBack(node.param.value, segments[1..], verb)
  }

  /** The program's search from segment `i` is the intended one. */
  predicate AsIntended(node: Node, segments: seq<string>, i: nat, verb: Method, params: Params)
    requires i <= |segments|
  {
    var r, t := MatchAt(node, segments, i, verb, params), Intended(node, segments[i..], verb, params);
    if t.Found? then r == t else r.NotFound?
  }

  /** Without falling back it is, on any table. */
  lemma {:induction false} StraightSearchIsIntended(node: Node, segments: seq<string>, i: nat, verb: Method, params: Params)
    requires i <= |segments| && !FallsBack(node, segments[i..], verb)
    ensures AsIntended(node, segments, i, verb, params)
    decreases |segments| - i
  {
    if i < |segments| {
      var s, rest := segments[i], segments[i..];
      assert rest[0] == s && rest[1..] == segments[i + 1..];
      if s in node.children {
        StraightSearchIsIntended(node.children[s], segments, i + 1, verb, params);
        IntendedHandler(node.children[s], rest[1..], verb, params, map[]);
      } else if node.param.Some? {
        StraightSearchIsIntended(node.param.value, segments, i + 1, verb, params[node.paramName := s]);
      }
    }
  }

  // --- Which tables fall back ----------------------------------------------------------------------------------

  /** A text of `n` characters. */
  function Text(n: nat): (t: string)
    ensures |t| == n
  {
    seq(n, _ => 'x')
  }

  function Size(pattern: seq<string>): nat
  {
    if pattern == [] then 0 else 1 + |pattern[0]| + Size(pattern[1..])
  }

  lemma {:induction false} SizeIs(pattern: seq<string>)
    ensures |pattern| <= Size(pattern) && forall k | 0 <= k < |pattern| :: |pattern[k]| <= Size(pattern)
  {
    if pattern != [] {
      SizeIs(pattern[1..]);
      assert forall k | 0 < k < |pattern| :: pattern[k] == pattern[1..][k - 1];
    }
  }

  /** Longer than every pattern, and than every segment of one. */
  function Bound(routes: seq<Route>): nat
  {
    if routes == [] then 0 else Bound(routes[..|routes| - 1]) + Size(routes[|routes| - 1].pattern) + 1
  }

  lemma {:induction false} BoundIs(routes: seq<Route>, r: Route)
    requires r in routes
    ensures |r.pattern| < Bound(routes) && forall k | 0 <= k < |r.pattern| :: |r.pattern[k]| < Bound(routes)
  {
    hide Size;
    if routes[|routes| - 1] != r {
      BoundIs(routes[..|routes| - 1], r);
    } else {
      SizeIs(r.pattern);
    }
  }

  /** No path longer than every pattern is registered. */
  lemma TooLong(routes: seq<Route>, segments: seq<string>, verb: Method)
    requires |segments| >= Bound(routes)
    ensures !Intended(Build(routes), segments, verb, map[]).Found?
  {
    IntendedIsComplete(routes, segments, verb, map[]);
    hide ByRoute, Intended;
    forall r | r in routes
      ensures !Matches(r.pattern, segments)
    {
      BoundIs(routes, r);
    }
  }

  lemma {:induction false} NoTails(routes: seq<Route>, s: string)
    requires forall r | r in routes :: r.pattern == [] || r.pattern[0] != s
    ensures Tails(routes, s) == []
  {
    if routes != [] {
      assert routes[|routes| - 1] in routes;
      NoTails(routes[..|routes| - 1], s);
    }
  }

  /** A segment longer than every first segment has no literal child. */
  lemma NoLiteral(routes: seq<Route>)
    ensures Tails(routes, Text(Bound(routes))) == []
  {
    forall r | r in routes
      ensures r.pattern == [] || r.pattern[0] != Text(Bound(routes))
    {
      BoundIs(routes, r);
    }
    NoTails(routes, Text(Bound(routes)));
  }

  lemma ShapeHead(p: seq<string>, q: seq<string>, k: nat)
    requires 0 < k <= |p| && k <= |q| && SameShape(p[..k], q[..k])
    ensures (IsParam(p[0]) && IsParam(q[0])) || p[0] == q[0]
    ensures SameShape(p[1..][..k - 1], q[1..][..k - 1])
  {
    hide IsParam;
    assert p[..k][0] == p[0] && q[..k][0] == q[0];
    var u, v := p[1..][..k - 1], q[1..][..k - 1];
    forall j | 0 <= j < k - 1
      ensures (IsParam(u[j]) && IsParam(v[j])) || u[j] == v[j]
    {
      assert u[j] == p[..k][j + 1] && v[j] == q[..k][j + 1];
    }
  }

  /** Two routes part at place `k`, one with a literal and one with a parameter. */
  predicate Parting(r: Route, q: Route, k: nat)
  {
    && k < |r.pattern| && k < |q.pattern| && SameShape(r.pattern[..k], q.pattern[..k])
    && !IsParam(r.pattern[k]) && IsParam(q.pattern[k])
  }

  lemma NotClear(routes: seq<Route>) returns (r: Route, q: Route, k: nat)
    requires !Clear(routes)
    ensures r in routes && q in routes && Parting(r, q, k)
  {
    hide IsParam, SameShape;
    r, q, k :| r in routes && q in routes && k < |r.pattern| && k < |q.pattern|
      && SameShape(r.pattern[..k], q.pattern[..k]) && (IsParam(r.pattern[k]) != IsParam(q.pattern[k]));
    if IsParam(r.pattern[k]) {
      ShapeSymmetric(r.pattern[..k], q.pattern[..k]);
      r, q := q, r;
    }
  }

  lemma ShapeSymmetric(p: seq<string>, q: seq<string>)
    requires SameShape(p, q)
    ensures SameShape(q, p)
  {
  }

  lemma NoParting(routes: seq<Route>)
    requires Clear(routes)
    ensures forall r, q, k: nat | r in routes && q in routes :: !Parting(r, q, k)
  {
    hide SameShape, IsParam;
  }

  /** One level up the trie. */
  lemma PartingTail(r: Route, q: Route, k: nat)
    requires Parting(r, q, k) && k > 0
    ensures (IsParam(r.pattern[0]) && IsParam(q.pattern[0])) || r.pattern[0] == q.pattern[0]
    ensures Parting(r.(pattern := r.pattern[1..]), q.(pattern := q.pattern[1..]), k - 1)
  {
    ShapeHead(r.pattern, q.pattern, k);
    hide SameShape, IsParam;
  }

  lemma PartingCons(r: Route, q: Route, k: nat, a: string, b: string)
    requires Parting(r, q, k) && ((IsParam(a) && IsParam(b)) || a == b)
    ensures Parting(r.(pattern := [a] + r.pattern), q.(pattern := [b] + q.pattern), k + 1)
  {
    ShapeCons(a, b, r.pattern, q.pattern, k);
    hide SameShape, IsParam;
  }

  lemma PlainTails(routes: seq<Route>, s: string)
    requires PlainRoutes(routes)
    ensures PlainRoutes(Tails(routes, s)) && PlainRoutes(ParamTails(routes))
  {
    hide Plain, IsParam;
    forall t | t in Tails(routes, s)
      ensures AllPlain(t.pattern)
    {
      TailMember(routes, s, t);
      assert forall x | x in t.pattern :: x in ([s] + t.pattern);
    }
    forall t | t in ParamTails(routes)
      ensures AllPlain(t.pattern)
    {
      var p := ParamTailMember(routes, t);
      assert forall x | x in t.pattern :: x in ([p] + t.pattern);
    }
  }

  lemma PlainText(n: nat)
    requires n > 0
    ensures Plain(Text(n))
  {
  }

  lemma PlainCons(s: string, rest: seq<string>)
    requires Plain(s) && AllPlain(rest)
    ensures AllPlain([s] + rest)
  {
    hide Plain;
  }

  /** Two routes that part give a path that falls back. */
  lemma {:induction false} PartingFallsBack(routes: seq<Route>, r: Route, q: Route, k: nat, verb: Method)
    returns (segments: seq<string>)
    requires r in routes && q in routes && Parting(r, q, k) && PlainRoutes(routes)
    ensures AllPlain(segments) && FallsBack(Build(routes), segments, verb)
    decreases k
  {
    BuildIs(routes);
    hide NodeIs, Build, Tails, ParamTails, FirstName, IsParam, Bound, Plain;
    var s := r.pattern[0];
    InTails(routes, r, s);
    InTails(routes, q, s);
    BoundIs(routes, r);
    PlainText(Bound(routes));
    if k == 0 {
      var rest := seq(Bound(Tails(routes, s)), _ => Text(Bound(routes)));
      segments := [s] + rest;
      NodeOf(routes, s);
      TooLong(Tails(routes, s), rest, verb);
      assert segments[1..] == rest;
    } else {
      PartingTail(r, q, k);
      PlainTails(routes, s);
      var r1, q1 := r.(pattern := r.pattern[1..]), q.(pattern := q.pattern[1..]);
      if IsParam(s) {
        var rest := PartingFallsBack(ParamTails(routes), r1, q1, k - 1, verb);
        var text := Text(Bound(routes));
        segments := [text] + rest;
        NoLiteral(routes);
        NodeOf(routes, text);
        assert segments[1..] == rest;
      } else {
        var rest := PartingFallsBack(Tails(routes, s), r1, q1, k - 1, verb);
        segments := [s] + rest;
        NodeOf(routes, s);
        assert segments[1..] == rest;
      }
    }
  }

  lemma {:induction false} ClearNeverFallsBack(routes: seq<Route>, segments: seq<string>, verb: Method)
    requires Clear(routes)
    ensures !FallsBack(Build(routes), segments, verb)
    decreases |segments|
  {
    if segments != [] {
      BuildIs(routes);
      hide NodeIs, Build, Tails, ParamTails, FirstName, Clear, Intended;
      NodeOf(routes, segments[0]);
      ClearTails(routes, segments[0]);
      if Tails(routes, segments[0]) != [] {
        ClearNeverFallsBack(Tails(routes, segments[0]), segments[1..], verb);
      } else if ParamTails(routes) != [] {
        ClearNeverFallsBack(ParamTails(routes), segments[1..], verb);
      }
    }
  }

  ghost predicate NeverFallsBack(routes: seq<Route>, verb: Method)
  {
    forall path :: !FallsBack(Build(routes), Segments(path), verb)
  }

  /** The faulty descent is taken for no path exactly when no place of the table has both literal segments and a
      parameter. */
  lemma NeverFallsBackIffClear(routes: seq<Route>, verb: Method)
    requires PlainRoutes(routes)
    ensures NeverFallsBack(routes, verb) <==> Clear(routes)
  {
    hide FallsBack, Build, Parting, Clear, Segments, PlainRoutes, AllPlain;
    if Clear(routes) {
      forall path
        ensures !FallsBack(Build(routes), Segments(path), verb)
      {
        ClearNeverFallsBack(routes, Segments(path), verb);
      }
    } else {
      var r, q, k := NotClear(routes);
      var segments := PartingFallsBack(routes, r, q, k, verb);
      SegmentsInvertJoined(segments);
      assert FallsBack(Build(routes), Segments(Joined(segments)), verb);
    }
  }

  /** What falling back does: the parameter child is searched with one segment left out, and if the segment was
      the last one, past the end of the path. */
  lemma FallBackSkipsASegment(node: Node, segments: seq<string>, i: nat, verb: Method, params: Params)
    requires i < |segments| && segments[i] in node.children && node.param.Some?
    requires MatchAt(node.children[segments[i]], segments, i + 1, verb, params).NotFound?
    ensures i + 1 == |segments| ==> MatchAt(node, segments, i, verb, params) == OutOfRange
    ensures i + 1 < |segments| ==>
              var left := MatchAt(node.children[segments[i]], segments, i + 1, verb, params).params;
              var r := MatchAt(node.param.value, segments, i + 2, verb, left[node.paramName := segments[i]]);
              if r.NotFound? then MatchAt(node, segments, i, verb, params).NotFound?
              else MatchAt(node, segments, i, verb, params) == r
  {
    if i + 1 == |segments| {
      assert MatchAt(node.param.value, segments, i + 2, verb,
                     MatchAt(node.children[segments[i]], segments, i + 1, verb, params).params[node.paramName := segments[i]])
          == OutOfRange;
    }
  }

  // --- Which tables are searched past the end of a path ------------------------------------------------------

  /** A pattern that matches whatever `p` matches. */
  predicate Covers(t: seq<string>, p: seq<string>)
  {
    |t| == |p| && forall k | 0 <= k < |t| :: IsParam(t[k]) || t[k] == p[k]
  }

  /** A pattern that goes through `place` and covers `rest` after it. */
  predicate Beneath(t: seq<string>, place: seq<string>, rest: seq<string>)
  {
    |place| <= |t| && SameShape(t[..|place|], place) && Covers(t[|place|..], rest)
  }

  predicate Covered(routes: seq<Route>, place: seq<string>, rest: seq<string>, verb: Method)
  {
    exists t | t in routes :: t.verb == verb && Beneath(t.pattern, place, rest)
  }

  /** A route of the method ends at this place. */
  predicate EndsAt(routes: seq<Route>, place: seq<string>, verb: Method)
  {
    Covered(routes, place, [], verb)
  }

  /** Wherever the table has a parameter beside a literal segment, a route of the method ends at the literal. */
  predicate EndsCovered(routes: seq<Route>, verb: Method)
  {
    forall r, q | r in routes && q in routes ::
      forall k: nat | k < |r.pattern| && Parting(r, q, k) :: EndsAt(routes, r.pattern[..k + 1], verb)
  }

  lemma EndsCoveredAt(routes: seq<Route>, verb: Method, r: Route, q: Route, k: nat)
    requires EndsCovered(routes, verb) && r in routes && q in routes && Parting(r, q, k)
    ensures EndsAt(routes, r.pattern[..k + 1], verb)
  {
    hide EndsAt;
  }

  lemma ShapeTail(s: string, place: seq<string>, p: seq<string>)
    ensures SameShape(p, [s] + place)
       <==> p != [] && ((IsParam(p[0]) && IsParam(s)) || p[0] == s) && SameShape(p[1..], place)
  {
    hide IsParam;
    var q := [s] + place;
    assert q[1..] == place;
    if |p| == |q| {
      assert forall k | 0 <= k < |place| :: p[1..][k] == p[k + 1] && place[k] == q[k + 1];
      if SameShape(p[1..], place) && ((IsParam(p[0]) && IsParam(s)) || p[0] == s) {
        forall k | 0 <= k < |p|
          ensures (IsParam(p[k]) && IsParam(q[k])) || p[k] == q[k]
        {
          assert k > 0 ==> p[k] == p[1..][k - 1] && q[k] == place[k - 1];
        }
      }
    }
  }

  lemma BeneathCons(s: string, place: seq<string>, rest: seq<string>, p: seq<string>)
    ensures Beneath(p, [s] + place, rest)
       <==> p != [] && ((IsParam(p[0]) && IsParam(s)) || p[0] == s) && Beneath(p[1..], place, rest)
  {
    hide IsParam, SameShape, Covers;
    var n := |place|;
    if n < |p| {
      ShapeTail(s, place, p[..n + 1]);
      assert p[..n + 1][1..] == p[1..][..n];
      assert p[n + 1..] == p[1..][n..];
    }
  }

  lemma CoveredCons(routes: seq<Route>, s: string, place: seq<string>, rest: seq<string>, verb: Method)
    ensures Covered(routes, [s] + place, rest, verb)
       <==> Covered(if IsParam(s) then ParamTails(routes) else Tails(routes, s), place, rest, verb)
  {
    hide Beneath, IsParam, Tails, ParamTails;
    var tails := if IsParam(s) then ParamTails(routes) else Tails(routes, s);
    if Covered(routes, [s] + place, rest, verb) {
      var t :| t in routes && t.verb == verb && Beneath(t.pattern, [s] + place, rest);
      BeneathCons(s, place, rest, t.pattern);
      InTails(routes, t, s);
      assert t.(pattern := t.pattern[1..]) in tails;
    }
    if Covered(tails, place, rest, verb) {
      var t :| t in tails && t.verb == verb && Beneath(t.pattern, place, rest);
      var p := s;
      if IsParam(s) {
        p := ParamTailMember(routes, t);
      } else {
        TailMember(routes, s, t);
      }
      BeneathCons(s, place, rest, [p] + t.pattern);
      assert ([p] + t.pattern)[1..] == t.pattern;
      assert t.(pattern := [p] + t.pattern) in routes;
    }
  }

  lemma EndsHere(routes: seq<Route>, verb: Method)
    ensures EndsAt(routes, [], verb) <==> LastMatch(routes, [], verb).Some?
  {
    RegisteredIsLast(routes, [], verb);
    hide LastMatch, IsParam;
    forall t | t in routes
      ensures Beneath(t.pattern, [], []) <==> Matches(t.pattern, [])
    {
      assert t.pattern[0..] == t.pattern;
    }
  }

  lemma CoveredTails(routes: seq<Route>, s: string, verb: Method)
    requires EndsCovered(routes, verb)
    ensures EndsCovered(Tails(routes, s), verb) && EndsCovered(ParamTails(routes), verb)
  {
    hide EndsCovered, Covered, Parting, Tails, ParamTails, IsParam;
    var tails, params := Tails(routes, s), ParamTails(routes);
    forall r, q, k: nat | r in tails && q in tails && k < |r.pattern| && Parting(r, q, k)
      ensures EndsAt(tails, r.pattern[..k + 1], verb)
    {
      TailMember(routes, s, r);
      TailMember(routes, s, q);
      PartingCons(r, q, k, s, s);
      EndsCoveredAt(routes, verb, r.(pattern := [s] + r.pattern), q.(pattern := [s] + q.pattern), k + 1);
      assert ([s] + r.pattern)[..k + 2] == [s] + r.pattern[..k + 1];
      CoveredCons(routes, s, r.pattern[..k + 1], [], verb);
    }
    EndsCoveredIf(tails, verb);
    forall r, q, k: nat | r in params && q in params && k < |r.pattern| && Parting(r, q, k)
      ensures EndsAt(params, r.pattern[..k + 1], verb)
    {
      var a := ParamTailMember(routes, r);
      var b := ParamTailMember(routes, q);
      PartingCons(r, q, k, a, b);
      EndsCoveredAt(routes, verb, r.(pattern := [a] + r.pattern), q.(pattern := [b] + q.pattern), k + 1);
      assert ([a] + r.pattern)[..k + 2] == [a] + r.pattern[..k + 1];
      CoveredCons(routes, a, r.pattern[..k + 1], [], verb);
    }
    EndsCoveredIf(params, verb);
  }

  lemma EndsCoveredIf(routes: seq<Route>, verb: Method)
    requires forall r, q, k: nat | r in routes && q in routes && k < |r.pattern| && Parting(r, q, k) ::
               EndsAt(routes, r.pattern[..k + 1], verb)
    ensures EndsCovered(routes, verb)
  {
    hide Parting, EndsAt;
  }

  /** A node of a covered table with a parameter has a handler of the method in each literal child. */
  lemma CoveredChild(routes: seq<Route>, s: string, verb: Method)
    requires EndsCovered(routes, verb) && Tails(routes, s) != [] && ParamTails(routes) != []
    ensures verb in Build(Tails(routes, s)).handlers
  {
    hide EndsCovered, Covered, Tails, ParamTails, SameShape, LastMatch, Build, ChildrenAre, ParamIs;
    var t, u := Tails(routes, s)[0], ParamTails(routes)[0];
    TailMember(routes, s, t);
    var p := ParamTailMember(routes, u);
    var r, q := t.(pattern := [s] + t.pattern), u.(pattern := [p] + u.pattern);
    NoShape(r.pattern, q.pattern);
    EndsCoveredAt(routes, verb, r, q, 0);
    assert r.pattern[..1] == [s] + [];
    CoveredCons(routes, s, [], [], verb);
    EndsHere(Tails(routes, s), verb);
    BuildIs(Tails(routes, s));
  }

  lemma {:induction false} CoveredStays(routes: seq<Route>, segments: seq<string>, i: nat, verb: Method, params: Params)
    requires i <= |segments| && EndsCovered(routes, verb)
    ensures MatchAt(Build(routes), segments, i, verb, params) != OutOfRange
    decreases |segments| - i
  {
    if i < |segments| {
      hide NodeIs, Build, MatchAt, Tails, ParamTails, EndsCovered, FirstName;
      var s := segments[i];
      BuildIs(routes);
      NodeOf(routes, s);
      CoveredTails(routes, s, verb);
      var node := Build(routes);
      if s !in node.children {
        DescendParam(node, segments, i, verb, params);
        CoveredStays(ParamTails(routes), segments, i + 1, verb, params[node.paramName := s]);
      } else {
        CoveredStays(Tails(routes, s), segments, i + 1, verb, params);
        var below := MatchAt(node.children[s], segments, i + 1, verb, params);
        if node.param.None? {
          DescendLiteral(node, segments, i, verb, params);
        } else if below.Found? {
          DescendFound(node, segments, i, verb, params);
        } else if i + 1 < |segments| {
          CoveredStays(ParamTails(routes), segments, i + 2, verb, below.params[node.paramName := s]);
          FallBackSkipsASegment(node, segments, i, verb, params);
        } else {
          CoveredChild(routes, s, verb);
          HandlerFound(node.children[s], segments, verb, params);
          assert false;
        }
      }
    }
  }

  lemma DescendFound(node: Node, segments: seq<string>, i: nat, verb: Method, params: Params)
    requires i < |segments| && segments[i] in node.children
    requires !MatchAt(node.children[segments[i]], segments, i + 1, verb, params).NotFound?
    ensures MatchAt(node, segments, i, verb, params)
         == MatchAt(node.children[segments[i]], segments, i + 1, verb, params)
  {
  }

  lemma HandlerFound(node: Node, segments: seq<string>, verb: Method, params: Params)
    ensures MatchAt(node, segments, |segments|, verb, params).Found? <==> verb in node.handlers
    ensures MatchAt(node, segments, |segments|, verb, params) != OutOfRange
  {
  }

  /** The search of every path that ends in `rest`, from there on, reads past the end. */
  ghost predicate Overruns(node: Node, rest: seq<string>, verb: Method)
  {
    forall front: seq<string>, params: Params ::
      MatchAt(node, front + rest, |front|, verb, params) == OutOfRange
  }

  lemma OverrunsHere(node: Node, s: string, verb: Method)
    requires s in node.children && node.param.Some? && verb !in node.children[s].handlers
    ensures Overruns(node, [s], verb)
  {
    hide MatchAt;
    forall front: seq<string>, params: Params
      ensures MatchAt(node, front + [s], |front|, verb, params) == OutOfRange
    {
      HandlerFound(node.children[s], front + [s], verb, params);
      FallBackSkipsASegment(node, front + [s], |front|, verb, params);
    }
  }

  lemma OverrunsAbove(node: Node, s: string, rest: seq<string>, verb: Method)
    requires if s in node.children then Overruns(node.children[s], rest, verb)
             else node.param.Some? && Overruns(node.param.value, rest, verb)
    ensures Overruns(node, [s] + rest, verb)
  {
    hide MatchAt;
    forall front: seq<string>, params: Params
      ensures MatchAt(node, front + ([s] + rest), |front|, verb, params) == OutOfRange
    {
      var all := front + ([s] + rest);
      assert all == (front + [s]) + rest;
      if s in node.children {
        assert MatchAt(node.children[s], (front + [s]) + rest, |front + [s]|, verb, params) == OutOfRange;
        DescendFound(node, all, |front|, verb, params);
      } else {
        assert MatchAt(node.param.value, (front + [s]) + rest, |front + [s]|, verb, params[node.paramName := s])
            == OutOfRange;
        DescendParam(node, all, |front|, verb, params);
      }
    }
  }

  /** Two routes that part where none of the method ends at the literal give a path that is searched past its end. */
  lemma {:induction false} OpenEndOverruns(routes: seq<Route>, r: Route, q: Route, k: nat, verb: Method)
    returns (rest: seq<string>)
    requires r in routes && q in routes && Parting(r, q, k) && PlainRoutes(routes)
    requires !EndsAt(routes, r.pattern[..k + 1], verb)
    ensures AllPlain(rest) && Overruns(Build(routes), rest, verb)
    decreases k
  {
    BuildIs(routes);
    hide NodeIs, Build, Tails, ParamTails, FirstName, IsParam, Bound, Plain, Covered, Overruns, SameShape;
    var s := r.pattern[0];
    InTails(routes, r, s);
    InTails(routes, q, s);
    BoundIs(routes, r);
    assert Plain(s);
    if k == 0 {
      rest := [s];
      NodeOf(routes, s);
      assert r.pattern[..1] == [s] + [];
      CoveredCons(routes, s, [], [], verb);
      NoHandler(Tails(routes, s), verb);
      OverrunsHere(Build(routes), s, verb);
    } else {
      PartingTail(r, q, k);
      PlainTails(routes, s);
      var r1, q1 := r.(pattern := r.pattern[1..]), q.(pattern := q.pattern[1..]);
      assert r.pattern[..k + 1] == [s] + r1.pattern[..k];
      CoveredCons(routes, s, r1.pattern[..k], [], verb);
      var first;
      if IsParam(s) {
        rest := OpenEndOverruns(ParamTails(routes), r1, q1, k - 1, verb);
        first := Text(Bound(routes));
        PlainText(Bound(routes));
        NoLiteral(routes);
      } else {
        rest := OpenEndOverruns(Tails(routes, s), r1, q1, k - 1, verb);
        first := s;
      }
      NodeOf(routes, first);
      OverrunsAbove(Build(routes), first, rest, verb);
      PlainCons(first, rest);
      rest := [first] + rest;
    }
  }

  lemma NoHandler(routes: seq<Route>, verb: Method)
    requires !EndsAt(routes, [], verb)
    ensures verb !in Build(routes).handlers
  {
    BuildIs(routes);
    EndsHere(routes, verb);
    hide Build, LastMatch, EndsAt, ChildrenAre, ParamIs;
  }

  ghost predicate StaysWithin(routes: seq<Route>, verb: Method)
  {
    forall path, params :: Search(Build(routes), path, verb, params) != OutOfRange
  }

  /** No search of the method reads past the end of a path exactly when wherever the table has a parameter beside a
      literal segment, a route of the method ends at the literal. */
  lemma StaysWithinIff(routes: seq<Route>, verb: Method)
    requires PlainRoutes(routes)
    ensures StaysWithin(routes, verb) <==> EndsCovered(routes, verb)
  {
    hide Build, MatchAt, Segments, PlainRoutes, AllPlain, Parting, EndsAt;
    if EndsCovered(routes, verb) {
      hide EndsCovered;
      forall path, params
        ensures Search(Build(routes), path, verb, params) != OutOfRange
      {
        if path != "" && path[0] == '/' {
          CoveredStays(routes, Segments(path[1..]), 0, verb, params);
        }
      }
    } else {
      var r, q, k: nat :| r in routes && q in routes && k < |r.pattern| && Parting(r, q, k)
        && !EndsAt(routes, r.pattern[..k + 1], verb);
      var rest := OpenEndOverruns(routes, r, q, k, verb);
      SegmentsInvertJoined(rest);
      assert [] + rest == rest;
      assert MatchAt(Build(routes), [] + rest, 0, verb, map[]) == OutOfRange;
      var path := "/" + Joined(rest);
      assert path[1..] == Joined(rest);
      assert Search(Build(routes), path, verb, map[]) == OutOfRange;
    }
  }

  // --- Which tables are searched as intended -------------------------------------------------------------------

  /** A route of the method ends at the literal that stands beside a parameter at place `k`; and if `q` is of the
      method, such routes cover what follows the parameter in `q`, as it is and with one more segment before it. */
  predicate PairCovered(routes: seq<Route>, r: Route, q: Route, k: nat, verb: Method)
    requires k < |r.pattern| && k < |q.pattern|
  {
    var place, rest := r.pattern[..k + 1], q.pattern[k + 1..];
    && EndsAt(routes, place, verb)
    && (q.verb == verb ==> Covered(routes, place, rest, verb) && Covered(routes, place, [":"] + rest, verb))
  }

  predicate LiteralsCover(routes: seq<Route>, verb: Method)
  {
    forall r, q | r in routes && q in routes ::
      forall k: nat | k < |r.pattern| && Parting(r, q, k) :: PairCovered(routes, r, q, k, verb)
  }

  lemma LiteralsCoverAt(routes: seq<Route>, verb: Method, r: Route, q: Route, k: nat)
    requires LiteralsCover(routes, verb) && r in routes && q in routes && Parting(r, q, k)
    ensures PairCovered(routes, r, q, k, verb)
  {
    hide EndsAt, Covered;
  }

  lemma CoverEnds(routes: seq<Route>, verb: Method)
    requires LiteralsCover(routes, verb)
    ensures EndsCovered(routes, verb)
  {
    hide Parting, EndsAt, Covered;
  }

  lemma PairCons(routes: seq<Route>, r: Route, q: Route, k: nat, verb: Method)
    requires k + 1 < |r.pattern| && k + 1 < |q.pattern|
    ensures PairCovered(routes, r, q, k + 1, verb)
       <==> PairCovered(if IsParam(r.pattern[0]) then ParamTails(routes) else Tails(routes, r.pattern[0]),
                        r.(pattern := r.pattern[1..]), q.(pattern := q.pattern[1..]), k, verb)
  {
    hide Covered, IsParam, Tails, ParamTails;
    var s, place, rest := r.pattern[0], r.pattern[1..][..k + 1], q.pattern[k + 2..];
    assert r.pattern[..k + 2] == [s] + place && q.pattern[1..][k + 1..] == rest;
    CoveredCons(routes, s, place, [], verb);
    CoveredCons(routes, s, place, rest, verb);
    CoveredCons(routes, s, place, [":"] + rest, verb);
  }

  lemma PairTails(routes: seq<Route>, r: Route, q: Route, k: nat, a: string, b: string, verb: Method)
    requires LiteralsCover(routes, verb) && Parting(r, q, k) && ((IsParam(a) && IsParam(b)) || a == b)
    requires r.(pattern := [a] + r.pattern) in routes && q.(pattern := [b] + q.pattern) in routes
    ensures k < |r.pattern| && k < |q.pattern|
    ensures PairCovered(if IsParam(a) then ParamTails(routes) else Tails(routes, a), r, q, k, verb)
  {
    PartingCons(r, q, k, a, b);
    var r1, q1 := r.(pattern := [a] + r.pattern), q.(pattern := [b] + q.pattern);
    assert r1.pattern[1..] == r.pattern && q1.pattern[1..] == q.pattern;
    hide LiteralsCover, PairCovered, SameShape, IsParam, Tails, ParamTails;
    LiteralsCoverAt(routes, verb, r1, q1, k + 1);
    PairCons(routes, r1, q1, k, verb);
  }

  lemma LiteralsCoverTails(routes: seq<Route>, s: string, verb: Method)
    requires LiteralsCover(routes, verb)
    ensures LiteralsCover(Tails(routes, s), verb) && LiteralsCover(ParamTails(routes), verb)
  {
    hide PairCovered, Parting, Tails, ParamTails, IsParam, LiteralsCover;
    var tails, params := Tails(routes, s), ParamTails(routes);
    forall r, q, k: nat | r in tails && q in tails && Parting(r, q, k)
      ensures k < |r.pattern| && k < |q.pattern| && PairCovered(tails, r, q, k, verb)
    {
      TailMember(routes, s, r);
      TailMember(routes, s, q);
      PairTails(routes, r, q, k, s, s, verb);
    }
    LiteralsCoverIf(tails, verb);
    forall r, q, k: nat | r in params && q in params && Parting(r, q, k)
      ensures k < |r.pattern| && k < |q.pattern| && PairCovered(params, r, q, k, verb)
    {
      var a := ParamTailMember(routes, r);
      var b := ParamTailMember(routes, q);
      PairTails(routes, r, q, k, a, b, verb);
    }
    LiteralsCoverIf(params, verb);
  }

  lemma LiteralsCoverIf(routes: seq<Route>, verb: Method)
    requires forall r, q, k: nat | r in routes && q in routes && Parting(r, q, k) ::
               k < |r.pattern| && k < |q.pattern| && PairCovered(routes, r, q, k, verb)
    ensures LiteralsCover(routes, verb)
  {
    hide Parting, PairCovered;
  }

  lemma CoversMatches(t: seq<string>, p: seq<string>, segments: seq<string>)
    requires Covers(t, p) && Matches(p, segments)
    ensures Matches(t, segments)
  {
  }

  lemma CoveredRegistered(routes: seq<Route>, p: seq<string>, segments: seq<string>, verb: Method)
    requires Covered(routes, [], p, verb) && Matches(p, segments)
    ensures Registered(routes, segments, verb)
  {
    hide Covers, Matches;
    var t :| t in routes && t.verb == verb && Beneath(t.pattern, [], p);
    assert t.pattern[0..] == t.pattern;
    CoversMatches(t.pattern, p, segments);
  }

  /** At a node with a parameter and the literal child `s`, two routes part. */
  lemma PartHere(routes: seq<Route>, s: string, u: Route) returns (r: Route, q: Route)
    requires Tails(routes, s) != [] && u in ParamTails(routes)
    ensures r in routes && q in routes && Parting(r, q, 0)
    ensures r.pattern[..1] == [s] + [] && q.pattern[1..] == u.pattern && q.verb == u.verb
  {
    hide Tails, ParamTails, SameShape;
    var t := Tails(routes, s)[0];
    TailMember(routes, s, t);
    var p := ParamTailMember(routes, u);
    r, q := t.(pattern := [s] + t.pattern), u.(pattern := [p] + u.pattern);
    NoShape(r.pattern, q.pattern);
  }

  /** What the literal child does not match, the parameter child matches neither as it is nor with a segment left
      out. */
  lemma NothingBeside(routes: seq<Route>, s: string, rest: seq<string>, verb: Method)
    requires LiteralsCover(routes, verb) && Tails(routes, s) != [] && rest != []
    requires !Registered(Tails(routes, s), rest, verb)
    ensures !Registered(ParamTails(routes), rest, verb) && !Registered(ParamTails(routes), rest[1..], verb)
  {
    hide LiteralsCover, Covered, Matches, Tails, ParamTails, IsParam;
    forall u | u in ParamTails(routes) && u.verb == verb
      ensures !Matches(u.pattern, rest) && !Matches(u.pattern, rest[1..])
    {
      var r, q := PartHere(routes, s, u);
      assert !IsParam(s) by {
        TailMember(routes, s, Tails(routes, s)[0]);
      }
      LiteralsCoverAt(routes, verb, r, q, 0);
      CoveredCons(routes, s, [], u.pattern, verb);
      CoveredCons(routes, s, [], [":"] + u.pattern, verb);
      MatchesCons([":"] + u.pattern, rest);
      assert ([":"] + u.pattern)[1..] == u.pattern && Fits(":", rest[0]) by {
        ColonFits(rest[0]);
      }
      if Matches(u.pattern, rest) {
        CoveredRegistered(Tails(routes, s), u.pattern, rest, verb);
      }
      if Matches(u.pattern, rest[1..]) {
        CoveredRegistered(Tails(routes, s), [":"] + u.pattern, rest, verb);
      }
    }
  }

  lemma ColonFits(s: string)
    ensures Fits(":", s)
  {
  }

  lemma AsIntendedParam(node: Node, segments: seq<string>, i: nat, verb: Method, params: Params)
    requires i < |segments| && segments[i] !in node.children && node.param.Some?
    ensures AsIntended(node, segments, i, verb, params)
       <==> AsIntended(node.param.value, segments, i + 1, verb, params[node.paramName := segments[i]])
  {
    DescendParam(node, segments, i, verb, params);
    hide MatchAt;
    var rest, bound := segments[i + 1..], params[node.paramName := segments[i]];
    assert segments[i..][1..] == rest;
    assert Intended(node, segments[i..], verb, params) == Intended(node.param.value, rest, verb, bound);
  }

  lemma AsIntendedLiteral(node: Node, segments: seq<string>, i: nat, verb: Method, params: Params)
    requires i < |segments| && segments[i] in node.children
    requires AsIntended(node.children[segments[i]], segments, i + 1, verb, params)
    requires node.param.None? || Intended(node.children[segments[i]], segments[i + 1..], verb, params).Found?
    ensures AsIntended(node, segments, i, verb, params)
  {
    assert segments[i..][1..] == segments[i + 1..];
  }

  lemma NothingAsIntended(node: Node, segments: seq<string>, i: nat, verb: Method, params: Params)
    requires i < |segments| && (segments[i] in node.children ==>
               !Intended(node.children[segments[i]], segments[i + 1..], verb, params).Found?)
    requires node.param.Some? ==>
               !Intended(node.param.value, segments[i + 1..], verb, params[node.paramName := segments[i]]).Found?
    ensures AsIntended(node, segments, i, verb, params) <==> MatchAt(node, segments, i, verb, params).NotFound?
  {
    hide MatchAt;
    assert segments[i..][1..] == segments[i + 1..];
  }

  lemma {:induction false} CoverRight(routes: seq<Route>, segments: seq<string>, i: nat, verb: Method, params: Params)
    requires i <= |segments| && LiteralsCover(routes, verb)
    ensures AsIntended(Build(routes), segments, i, verb, params)
    decreases |segments| - i
  {
    if i < |segments| {
      hide NodeIs, Build, MatchAt, Intended, AsIntended, Tails, ParamTails, LiteralsCover, FirstName, Registered;
      var s := segments[i];
      BuildIs(routes);
      NodeOf(routes, s);
      LiteralsCoverTails(routes, s, verb);
      var node := Build(routes);
      if s in node.children {
        CoverRight(Tails(routes, s), segments, i + 1, verb, params);
        if node.param.None? || Intended(node.children[s], segments[i + 1..], verb, params).Found? {
          AsIntendedLiteral(node, segments, i, verb, params);
        } else {
          CoverFallsBack(routes, segments, i, verb, params);
        }
      } else if node.param.Some? {
        CoverRight(ParamTails(routes), segments, i + 1, verb, params[node.paramName := s]);
        AsIntendedParam(node, segments, i, verb, params);
      } else {
        NothingAsIntended(node, segments, i, verb, params);
        DescendParam(node, segments, i, verb, params);
      }
    } else {
      assert segments[i..] == [];
    }
  }

  /** Where the literal child fails, the parameter child has nothing to find. */
  lemma {:induction false} CoverFallsBack(routes: seq<Route>, segments: seq<string>, i: nat, verb: Method, params: Params)
    requires i < |segments| && LiteralsCover(routes, verb) && NodeIs(Build(routes), routes)
    requires Tails(routes, segments[i]) != [] && ParamTails(routes) != []
    requires !Intended(Build(Tails(routes, segments[i])), segments[i + 1..], verb, params).Found?
    requires AsIntended(Build(Tails(routes, segments[i])), segments, i + 1, verb, params)
    ensures AsIntended(Build(routes), segments, i, verb, params)
    decreases |segments| - i, 0
  {
    hide NodeIs, Build, MatchAt, Intended, Tails, ParamTails, LiteralsCover, FirstName, Registered;
    var s, rest, node := segments[i], segments[i + 1..], Build(routes);
    NodeOf(routes, s);
    if rest == [] {
      CoverEnds(routes, verb);
      CoveredChild(routes, s, verb);
      HandlerFound(Build(Tails(routes, s)), segments, verb, params);
      assert false;
    } else {
      IntendedIsComplete(Tails(routes, s), rest, verb, params);
      NothingBeside(routes, s, rest, verb);
      IntendedIsComplete(ParamTails(routes), rest, verb, params[node.paramName := s]);
      NothingAsIntended(node, segments, i, verb, params);
      var left := MatchAt(node.children[s], segments, i + 1, verb, params).params[node.paramName := s];
      LiteralsCoverTails(routes, s, verb);
      CoverRight(ParamTails(routes), segments, i + 2, verb, left);
      assert segments[i + 2..] == rest[1..];
      IntendedIsComplete(ParamTails(routes), rest[1..], verb, left);
      FallBackSkipsASegment(node, segments, i, verb, params);
    }
  }

  /** Distinct registrations have distinct handlers. */
  predicate Distinct(routes: seq<Route>)
  {
    forall r, q | r in routes && q in routes :: r.handler == q.handler ==> r == q
  }

  lemma DistinctTails(routes: seq<Route>, s: string)
    requires Distinct(routes)
    ensures Distinct(Tails(routes, s)) && Distinct(ParamTails(routes))
    ensures forall t, u | t in Tails(routes, s) && u in ParamTails(routes) :: t.handler != u.handler
  {
    hide Tails, ParamTails, IsParam;
    var tails, params := Tails(routes, s), ParamTails(routes);
    forall t | t in tails
      ensures !IsParam(s) && t.(pattern := [s] + t.pattern) in routes
    {
      TailMember(routes, s, t);
    }
    forall t, u | t in tails && u in tails && t.handler == u.handler
      ensures t == u
    {
      SameTail(s, t, s, u);
    }
    forall u | u in params
      ensures exists p :: IsParam(p) && u.(pattern := [p] + u.pattern) in routes
    {
      var p := ParamTailMember(routes, u);
    }
    forall t, u | t in params && u in params && t.handler == u.handler
      ensures t == u
    {
      var a := ParamTailMember(routes, t);
      var b := ParamTailMember(routes, u);
      SameTail(a, t, b, u);
    }
    forall t, u | t in tails && u in params
      ensures t.handler != u.handler
    {
      var p := ParamTailMember(routes, u);
      if t.handler == u.handler {
        SameTail(s, t, p, u);
        assert false;
      }
    }
  }

  lemma SameTail(a: string, t: Route, b: string, u: Route)
    ensures t.(pattern := [a] + t.pattern) == u.(pattern := [b] + u.pattern) ==> a == b && t == u
  {
    var p, q := [a] + t.pattern, [b] + u.pattern;
    assert p[0] == a && q[0] == b && p[1..] == t.pattern && q[1..] == u.pattern;
  }

  predicate Handles(routes: seq<Route>, handler: Handler)
  {
    exists r | r in routes :: r.handler == handler
  }

  lemma HandlesTails(routes: seq<Route>, s: string, handler: Handler)
    ensures Handles(Tails(routes, s), handler) || Handles(ParamTails(routes), handler) ==> Handles(routes, handler)
  {
    hide Tails, ParamTails, IsParam;
    if Handles(Tails(routes, s), handler) {
      var t :| t in Tails(routes, s) && t.handler == handler;
      TailMember(routes, s, t);
      assert t.(pattern := [s] + t.pattern).handler == handler;
    }
    if Handles(ParamTails(routes), handler) {
      var t :| t in ParamTails(routes) && t.handler == handler;
      var p := ParamTailMember(routes, t);
      assert t.(pattern := [p] + t.pattern).handler == handler;
    }
  }

  /** A handler found in a trie is one of the table's. */
  lemma {:induction false} FoundFrom(routes: seq<Route>, segments: seq<string>, i: nat, verb: Method, params: Params)
    requires i <= |segments| + 1
    ensures var r := MatchAt(Build(routes), segments, i, verb, params); r.Found? ==> Handles(routes, r.handler)
    decreases |segments| + 1 - i
  {
    if i == |segments| {
      FoundHere(routes, segments, verb, params);
    } else if i < |segments| {
      BuildIs(routes);
      hide NodeIs, Build, MatchAt, Tails, ParamTails, FirstName, Handles;
      var s, node := segments[i], Build(routes);
      NodeOf(routes, s);
      var r := MatchAt(node, segments, i, verb, params);
      if s in node.children {
        FoundFrom(Tails(routes, s), segments, i + 1, verb, params);
        var below := MatchAt(node.children[s], segments, i + 1, verb, params);
        if !below.NotFound? {
          DescendFound(node, segments, i, verb, params);
        } else if node.param.Some? {
          FallBackSkipsASegment(node, segments, i, verb, params);
          FoundFrom(ParamTails(routes), segments, i + 2, verb, below.params[node.paramName := s]);
        } else {
          DescendLiteral(node, segments, i, verb, params);
        }
      } else {
        DescendParam(node, segments, i, verb, params);
        FoundFrom(ParamTails(routes), segments, i + 1, verb, params[node.paramName := s]);
      }
      if r.Found? {
        HandlesTails(routes, s, r.handler);
      }
    }
  }

  lemma FoundHere(routes: seq<Route>, segments: seq<string>, verb: Method, params: Params)
    ensures var r := MatchAt(Build(routes), segments, |segments|, verb, params);
            r.Found? ==> Handles(routes, r.handler)
  {
    BuildIs(routes);
    if LastMatch(routes, [], verb).Some? {
      LastIsByRoute(routes, [], verb);
    }
    hide Build, LastMatch, Matches, ChildrenAre, ParamIs;
  }

  lemma ByRouteHandles(routes: seq<Route>, segments: seq<string>, verb: Method, handler: Handler)
    requires ByRoute(routes, segments, verb, handler)
    ensures Handles(routes, handler)
  {
    hide Matches;
  }

  /** The search of every path that ends in `rest`, from there on, is not the intended one. */
  ghost predicate Wrong(node: Node, rest: seq<string>, verb: Method)
  {
    forall front: seq<string>, params: Params :: !AsIntendedFrom(node, front, rest, verb, params)
  }

  predicate AsIntendedFrom(node: Node, front: seq<string>, rest: seq<string>, verb: Method, params: Params)
  {
    AsIntended(node, front + rest, |front|, verb, params)
  }

  lemma OverrunsWrong(node: Node, rest: seq<string>, verb: Method)
    requires Overruns(node, rest, verb)
    ensures Wrong(node, rest, verb)
  {
    hide MatchAt, Intended;
    forall front: seq<string>, params: Params
      ensures !AsIntendedFrom(node, front, rest, verb, params)
    {
      assert MatchAt(node, front + rest, |front|, verb, params) == OutOfRange;
    }
  }

  lemma WrongAboveParam(node: Node, s: string, rest: seq<string>, verb: Method)
    requires s !in node.children && node.param.Some? && Wrong(node.param.value, rest, verb)
    ensures Wrong(node, [s] + rest, verb)
  {
    hide AsIntended;
    forall front: seq<string>, params: Params
      ensures !AsIntendedFrom(node, front, [s] + rest, verb, params)
    {
      assert front + ([s] + rest) == (front + [s]) + rest;
      assert !AsIntendedFrom(node.param.value, front + [s], rest, verb, params[node.paramName := s]);
      AsIntendedParam(node, front + ([s] + rest), |front|, verb, params);
    }
  }

  /** Where a wrong search of the literal child ends, the parameter child does not make it right. */
  lemma LiteralWrong(routes: seq<Route>, segments: seq<string>, i: nat, verb: Method, params: Params)
    requires i < |segments| && Distinct(routes) && Tails(routes, segments[i]) != []
    requires AsIntended(Build(routes), segments, i, verb, params)
    ensures AsIntended(Build(Tails(routes, segments[i])), segments, i + 1, verb, params)
  {
    var s, rest, node := segments[i], segments[i + 1..], Build(routes);
    BuildIs(routes);
    hide NodeIs, Build, MatchAt, Intended, Tails, ParamTails, FirstName, Registered, ByRoute, Distinct, Handles;
    NodeOf(routes, s);
    var child := node.children[s];
    var below, wanted := MatchAt(child, segments, i + 1, verb, params), Intended(child, rest, verb, params);
    FoundFrom(Tails(routes, s), segments, i + 1, verb, params);
    IntendedByTails(routes, s, rest, verb, params, params[node.paramName := s]);
    DistinctHandles(routes, s);
    IntendedStep(node, segments, i, verb, params);
    if !below.NotFound? {
      DescendFound(node, segments, i, verb, params);
    } else if wanted.Found? {
      if node.param.None? {
        DescendLiteral(node, segments, i, verb, params);
      } else {
        FallBackSkipsASegment(node, segments, i, verb, params);
        if i + 1 < |segments| {
          FoundFrom(ParamTails(routes), segments, i + 2, verb, below.params[node.paramName := s]);
        }
      }
    }
  }

  lemma IntendedStep(node: Node, segments: seq<string>, i: nat, verb: Method, params: Params)
    requires i < |segments| && segments[i] in node.children
    ensures var s, rest := segments[i], segments[i + 1..];
            var r, t := Intended(node, segments[i..], verb, params), Intended(node.children[s], rest, verb, params);
            if t.Found? then r == t
            else if node.param.Some? then r == Intended(node.param.value, rest, verb, params[node.paramName := s])
            else r.NotFound?
  {
    assert segments[i..][1..] == segments[i + 1..];
  }

  lemma IntendedByTails(routes: seq<Route>, s: string, rest: seq<string>, verb: Method, params: Params, bound: Params)
    ensures var r := Intended(Build(Tails(routes, s)), rest, verb, params);
            r.Found? ==> Handles(Tails(routes, s), r.handler)
    ensures var r := Intended(Build(ParamTails(routes)), rest, verb, bound);
            r.Found? ==> Handles(ParamTails(routes), r.handler)
  {
    hide Intended, Build, Tails, ParamTails, ByRoute, Handles, Registered;
    IntendedIsComplete(Tails(routes, s), rest, verb, params);
    var r := Intended(Build(Tails(routes, s)), rest, verb, params);
    if r.Found? {
      ByRouteHandles(Tails(routes, s), rest, verb, r.handler);
    }
    IntendedIsComplete(ParamTails(routes), rest, verb, bound);
    var t := Intended(Build(ParamTails(routes)), rest, verb, bound);
    if t.Found? {
      ByRouteHandles(ParamTails(routes), rest, verb, t.handler);
    }
  }

  lemma DistinctHandles(routes: seq<Route>, s: string)
    requires Distinct(routes)
    ensures forall h :: !(Handles(Tails(routes, s), h) && Handles(ParamTails(routes), h))
  {
    DistinctTails(routes, s);
    hide Tails, ParamTails;
  }

  lemma WrongAboveLiteral(routes: seq<Route>, s: string, rest: seq<string>, verb: Method)
    requires Distinct(routes) && Tails(routes, s) != [] && Wrong(Build(Tails(routes, s)), rest, verb)
    ensures Wrong(Build(routes), [s] + rest, verb)
  {
    hide AsIntended, Build, Tails, Distinct;
    forall front: seq<string>, params: Params
      ensures !AsIntendedFrom(Build(routes), front, [s] + rest, verb, params)
    {
      var all := front + ([s] + rest);
      assert all == (front + [s]) + rest;
      assert !AsIntendedFrom(Build(Tails(routes, s)), front + [s], rest, verb, params);
      if AsIntended(Build(routes), all, |front|, verb, params) {
        LiteralWrong(routes, all, |front|, verb, params);
      }
    }
  }

  /** A path the literal child does not match, and of whose rest the parameter child matches the whole or all but the
      first segment. */
  lemma WrongHere(routes: seq<Route>, s: string, rest: seq<string>, verb: Method)
    requires Distinct(routes) && Tails(routes, s) != [] && ParamTails(routes) != [] && rest != []
    requires LiteralsCover(Tails(routes, s), verb) && LiteralsCover(ParamTails(routes), verb)
    requires !Registered(Tails(routes, s), rest, verb)
    requires Registered(ParamTails(routes), rest, verb) || Registered(ParamTails(routes), rest[1..], verb)
    ensures Wrong(Build(routes), [s] + rest, verb)
  {
    hide NodeIs, Build, MatchAt, Intended, AsIntended, Tails, ParamTails, FirstName, Registered, Distinct, LiteralsCover;
    forall front: seq<string>, params: Params
      ensures !AsIntendedFrom(Build(routes), front, [s] + rest, verb, params)
    {
      var all := front + ([s] + rest);
      assert all[|front| + 1..] == rest && all[|front|] == s;
      WrongFrom(routes, all, |front|, verb, params);
    }
  }

  lemma WrongFrom(routes: seq<Route>, segments: seq<string>, i: nat, verb: Method, params: Params)
    requires i + 1 < |segments| && Distinct(routes)
    requires Tails(routes, segments[i]) != [] && ParamTails(routes) != []
    requires LiteralsCover(Tails(routes, segments[i]), verb) && LiteralsCover(ParamTails(routes), verb)
    requires !Registered(Tails(routes, segments[i]), segments[i + 1..], verb)
    requires Registered(ParamTails(routes), segments[i + 1..], verb)
             || Registered(ParamTails(routes), segments[i + 1..][1..], verb)
    ensures !AsIntended(Build(routes), segments, i, verb, params)
  {
    var s, rest, node := segments[i], segments[i + 1..], Build(routes);
    BuildIs(routes);
    hide NodeIs, Build, MatchAt, Intended, Tails, ParamTails, FirstName, Registered, ByRoute, Distinct, LiteralsCover;
    NodeOf(routes, s);
    var child, other := node.children[s], node.param.value;
    CoverRight(Tails(routes, s), segments, i + 1, verb, params);
    IntendedIsComplete(Tails(routes, s), rest, verb, params);
    FallBackSkipsASegment(node, segments, i, verb, params);
    var left := MatchAt(child, segments, i + 1, verb, params).params[node.paramName := s];
    CoverRight(ParamTails(routes), segments, i + 2, verb, left);
    assert segments[i + 2..] == rest[1..];
    IntendedIsComplete(ParamTails(routes), rest[1..], verb, left);
    IntendedIsComplete(ParamTails(routes), rest, verb, params[node.paramName := s]);
    IntendedStep(node, segments, i, verb, params);
    DistinctTails(routes, s);
    var wanted := Intended(other, rest, verb, params[node.paramName := s]);
    if wanted.Found? {
      OneLength(ParamTails(routes), rest, verb, wanted.handler);
    }
  }

  lemma OneLength(routes: seq<Route>, rest: seq<string>, verb: Method, handler: Handler)
    requires Distinct(routes) && rest != []
    ensures !(ByRoute(routes, rest, verb, handler) && ByRoute(routes, rest[1..], verb, handler))
  {
  }

  /** A path that a pattern matches: `text` at the places of parameters. */
  function Fill(pattern: seq<string>, text: string): seq<string>
  {
    if pattern == [] then []
    else [if IsParam(pattern[0]) then text else pattern[0]] + Fill(pattern[1..], text)
  }

  lemma {:induction false} FillIs(pattern: seq<string>, text: string)
    ensures |Fill(pattern, text)| == |pattern| && Matches(pattern, Fill(pattern, text))
    ensures forall k | 0 <= k < |pattern| :: Fill(pattern, text)[k] == if IsParam(pattern[k]) then text else pattern[k]
  {
    hide IsParam;
    if pattern != [] {
      FillIs(pattern[1..], text);
      MatchesCons(pattern, Fill(pattern, text));
    }
  }

  /** Patterns that match it, of shorter segments than the text, match whatever the pattern matches. */
  lemma FillCovers(t: seq<string>, pattern: seq<string>, text: string)
    requires Matches(t, Fill(pattern, text)) && forall k | 0 <= k < |t| :: |t[k]| < |text|
    ensures Covers(t, pattern)
  {
    FillIs(pattern, text);
    hide IsParam;
    forall k | 0 <= k < |t|
      ensures IsParam(t[k]) || t[k] == pattern[k]
    {
      assert Fits(t[k], Fill(pattern, text)[k]);
    }
  }

  lemma FillPlain(pattern: seq<string>, text: string)
    requires AllPlain(pattern) && Plain(text)
    ensures AllPlain(Fill(pattern, text))
  {
    FillIs(pattern, text);
    hide Plain, IsParam;
  }

  /** Unless routes cover a pattern, they do not match its path. */
  lemma NotRegistered(routes: seq<Route>, pattern: seq<string>, text: string, verb: Method)
    requires |text| >= Bound(routes) && !Covered(routes, [], pattern, verb)
    ensures !Registered(routes, Fill(pattern, text), verb)
  {
    hide Bound, Covers, Matches, Fill, IsParam;
    forall t | t in routes && t.verb == verb
      ensures !Matches(t.pattern, Fill(pattern, text))
    {
      BoundIs(routes, t);
      if Matches(t.pattern, Fill(pattern, text)) {
        FillCovers(t.pattern, pattern, text);
        assert t.pattern[0..] == t.pattern;
        NoShape(t.pattern, []);
        assert false;
      }
    }
  }

  /** Routes that part at the root, where the conditions fail, give a path that is searched wrong. */
  lemma PairWrong(routes: seq<Route>, r: Route, q: Route, verb: Method) returns (rest: seq<string>)
    requires r in routes && q in routes && Parting(r, q, 0) && PlainRoutes(routes) && Distinct(routes)
    requires LiteralsCover(Tails(routes, r.pattern[0]), verb) && LiteralsCover(ParamTails(routes), verb)
    requires !PairCovered(routes, r, q, 0, verb)
    ensures AllPlain(rest) && Wrong(Build(routes), rest, verb)
  {
    var s, x := r.pattern[0], q.pattern[1..];
    assert r.pattern[..1] == [s] && !IsParam(s);
    hide Build, Tails, ParamTails, Plain, Covered, Wrong, SameShape, LiteralsCover, Distinct, IsParam, Registered;
    assert s in r.pattern && Plain(s);
    InTails(routes, r, s);
    InTails(routes, q, s);
    PlainTails(routes, s);
    hide PlainRoutes;
    if !EndsAt(routes, [s], verb) {
      rest := [s];
      OpenHere(routes, s, verb);
    } else {
      var q1 := q.(pattern := x);
      assert q1 in ParamTails(routes);
      rest := BesideUncovered(routes, s, q1);
      WrongHere(routes, s, rest, verb);
      PlainCons(s, rest);
      rest := [s] + rest;
    }
  }

  lemma OpenHere(routes: seq<Route>, s: string, verb: Method)
    requires Tails(routes, s) != [] && ParamTails(routes) != [] && !EndsAt(routes, [s], verb)
    ensures Wrong(Build(routes), [s], verb)
  {
    hide NodeIs, Build, Tails, ParamTails, Covered, Overruns, Wrong, FirstName;
    BuildIs(routes);
    NodeOf(routes, s);
    TailMember(routes, s, Tails(routes, s)[0]);
    assert [s] == [s] + [];
    CoveredCons(routes, s, [], [], verb);
    NoHandler(Tails(routes, s), verb);
    OverrunsHere(Build(routes), s, verb);
    OverrunsWrong(Build(routes), [s], verb);
  }

  /** The path of a route through the parameter that those through the literal do not cover, or the path with one
      more segment. */
  lemma BesideUncovered(routes: seq<Route>, s: string, u: Route) returns (rest: seq<string>)
    requires Tails(routes, s) != [] && u in ParamTails(routes) && PlainRoutes(ParamTails(routes))
    requires EndsAt(routes, [s], u.verb)
    requires !Covered(routes, [s], u.pattern, u.verb) || !Covered(routes, [s], [":"] + u.pattern, u.verb)
    ensures rest != [] && AllPlain(rest) && !Registered(Tails(routes, s), rest, u.verb)
    ensures Registered(ParamTails(routes), rest, u.verb) || Registered(ParamTails(routes), rest[1..], u.verb)
  {
    var x, tails, n := u.pattern, Tails(routes, s), Bound(Tails(routes, s)) + 1;
    hide Tails, ParamTails, Bound, Plain, Covered, Registered, Matches, Fill;
    TailMember(routes, s, tails[0]);
    hide IsParam;
    assert [s] == [s] + [];
    CoveredCons(routes, s, [], x, u.verb);
    CoveredCons(routes, s, [], [":"] + x, u.verb);
    var text := Text(n);
    PlainText(n);
    FillIs(x, text);
    FillPlain(x, text);
    RegisteredBy(ParamTails(routes), u, Fill(x, text));
    if !Covered(routes, [s], x, u.verb) {
      rest := Fill(x, text);
      NotRegistered(tails, x, text, u.verb);
    } else {
      rest := [text] + Fill(x, text);
      FillColon(x, text);
      NotRegistered(tails, [":"] + x, text, u.verb);
      PlainCons(text, Fill(x, text));
      assert rest[1..] == Fill(x, text);
    }
  }

  lemma RegisteredBy(routes: seq<Route>, r: Route, segments: seq<string>)
    requires r in routes && Matches(r.pattern, segments)
    ensures Registered(routes, segments, r.verb)
  {
  }

  lemma FillColon(x: seq<string>, text: string)
    ensures Fill([":"] + x, text) == [text] + Fill(x, text)
  {
    assert ([":"] + x)[1..] == x;
  }

  lemma NotCover(routes: seq<Route>, verb: Method) returns (r: Route, q: Route, k: nat)
    requires !LiteralsCover(routes, verb)
    ensures r in routes && q in routes && Parting(r, q, k) && k < |r.pattern| && k < |q.pattern|
    ensures !PairCovered(routes, r, q, k, verb)
  {
    hide PairCovered, SameShape, IsParam;
    r, q, k :| r in routes && q in routes && k < |r.pattern| && Parting(r, q, k)
      && k < |q.pattern| && !PairCovered(routes, r, q, k, verb);
  }

  /** A table whose literals do not cover its parameters has a path that is searched wrong. */
  lemma {:induction false} NotCoverWrong(routes: seq<Route>, n: nat, verb: Method) returns (rest: seq<string>)
    requires PlainRoutes(routes) && Distinct(routes) && !LiteralsCover(routes, verb)
    requires forall r | r in routes :: |r.pattern| <= n
    ensures AllPlain(rest) && Wrong(Build(routes), rest, verb)
    decreases n
  {
    var r, q, k := NotCover(routes, verb);
    var s := r.pattern[0];
    BuildIs(routes);
    hide NodeIs, Build, Tails, ParamTails, LiteralsCover, Distinct, Wrong, IsParam, SameShape, PairCovered, Plain;
    PlainTails(routes, s);
    DistinctTails(routes, s);
    if !LiteralsCover(Tails(routes, s), verb) {
      TailsShort(routes, s, n);
      rest := NotCoverWrong(Tails(routes, s), n - 1, verb);
      SomeTail(routes, s, verb);
      WrongAboveLiteral(routes, s, rest, verb);
      PlainCons(s, rest);
      rest := [s] + rest;
    } else if !LiteralsCover(ParamTails(routes), verb) {
      ParamTailsShort(routes, n);
      rest := NotCoverWrong(ParamTails(routes), n - 1, verb);
      var text := Text(Bound(routes));
      BoundIs(routes, r);
      NoLiteral(routes);
      NodeOf(routes, text);
      SomeCover(verb);
      WrongAboveParam(Build(routes), text, rest, verb);
      PlainText(Bound(routes));
      PlainCons(text, rest);
      rest := [text] + rest;
    } else {
      if k > 0 {
        PartingTail(r, q, k);
        InTails(routes, r, s);
        InTails(routes, q, s);
        var tails := if IsParam(s) then ParamTails(routes) else Tails(routes, s);
        LiteralsCoverAt(tails, verb, r.(pattern := r.pattern[1..]), q.(pattern := q.pattern[1..]), k - 1);
        PairCons(routes, r, q, k - 1, verb);
        assert false;
      }
      rest := PairWrong(routes, r, q, verb);
    }
  }

  lemma SomeCover(verb: Method)
    ensures LiteralsCover([], verb)
  {
  }

  lemma SomeTail(routes: seq<Route>, s: string, verb: Method)
    requires !LiteralsCover(Tails(routes, s), verb) && PlainRoutes(routes)
    ensures Tails(routes, s) != [] && Plain(s)
  {
    hide LiteralsCover, Tails, Plain;
    SomeCover(verb);
    var t := Tails(routes, s)[0];
    TailMember(routes, s, t);
    assert s in ([s] + t.pattern);
  }

  lemma TailsShort(routes: seq<Route>, s: string, n: nat)
    requires forall r | r in routes :: |r.pattern| <= n
    ensures forall t | t in Tails(routes, s) :: |t.pattern| <= n - 1
  {
    hide Tails;
    forall t | t in Tails(routes, s)
      ensures |t.pattern| <= n - 1
    {
      TailMember(routes, s, t);
    }
  }

  lemma ParamTailsShort(routes: seq<Route>, n: nat)
    requires forall r | r in routes :: |r.pattern| <= n
    ensures forall t | t in ParamTails(routes) :: |t.pattern| <= n - 1
  {
    hide ParamTails;
    forall t | t in ParamTails(routes)
      ensures |t.pattern| <= n - 1
    {
      var p := ParamTailMember(routes, t);
    }
  }

  /** The answer to a path is that of the intended search. */
  predicate AnswersAsIntended(node: Node, path: string, verb: Method, params: Params)
    requires path != "" && path[0] == '/'
  {
    var r, t := Search(node, path, verb, params), Intended(node, Segments(path[1..]), verb, params);
    if t.Found? then r == t else r.NotFound?
  }

  lemma AnswerIs(node: Node, path: string, verb: Method, params: Params)
    requires path != "" && path[0] == '/'
    ensures AnswersAsIntended(node, path, verb, params) <==> AsIntended(node, Segments(path[1..]), 0, verb, params)
  {
    hide MatchAt, Intended, Segments;
    assert Segments(path[1..])[0..] == Segments(path[1..]);
  }

  ghost predicate SearchedAsIntended(routes: seq<Route>, verb: Method)
  {
    forall path, params | path != "" && path[0] == '/' :: AnswersAsIntended(Build(routes), path, verb, params)
  }

  /** The searches for a method are the intended ones for every path exactly when its routes through the literals of
      the table cover those through the parameters beside them. */
  lemma SearchedAsIntendedIff(routes: seq<Route>, verb: Method)
    requires PlainRoutes(routes) && Distinct(routes)
    ensures SearchedAsIntended(routes, verb) <==> LiteralsCover(routes, verb)
  {
    hide Build, AsIntended, AnswersAsIntended, Segments, PlainRoutes, AllPlain, Distinct, LiteralsCover;
    if LiteralsCover(routes, verb) {
      CoverSearches(routes, verb);
    } else {
      forall r | r in routes
        ensures |r.pattern| <= Bound(routes)
      {
        BoundIs(routes, r);
      }
      var rest := NotCoverWrong(routes, Bound(routes), verb);
      SegmentsInvertJoined(rest);
      assert [] + rest == rest;
      assert !AsIntendedFrom(Build(routes), [], rest, verb, map[]);
      var path := "/" + Joined(rest);
      assert path[1..] == Joined(rest);
      AnswerIs(Build(routes), path, verb, map[]);
      assert !AnswersAsIntended(Build(routes), path, verb, map[]);
    }
  }

  lemma CoverSearches(routes: seq<Route>, verb: Method)
    requires LiteralsCover(routes, verb)
    ensures SearchedAsIntended(routes, verb)
  {
    hide Build, AsIntended, AnswersAsIntended, Segments, LiteralsCover;
    forall path, params | path != "" && path[0] == '/'
      ensures AnswersAsIntended(Build(routes), path, verb, params)
    {
      CoverRight(routes, Segments(path[1..]), 0, verb, params);
      AnswerIs(Build(routes), path, verb, params);
    }
  }

  /** The same registrations with other handlers. */
  predicate SamePatterns(a: seq<Route>, b: seq<Route>)
  {
    |a| == |b| && forall i | 0 <= i < |a| :: a[i].verb == b[i].verb && a[i].pattern == b[i].pattern
  }

  lemma SameCovered(a: seq<Route>, b: seq<Route>, place: seq<string>, rest: seq<string>, verb: Method)
    requires SamePatterns(a, b) && Covered(a, place, rest, verb)
    ensures Covered(b, place, rest, verb)
  {
    hide Beneath;
    var t :| t in a && t.verb == verb && Beneath(t.pattern, place, rest);
    var i :| 0 <= i < |a| && a[i] == t;
    assert b[i] in b && b[i].pattern == t.pattern;
  }

  lemma SameCover(a: seq<Route>, b: seq<Route>, verb: Method)
    requires SamePatterns(a, b) && LiteralsCover(a, verb)
    ensures LiteralsCover(b, verb)
  {
    hide Covered, LiteralsCover, SameShape, IsParam;
    forall r, q, k: nat | r in b && q in b && Parting(r, q, k)
      ensures k < |r.pattern| && k < |q.pattern| && PairCovered(b, r, q, k, verb)
    {
      var i :| 0 <= i < |b| && b[i] == r;
      var j :| 0 <= j < |b| && b[j] == q;
      assert a[i] in a && a[j] in a && Parting(a[i], a[j], k);
      LiteralsCoverAt(a, verb, a[i], a[j], k);
      var place, rest := r.pattern[..k + 1], q.pattern[k + 1..];
      SameCovered(a, b, place, [], verb);
      if q.verb == verb {
        SameCovered(a, b, place, rest, verb);
        SameCovered(a, b, place, [":"] + rest, verb);
      }
    }
    LiteralsCoverIf(b, verb);
  }

  /** A handler of its own for each registration. */
  function Numbered(routes: seq<Route>): (b: seq<Route>)
    ensures SamePatterns(routes, b) && Distinct(b)
  {
    seq(|routes|, i requires 0 <= i < |routes| => routes[i].(handler := i))
  }

  /** And whatever handlers are registered, exactly under that condition. */
  lemma WhateverHandlersIff(routes: seq<Route>, verb: Method)
    requires PlainRoutes(routes)
    ensures (forall b | SamePatterns(routes, b) :: SearchedAsIntended(b, verb)) <==> LiteralsCover(routes, verb)
  {
    hide LiteralsCover, SearchedAsIntended, Distinct, AllPlain;
    if LiteralsCover(routes, verb) {
      forall b | SamePatterns(routes, b)
        ensures SearchedAsIntended(b, verb)
      {
        SameCover(routes, b, verb);
        CoverSearches(b, verb);
      }
    } else {
      var b := Numbered(routes);
      forall r | r in b
        ensures AllPlain(r.pattern)
      {
        var i :| 0 <= i < |b| && b[i] == r;
        assert routes[i] in routes;
      }
      SearchedAsIntendedIff(b, verb);
      if LiteralsCover(b, verb) {
        SameCover(b, routes, verb);
        assert false;
      }
    }
  }

  predicate Unused(routes: seq<Route>, verb: Method)
  {
    forall r | r in routes :: r.verb != verb
  }

  /** For a method that no route uses, exactly the clear tables are searched within every path. */
  lemma UnusedStaysWithinIffClear(routes: seq<Route>, verb: Method)
    requires PlainRoutes(routes) && Unused(routes, verb)
    ensures StaysWithin(routes, verb) <==> Clear(routes)
  {
    hide StaysWithin, Clear, Parting, PlainRoutes;
    StaysWithinIff(routes, verb);
    if Clear(routes) {
      NoParting(routes);
    } else {
      var r, q, k := NotClear(routes);
      assert k < |r.pattern| by {
        PartingFits(r, q, k);
      }
      assert !EndsAt(routes, r.pattern[..k + 1], verb);
    }
  }

  lemma PartingFits(r: Route, q: Route, k: nat)
    requires Parting(r, q, k)
    ensures k < |r.pattern|
  {
  }

  /** Every answer is that of the list of routes. */
  ghost predicate AnswersRight(routes: seq<Route>)
  {
    forall verb: Method, path, params | path != "" && path[0] == '/' ::
      Agrees(Search(Build(routes), path, verb, params), routes, Segments(path[1..]), verb, params)
  }

  /** Where some method has no route, every answer for every method and path is right exactly when the table is
      clear. */
  lemma AnswersRightIffClear(routes: seq<Route>, unused: Method)
    requires PlainRoutes(routes) && Unused(routes, unused)
    ensures AnswersRight(routes) <==> Clear(routes)
  {
    hide Build, MatchAt, Segments, PlainRoutes, Clear, Unused, Bind, LastMatch;
    if Clear(routes) {
      hide Agrees;
      forall verb: Method, path, params | path != "" && path[0] == '/'
        ensures Agrees(Search(Build(routes), path, verb, params), routes, Segments(path[1..]), verb, params)
      {
        var wanted := Segments(path[1..]);
        assert wanted[0..] == wanted;
        MatchIs(routes, wanted, 0, verb, params);
      }
    } else {
      UnusedStaysWithinIffClear(routes, unused);
      var path, params :| Search(Build(routes), path, unused, params) == OutOfRange;
      assert !Agrees(OutOfRange, routes, Segments(path[1..]), unused, params);
    }
  }

  /** The searches for a method can be right on a table that is not clear: `/s`, `/s/:z` and `/:p`. */
  lemma NotClearYetRight()
    ensures var routes := [Route(GET, ["s"], 1), Route(GET, ["s", ":z"], 2), Route(GET, [":p"], 3)];
            !Clear(routes) && SearchedAsIntended(routes, GET)
  {
    var r, t, q := Route(GET, ["s"], 1), Route(GET, ["s", ":z"], 2), Route(GET, [":p"], 3);
    var routes := [r, t, q];
    ThreeRoutes(r, t, q);
    if Clear(routes) {
      hide Clear;
      NoParting(routes);
      assert false;
    }
    hide Covered, LiteralsCover, EndsAt, SearchedAsIntended, Parting, Clear;
    forall u, v, k: nat | u in routes && v in routes && Parting(u, v, k)
      ensures k < |u.pattern| && k < |v.pattern| && PairCovered(routes, u, v, k, GET)
    {
      ThreePartings(r, t, q, u, v, k);
      assert [":"] + [] == [":"];
    }
    LiteralsCoverIf(routes, GET);
    CoverSearches(routes, GET);
  }

  lemma ThreePartings(r: Route, t: Route, q: Route, u: Route, v: Route, k: nat)
    requires r == Route(GET, ["s"], 1) && t == Route(GET, ["s", ":z"], 2) && q == Route(GET, [":p"], 3)
    requires u in [r, t, q] && v in [r, t, q] && Parting(u, v, k)
    ensures k == 0 < |u.pattern| && 0 < |v.pattern| && u.pattern[..1] == ["s"] && v.pattern[1..] == []
  {
    hide SameShape;
    assert v == q;
    assert u != q;
  }

  lemma ThreeRoutes(r: Route, t: Route, q: Route)
    requires r == Route(GET, ["s"], 1) && t == Route(GET, ["s", ":z"], 2) && q == Route(GET, [":p"], 3)
    ensures Parting(r, q, 0) && EndsAt([r, t, q], ["s"], GET)
    ensures Covered([r, t, q], ["s"], [], GET) && Covered([r, t, q], ["s"], [":"], GET)
  {
    assert t.pattern[..1] == ["s"] && t.pattern[1..] == [":z"] && r.pattern[..1] == ["s"] && r.pattern[1..] == [];
    assert Beneath(r.pattern, ["s"], []) && Beneath(t.pattern, ["s"], [":"]);
    assert r in [r, t, q] && t in [r, t, q];
  }

  /** `/a/x` and `/:p` answer `/a/y`, which no pattern matches, with the handler of `/:p`. */
  lemma FallBackFindsWrongRoute()
    ensures var routes := [Route(GET, ["a", "x"], 1), Route(GET, [":p"], 2)];
            && !Registered(routes, ["a", "y"], GET)
            && MatchAt(Build(routes), ["a", "y"], 0, GET, map[]) == Found(2, map["p" := "a"])
  {
    var routes := [Route(GET, ["a", "x"], 1), Route(GET, [":p"], 2)];
    var node := TwoLevels(["a", "x"], [":p"]);
    var a, p := node.children["a"], node.param.value;
    assert MatchAt(a, ["a", "y"], 1, GET, map[]) == NotFound(map[]);
    assert MatchAt(p, ["a", "y"], 2, GET, map["p" := "a"]) == Found(2, map["p" := "a"]);
    forall r | r in routes
      ensures !Matches(r.pattern, ["a", "y"])
    {
      assert r.pattern == ["a", "x"] ==> !Fits(r.pattern[1], "y");
    }
  }

  /** `/a/x` and `/:p/y` do not find `/a/y`, which the second one matches. */
  lemma FallBackMissesRoute()
    ensures var routes := [Route(GET, ["a", "x"], 1), Route(GET, [":p", "y"], 2)];
            && Registered(routes, ["a", "y"], GET)
            && MatchAt(Build(routes), ["a", "y"], 0, GET, map[]).NotFound?
  {
    var routes := [Route(GET, ["a", "x"], 1), Route(GET, [":p", "y"], 2)];
    var node := TwoLevels(["a", "x"], [":p", "y"]);
    var a, p := node.children["a"], node.param.value;
    assert MatchAt(a, ["a", "y"], 1, GET, map[]) == NotFound(map[]);
    assert MatchAt(p, ["a", "y"], 2, GET, map["p" := "a"]).NotFound?;
    assert routes[1] in routes && Matches([":p", "y"], ["a", "y"]);
  }

  /** `/a/x` and `/:p` read past the end of `/a`. */
  lemma FallBackOverruns()
    ensures var routes := [Route(GET, ["a", "x"], 1), Route(GET, [":p"], 2)];
            && Registered(routes, ["a"], GET)
            && MatchAt(Build(routes), ["a"], 0, GET, map[]) == OutOfRange
  {
    var routes := [Route(GET, ["a", "x"], 1), Route(GET, [":p"], 2)];
    var node := TwoLevels(["a", "x"], [":p"]);
    FallBackSkipsASegment(node, ["a"], 0, GET, map[]);
    assert routes[1] in routes && Matches([":p"], ["a"]);
  }

  /** The trie of a literal pattern of two segments and a pattern that starts with a parameter. */
  lemma TwoLevels(literal: seq<string>, other: seq<string>) returns (node: Node)
    requires |literal| == 2 && !IsParam(literal[0]) && !IsParam(literal[1])
    requires 1 <= |other| <= 2 && IsParam(other[0]) && (|other| == 2 ==> !IsParam(other[1]))
    ensures node == Build([Route(GET, literal, 1), Route(GET, other, 2)])
    ensures node.children.Keys == {literal[0]} && node.param.Some? && node.paramName == other[0][1..]
    ensures var a := node.children[literal[0]];
            a.children.Keys == {literal[1]} && a.param.None? && a.handlers == map[]
    ensures var p := node.param.value;
            p.param.None?
            && (if |other| == 1 then p.handlers == map[GET := 2] && p.children == map[]
                else p.handlers == map[] && p.children.Keys == {other[1]})
  {
    hide IsParam;
    var r, q := Route(GET, literal, 1), Route(GET, other, 2);
    BuildNothing();
    assert [r] == [] + [r] && [r, q] == [r] + [q];
    BuildAppend([], r);
    BuildAppend([r], q);
    node := Build([r, q]);
    assert AddAt(Leaf(), literal[1..], GET, 1) == Leaf().(children := map[literal[1] := AddAt(Leaf(), [], GET, 1)]);
    if |other| == 2 {
      assert AddAt(Leaf(), other[1..], GET, 2) == Leaf().(children := map[other[1] := AddAt(Leaf(), [], GET, 2)]);
    } else {
      assert other[1..] == [];
    }
  }
}
