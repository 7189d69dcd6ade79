/** The router filter (internal/httpcm/router.go): first matching prefix, and the path rewrite. */
module Router {
  import opened Prelude
  import opened Http

  datatype Route = Route(prefix: string, cluster: string, stripPrefix: bool, prefixRewrite: string)

  /** The fields of the request context the router sets. */
  datatype Target = Target(cluster: string, routeId: int, rewrite: string)

  predicate Matches(r: Route, path: string) {
    r.prefix <= path
  }

  /** The first route at or after `i` that matches. */
  function FirstMatch(routes: seq<Route>, path: string, i: nat): (m: Option<nat>)
    requires i <= |routes|
    ensures m.Some? ==> i <= m.value < |routes| && routes[m.value].prefix <= path
    ensures m.Some? ==> forall k :: i <= k < m.value ==> !(routes[k].prefix <= path)
    ensures m.None? ==> forall k :: i <= k < |routes| ==> !(routes[k].prefix <= path)
    decreases |routes| - i
  {
    if i == |routes| then None
    else if Matches(routes[i], path) then Some(i) else FirstMatch(routes, path, i + 1)
  }

  /** The cluster of the first catch-all route among the first `n`. */
  function CatchAll(routes: seq<Route>, n: nat): (cluster: string)
    requires n <= |routes|
  {
    if n == 0 then ""
    else if CatchAll(routes, n - 1) != "" then CatchAll(routes, n - 1)
    else if routes[n - 1].prefix == "/" then routes[n - 1].cluster else ""
  }

  /** What follows the matched prefix, made to start with a slash. */
  function Remainder(path: string, prefix: string): (rest: string)
    requires prefix <= path
  {
    var rest := path[|prefix|..];
    if rest == "" then "/" else if rest[0] == '/' then rest else "/" + rest
  }

  function Rewrite(r: Route, path: string): (rewrite: string)
    requires Matches(r, path)
  {
    var rest := Remainder(path, r.prefix);
    if r.prefixRewrite != "" then
      var base := if r.prefixRewrite[0] == '/' then r.prefixRewrite else "/" + r.prefixRewrite;
      if base[|base| - 1] == '/' then base[..|base| - 1] + rest else base + rest
    else if r.stripPrefix then rest
    else ""
  }

  /** Where the router sends a path that arrives with target `was`. */
  function Routed(routes: seq<Route>, path: string, was: Target): (t: Target) {
    match FirstMatch(routes, path, 0)
    case Some(m) =>
      var rw := Rewrite(routes[m], path);
      Target(routes[m].cluster, m, if rw == "" then was.rewrite else rw)
    case None => if was.cluster == "" then was.(cluster := CatchAll(routes, |routes|)) else was
  }

  function View(rc: RequestCtx): (v: Target)
    reads rc
  {
    Target(rc.upstreamCluster, rc.routeId, rc.rewritePath)
  }

  /** The rewritten path, empty when the route leaves the path alone. */
  method RewritePath(rr: Route, path: string) returns (rewrite: string)
    requires Matches(rr, path)
    ensures rewrite == Rewrite(rr, path)
  {
    var remainder := path[|rr.prefix|..];
    if remainder == "" {
      remainder := "/";
    } else if remainder[0] != '/' {
      remainder := "/" + remainder;
    }
    if rr.prefixRewrite != "" {
      var base := rr.prefixRewrite;
      if base[0] != '/' {
        base := "/" + base;
      }
      rewrite := if base[|base| - 1] == '/' then base[..|base| - 1] + remainder else base + remainder;
    } else {
      rewrite := if rr.stripPrefix then remainder else "";
    }
  }

  method OnRequest(routes: seq<Route>, path: string, rc: RequestCtx)
    modifies rc`upstreamCluster, rc`routeId, rc`rewritePath
    ensures View(rc) == Routed(routes, path, old(View(rc)))
  {
    hide Rewrite;
    for i := 0 to |routes|
      invariant FirstMatch(routes, path, 0) == FirstMatch(routes, path, i)
      invariant rc.routeId == old(rc.routeId) && rc.rewritePath == old(rc.rewritePath)
      invariant rc.upstreamCluster ==
                if old(rc.upstreamCluster) == "" then CatchAll(routes, i) else old(rc.upstreamCluster)
    {
      var rr := routes[i];
      if rr.prefix == "/" && rr.cluster != "" && rc.upstreamCluster == "" {
        rc.upstreamCluster := rr.cluster;
      }
      if rr.prefix <= path {
        rc.upstreamCluster, rc.routeId := rr.cluster, i;
        var rewrite := RewritePath(rr, path);
        if rewrite != "" {
          rc.rewritePath := rewrite;
        }
        return;
      }
    }
  }

  // ----- First match against longest match -----

  /** The match the documentation promises: no matching prefix is longer. */
  predicate LongestMatch(routes: seq<Route>, path: string, m: nat) {
    && m < |routes| && Matches(routes[m], path)
    && forall k :: 0 <= k < |routes| && Matches(routes[k], path) ==> |routes[k].prefix| <= |routes[m].prefix|
  }

  /** A prefix that could shadow a longer one comes after it, or the longer one was already listed before. */
  predicate Ordered(routes: seq<Route>) {
    forall i, j :: 0 <= i < j < |routes| && routes[i].prefix < routes[j].prefix ==>
      exists f :: 0 <= f < i && routes[f].prefix == routes[j].prefix
  }

  predicate RoutesByLength(routes: seq<Route>, path: string) {
    var m := FirstMatch(routes, path, 0);
    m.Some? ==> LongestMatch(routes, path, m.value)
  }

  /** First match is longest match on every path exactly for ordered tables. */
  lemma LongestExactlyWhenOrdered(routes: seq<Route>)
    ensures (forall path :: RoutesByLength(routes, path)) <==> Ordered(routes)
  {
    if Ordered(routes) {
      forall path ensures RoutesByLength(routes, path) {
        OrderedRoutesByLength(routes, path);
      }
    } else {
      var i, j :| 0 <= i < j < |routes| && routes[i].prefix < routes[j].prefix
                  && forall f :: 0 <= f < i ==> routes[f].prefix != routes[j].prefix;
      Shadowed(routes, i, j);
    }
  }

  lemma OrderedRoutesByLength(routes: seq<Route>, path: string)
    requires Ordered(routes)
    ensures RoutesByLength(routes, path)
  {
    var m := FirstMatch(routes, path, 0);
    if m.Some? {
      forall k | 0 <= k < |routes| && Matches(routes[k], path)
        ensures |routes[k].prefix| <= |routes[m.value].prefix|
      {
        if |routes[k].prefix| > |routes[m.value].prefix| {
          PrefixesNest(routes[m.value].prefix, routes[k].prefix, path);
        }
      }
    }
  }

  lemma PrefixesNest(a: string, b: string, path: string)
    requires a <= path && b <= path && |a| < |b|
    ensures a < b
  {
    assert a == path[..|a|] && b == path[..|b|];
  }

  lemma Shadowed(routes: seq<Route>, i: nat, j: nat)
    requires i < j < |routes| && routes[i].prefix < routes[j].prefix
    requires forall f :: 0 <= f < i ==> routes[f].prefix != routes[j].prefix
    ensures !RoutesByLength(routes, routes[j].prefix)
  {
    var path := routes[j].prefix;
    assert Matches(routes[i], path) && Matches(routes[j], path);
    var m := FirstMatch(routes, path, 0).value;
    assert m <= i && routes[m].prefix <= path && routes[m].prefix != path;
    assert |routes[m].prefix| < |path|;
  }

  // ----- Rewrites -----

  /** A rewrite is absent or an absolute path, and present exactly when the route asks for one. */
  lemma RewriteIsAbsolute(r: Route, path: string)
    requires Matches(r, path)
    ensures Rewrite(r, path) != "" <==> r.prefixRewrite != "" || r.stripPrefix
    ensures Rewrite(r, path) != "" ==> Rewrite(r, path)[0] == '/'
  {
  }

  /** A prefix that starts with a slash and does not end with one. */
  predicate Segment(p: string) {
    |p| >= 2 && p[0] == '/' && p[|p| - 1] != '/'
  }

  function Swap(a: string, b: string): (r: Route) {
    Route(a, "c", false, b)
  }

  lemma SwapResult(a: string, b: string, rest: string)
    requires Segment(a) && Segment(b)
    ensures a <= a + rest
    ensures Rewrite(Swap(a, b), a + rest) == b + (if rest == "" then "/" else if rest[0] == '/' then rest else "/" + rest)
  {
    assert (a + rest)[|a|..] == rest;
  }

  /** Rewriting one segment to another and back restores the path exactly when what follows starts with a slash. */
  lemma SwapRoundTrip(a: string, b: string, rest: string)
    requires Segment(a) && Segment(b)
    ensures a <= a + rest && b <= Rewrite(Swap(a, b), a + rest)
    ensures Rewrite(Swap(b, a), Rewrite(Swap(a, b), a + rest)) == a + rest <==> rest != "" && rest[0] == '/'
  {
    var fixed := if rest == "" then "/" else if rest[0] == '/' then rest else "/" + rest;
    SwapResult(a, b, rest);
    SwapResult(b, a, fixed);
    assert fixed[0] == '/';
    if rest == "" || rest[0] != '/' {
      assert |a + fixed| != |a + rest|;
    }
  }

  // ----- Where a path goes, in full -----

  /** The catch-all default is the cluster of the first route for "/" that names one. */
  lemma {:induction false} CatchAllExactly(routes: seq<Route>, n: nat, k: nat)
    requires n <= |routes|
    ensures (forall i :: 0 <= i < n ==> routes[i].prefix != "/" || routes[i].cluster == "") ==> CatchAll(routes, n) == ""
    ensures && k < n && routes[k].prefix == "/" && routes[k].cluster != ""
            && (forall i :: 0 <= i < k ==> routes[i].prefix != "/" || routes[i].cluster == "") ==>
              CatchAll(routes, n) == routes[k].cluster
  {
    if n > 0 {
      CatchAllExactly(routes, n - 1, k);
    }
  }

  /** What follows the prefix, from its slash on; a slash is supplied when it is missing. */
  predicate Tail(rest: string, tail: string) {
    if rest == "" then tail == "/" else if rest[0] == '/' then tail == rest else tail == "/" + rest
  }

  /** A prefix made to start with a slash. */
  predicate Absolute(p: string, abs: string)
    requires p != ""
  {
    abs == if p[..1] == "/" then p else "/" + p
  }

  /** The rewrite: none without an option; the tail alone when the prefix is stripped; else the configured prefix, made
      to start with a slash and less one final slash, and the tail. */
  lemma RewriteExactly(r: Route, rest: string, tail: string, abs: string)
    requires Tail(rest, tail) && (r.prefixRewrite != "" ==> Absolute(r.prefixRewrite, abs))
    ensures r.prefix <= r.prefix + rest
    ensures r.prefixRewrite == "" ==> Rewrite(r, r.prefix + rest) == if r.stripPrefix then tail else ""
    ensures r.prefixRewrite != "" ==>
              && |abs| > 0
              && Rewrite(r, r.prefix + rest) == (if abs[|abs| - 1] == '/' then abs[..|abs| - 1] else abs) + tail
  {
    assert (r.prefix + rest)[|r.prefix|..] == rest;
    assert Remainder(r.prefix + rest, r.prefix) == tail;
    assert r.prefixRewrite != "" ==> r.prefixRewrite[..1] == [r.prefixRewrite[0]];
  }

  /** The first match decides cluster and route, and the rewrite if there is one; without a match an unset cluster becomes
      the catch-all default, and all else stays. */
  lemma RoutedExactly(routes: seq<Route>, path: string, was: Target, m: nat)
    ensures && m < |routes| && routes[m].prefix <= path && (forall k :: 0 <= k < m ==> !(routes[k].prefix <= path)) ==>
              var t := Routed(routes, path, was);
              && t.cluster == routes[m].cluster && t.routeId == m
              && t.rewrite == if Rewrite(routes[m], path) == "" then was.rewrite else Rewrite(routes[m], path)
    ensures (forall k :: 0 <= k < |routes| ==> !(routes[k].prefix <= path)) ==>
              Routed(routes, path, was) ==
              if was.cluster != "" then was else was.(cluster := CatchAll(routes, |routes|))
  {
    hide Rewrite, CatchAll;
  }
}
