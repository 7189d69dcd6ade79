/** The cluster and route checks of Validate (internal/config/validate.go), and what they buy the data plane. */
module Validate {
  import opened Prelude
  import Http
  import Router
  import Discovery
  import Interleaving
  import Safety
  import Leaks

  /** An endpoint text as net.SplitHostPort reads it; `ip` is the canonical host:port when the host is an IP literal. */
  datatype HostPort = HostPort(host: string, port: string, ip: Option<string>)
  datatype Endpoint = Endpoint(text: string, split: Option<HostPort>)

  datatype Breaker = Breaker(maxRequests: int, maxPending: int, perEndpoint: int)
  datatype ClusterSpec = ClusterSpec(
    name: string, endpoints: seq<Endpoint>, strictDns: bool, lbPolicy: string, breaker: Option<Breaker>)
  datatype Config = Config(clusters: seq<ClusterSpec>, routes: seq<Router.Route>)

  datatype ClusterFault = EmptyName | DuplicateName | NoEndpoints | BadEndpoint(k: nat) | BadPolicy | NegativeLimit
  datatype RouteFault = EmptyPrefix | EmptyTarget | UnknownTarget
  datatype Verdict = Accepted | BadCluster(i: nat, why: ClusterFault) | BadRoute(j: nat, how: RouteFault)

  // ----- What a sound configuration is -----

  predicate GoodEndpoint(e: Endpoint) {
    e.split.Some? && e.split.value.host != "" && e.split.value.port != ""
  }

  predicate GoodEndpoints(eps: seq<Endpoint>) {
    forall k :: 0 <= k < |eps| ==> GoodEndpoint(eps[k])
  }

  predicate GoodPolicy(p: string) {
    Http.Lower(p) in {"", "round_robin", "random", "least_requests"}
  }

  predicate GoodBreaker(b: Option<Breaker>) {
    b.Some? ==> b.value.maxRequests >= 0 && b.value.maxPending >= 0 && b.value.perEndpoint >= 0
  }

  predicate Named(cs: seq<ClusterSpec>, name: string) {
    exists i :: 0 <= i < |cs| && cs[i].name == name
  }

  predicate GoodCluster(c: ClusterSpec) {
    && c.name != "" && c.endpoints != [] && GoodEndpoints(c.endpoints)
    && GoodPolicy(c.lbPolicy) && GoodBreaker(c.breaker)
  }

  predicate GoodClusters(cs: seq<ClusterSpec>) {
    && (forall i :: 0 <= i < |cs| ==> GoodCluster(cs[i]))
    && (forall i, j :: 0 <= i < j < |cs| ==> cs[i].name != cs[j].name)
  }

  predicate GoodRoute(cs: seq<ClusterSpec>, r: Router.Route) {
    r.prefix != "" && r.cluster != "" && Named(cs, r.cluster)
  }

  predicate Sound(cfg: Config) {
    GoodClusters(cfg.clusters) && forall j :: 0 <= j < |cfg.routes| ==> GoodRoute(cfg.clusters, cfg.routes[j])
  }

  // ----- The first failure -----

  /** The fault is there and none that is looked for earlier is. `before` are the clusters listed earlier. */
  predicate Faulty(before: seq<ClusterSpec>, c: ClusterSpec, f: ClusterFault) {
    match f
    case EmptyName => c.name == ""
    case DuplicateName => c.name != "" && Named(before, c.name)
    case NoEndpoints => Fresh(before, c) && c.endpoints == []
    case BadEndpoint(k) =>
      Fresh(before, c) && k < |c.endpoints| && !GoodEndpoint(c.endpoints[k]) && GoodEndpoints(c.endpoints[..k])
    case BadPolicy => Fresh(before, c) && Reachable(c) && !GoodPolicy(c.lbPolicy)
    case NegativeLimit => Fresh(before, c) && Reachable(c) && GoodPolicy(c.lbPolicy) && !GoodBreaker(c.breaker)
  }

  predicate Fresh(before: seq<ClusterSpec>, c: ClusterSpec) {
    c.name != "" && !Named(before, c.name)
  }

  predicate Reachable(c: ClusterSpec) {
    c.endpoints != [] && GoodEndpoints(c.endpoints)
  }

  predicate Misrouted(cs: seq<ClusterSpec>, r: Router.Route, f: RouteFault) {
    match f
    case EmptyPrefix => r.prefix == ""
    case EmptyTarget => r.prefix != "" && r.cluster == ""
    case UnknownTarget => r.prefix != "" && r.cluster != "" && !Named(cs, r.cluster)
  }

  /** The verdict is the first failure in the order clusters, then routes, or there is none. */
  predicate Justified(cfg: Config, v: Verdict) {
    match v
    case Accepted => Sound(cfg)
    case BadCluster(i, why) =>
      && i < |cfg.clusters| && GoodClusters(cfg.clusters[..i])
      && Faulty(cfg.clusters[..i], cfg.clusters[i], why)
    case BadRoute(j, how) =>
      && j < |cfg.routes| && GoodClusters(cfg.clusters)
      && (forall k :: 0 <= k < j ==> GoodRoute(cfg.clusters, cfg.routes[k]))
      && Misrouted(cfg.clusters, cfg.routes[j], how)
  }

  lemma GoodPrefix(cs: seq<ClusterSpec>, i: nat)
    requires i < |cs|
    ensures GoodClusters(cs[..i + 1]) <==> GoodClusters(cs[..i]) && GoodCluster(cs[i]) && !Named(cs[..i], cs[i].name)
    ensures forall n :: Named(cs[..i + 1], n) <==> Named(cs[..i], n) || n == cs[i].name
  {
    var next := cs[..i + 1];
    assert next == cs[..i] + [cs[i]];
    forall n ensures Named(next, n) <==> Named(cs[..i], n) || n == cs[i].name {
      if n == cs[i].name {
        assert next[i].name == n;
      }
      if k :| 0 <= k < i && cs[..i][k].name == n {
        assert next[k].name == n;
      }
    }
  }

  lemma {:induction false} GoodRest(cs: seq<ClusterSpec>, i: nat, n: nat)
    requires i <= n <= |cs| && GoodClusters(cs[..n])
    ensures GoodClusters(cs[..i])
  {
  }

  /** A faulty item spoils every longer prefix. */
  lemma FaultSpoils(cs: seq<ClusterSpec>, i: nat, f: ClusterFault, n: nat)
    requires i < n <= |cs| && Faulty(cs[..i], cs[i], f)
    ensures !GoodClusters(cs[..n])
  {
    if GoodClusters(cs[..n]) {
      GoodRest(cs, i + 1, n);
      GoodPrefix(cs, i);
    }
  }

  lemma OneFault(before: seq<ClusterSpec>, c: ClusterSpec, f: ClusterFault, g: ClusterFault)
    requires Faulty(before, c, f) && Faulty(before, c, g)
    ensures f == g
  {
  }

  /** Only one verdict is justified, and a rejection is justified only when the configuration is unsound. */
  lemma OneVerdict(cfg: Config, u: Verdict, v: Verdict)
    requires Justified(cfg, u) && Justified(cfg, v)
    ensures u == v && (u.Accepted? <==> Sound(cfg))
  {
    hide Faulty, GoodClusters;
    var cs := cfg.clusters;
    assert cs[..|cs|] == cs;
    if u.BadCluster? {
      FaultSpoils(cs, u.i, u.why, |cs|);
      assert v.BadCluster?;
      if u.i < v.i {
        FaultSpoils(cs, u.i, u.why, v.i);
      } else if v.i < u.i {
        FaultSpoils(cs, v.i, v.why, u.i);
      } else {
        OneFault(cs[..u.i], cs[u.i], u.why, v.why);
      }
    } else if v.BadCluster? {
      FaultSpoils(cs, v.i, v.why, |cs|);
    } else if u.BadRoute? && v.BadRoute? {
      assert u.j == v.j;
    }
  }

  // ----- The check -----

  method FirstBad(eps: seq<Endpoint>) returns (k: nat)
    ensures k <= |eps| && GoodEndpoints(eps[..k])
    ensures k < |eps| ==> !GoodEndpoint(eps[k])
  {
    k := 0;
    while k < |eps|
      invariant k <= |eps| && forall j :: 0 <= j < k ==> GoodEndpoint(eps[j])
    {
      if !GoodEndpoint(eps[k]) {
        return;
      }
      k := k + 1;
    }
  }

  method CheckCluster(ghost before: seq<ClusterSpec>, seen: set<string>, c: ClusterSpec)
      returns (fault: Option<ClusterFault>)
    requires forall n :: n in seen <==> Named(before, n)
    ensures fault.Some? ==> Faulty(before, c, fault.value)
    ensures fault.None? ==> GoodCluster(c) && !Named(before, c.name)
  {
    if c.name == "" {
      return Some(EmptyName);
    }
    if c.name in seen {
      return Some(DuplicateName);
    }
    if |c.endpoints| == 0 {
      return Some(NoEndpoints);
    }
    var k := FirstBad(c.endpoints);
    if k < |c.endpoints| {
      return Some(BadEndpoint(k));
    }
    assert c.endpoints[..k] == c.endpoints;
    if !GoodPolicy(c.lbPolicy) {
      return Some(BadPolicy);
    }
    if c.breaker.Some? {
      var b := c.breaker.value;
      if b.maxRequests < 0 || b.maxPending < 0 || b.perEndpoint < 0 {
        return Some(NegativeLimit);
      }
    }
    return None;
  }

  method CheckRoute(ghost cs: seq<ClusterSpec>, seen: set<string>, r: Router.Route) returns (fault: Option<RouteFault>)
    requires forall n :: n in seen <==> Named(cs, n)
    ensures fault.Some? ==> Misrouted(cs, r, fault.value)
    ensures fault.None? ==> GoodRoute(cs, r)
  {
    if r.prefix == "" {
      return Some(EmptyPrefix);
    }
    if r.cluster == "" {
      return Some(EmptyTarget);
    }
    return if r.cluster !in seen then Some(UnknownTarget) else None;
  }

  method Validate(cfg: Config) returns (v: Verdict)
    ensures Justified(cfg, v)
    ensures v.Accepted? <==> Sound(cfg)
  {
    hide Faulty, GoodCluster, Named, GoodClusters;
    v := FirstFailure(cfg);
    OneVerdict(cfg, v, v);
  }

  /** The two loops. */
  method FirstFailure(cfg: Config) returns (v: Verdict)
    ensures Justified(cfg, v)
  {
    hide Faulty, GoodCluster, Misrouted, GoodRoute;
    var cs := cfg.clusters;
    var seen: set<string> := {};
    for i := 0 to |cs|
      invariant GoodClusters(cs[..i]) && forall n :: n in seen <==> Named(cs[..i], n)
    {
      var fault := CheckCluster(cs[..i], seen, cs[i]);
      if fault.Some? {
        return BadCluster(i, fault.value);
      }
      GoodPrefix(cs, i);
      seen := seen + {cs[i].name};
    }
    assert cs[..|cs|] == cs;
    for j := 0 to |cfg.routes|
      invariant forall k :: 0 <= k < j ==> GoodRoute(cs, cfg.routes[k])
    {
      var fault := CheckRoute(cs, seen, cfg.routes[j]);
      if fault.Some? {
        return BadRoute(j, fault.value);
      }
    }
    return Accepted;
  }

  // ----- The checks in full -----

  predicate KnownPolicy(p: string) {
    var l := Http.Lower(p);
    l == "" || l == "round_robin" || l == "random" || l == "least_requests"
  }

  /** An endpoint with a host and a port. */
  predicate HostAndPort(e: Endpoint) {
    match e.split
    case None => false
    case Some(hp) => |hp.host| > 0 && |hp.port| > 0
  }

  /** A cluster is sound exactly with a name, some endpoints, each host:port, a known policy and no negative limit. */
  lemma GoodClusterExactly(c: ClusterSpec)
    ensures GoodCluster(c) <==>
            && |c.name| > 0 && |c.endpoints| > 0 && KnownPolicy(c.lbPolicy)
            && (forall e :: e in c.endpoints ==> HostAndPort(e))
            && (c.breaker.Some? ==>
                  0 <= c.breaker.value.maxRequests && 0 <= c.breaker.value.maxPending && 0 <= c.breaker.value.perEndpoint)
  {
    if GoodCluster(c) {
      forall e | e in c.endpoints ensures HostAndPort(e) {
        var k :| 0 <= k < |c.endpoints| && c.endpoints[k] == e;
        assert GoodEndpoint(c.endpoints[k]);
      }
    }
    if forall e :: e in c.endpoints ==> HostAndPort(e) {
      forall k | 0 <= k < |c.endpoints| ensures GoodEndpoint(c.endpoints[k]) {
        assert HostAndPort(c.endpoints[k]);
      }
    }
  }

  /** A configuration is sound exactly when its clusters are and have names of their own, and every route has a prefix and
      names one of them. */
  lemma SoundExactly(cfg: Config)
    ensures Sound(cfg) <==>
            && (forall i :: 0 <= i < |cfg.clusters| ==> GoodCluster(cfg.clusters[i]))
            && (forall i, j :: 0 <= i < j < |cfg.clusters| ==> cfg.clusters[i].name != cfg.clusters[j].name)
            && (forall j :: 0 <= j < |cfg.routes| ==>
                  && |cfg.routes[j].prefix| > 0 && |cfg.routes[j].cluster| > 0
                  && exists i :: 0 <= i < |cfg.clusters| && cfg.clusters[i].name == cfg.routes[j].cluster)
  {
    hide GoodCluster;
    forall j | 0 <= j < |cfg.routes|
      ensures GoodRoute(cfg.clusters, cfg.routes[j]) <==>
              && |cfg.routes[j].prefix| > 0 && |cfg.routes[j].cluster| > 0
              && exists i :: 0 <= i < |cfg.clusters| && cfg.clusters[i].name == cfg.routes[j].cluster
    {
    }
  }

  /** Which fault of a cluster is reported: the first in the order name, duplicate, endpoints, policy, limits. */
  lemma FaultsInOrder(before: seq<ClusterSpec>, c: ClusterSpec, f: ClusterFault)
    requires Faulty(before, c, f)
    ensures f.EmptyName? <==> c.name == ""
    ensures f.DuplicateName? <==> c.name != "" && exists i :: 0 <= i < |before| && before[i].name == c.name
    ensures f.NoEndpoints? ==> c.endpoints == []
    ensures f.BadEndpoint? ==>
              && f.k < |c.endpoints| && !HostAndPort(c.endpoints[f.k])
              && forall j :: 0 <= j < f.k ==> HostAndPort(c.endpoints[j])
    ensures f.BadPolicy? || f.NegativeLimit? ==>
              c.endpoints != [] && forall j :: 0 <= j < |c.endpoints| ==> HostAndPort(c.endpoints[j])
    ensures f.BadPolicy? ==> !KnownPolicy(c.lbPolicy)
    ensures f.NegativeLimit? ==>
              && KnownPolicy(c.lbPolicy) && c.breaker.Some?
              && (c.breaker.value.maxRequests < 0 || c.breaker.value.maxPending < 0 || c.breaker.value.perEndpoint < 0)
  {
    match f
    case BadEndpoint(k) =>
      forall j | 0 <= j < k ensures HostAndPort(c.endpoints[j]) {
        assert GoodEndpoint(c.endpoints[..k][j]);
      }
    case BadPolicy =>
      assert forall j :: 0 <= j < |c.endpoints| ==> GoodEndpoint(c.endpoints[j]);
    case NegativeLimit =>
      assert forall j :: 0 <= j < |c.endpoints| ==> GoodEndpoint(c.endpoints[j]);
    case _ =>
  }

  /** A route's fault is the first in the order prefix, cluster, unknown cluster. */
  lemma RouteFaultsInOrder(cs: seq<ClusterSpec>, r: Router.Route, f: RouteFault)
    requires Misrouted(cs, r, f)
    ensures f.EmptyPrefix? <==> r.prefix == ""
    ensures f.EmptyTarget? <==> r.prefix != "" && r.cluster == ""
    ensures f.UnknownTarget? ==> !exists i :: 0 <= i < |cs| && cs[i].name == r.cluster
  {
  }

  /** The limits the data plane works with: each configured one if positive, else off. */
  lemma LimitsExactly(c: ClusterSpec)
    ensures c.breaker.None? ==> Limits(c) == Interleaving.Config(0, 0, 0)
    ensures c.breaker.Some? ==>
              && (c.breaker.value.maxRequests > 0 ==> Limits(c).maxRequests == c.breaker.value.maxRequests)
              && (c.breaker.value.maxRequests <= 0 ==> Limits(c).maxRequests == 0)
              && (c.breaker.value.maxPending > 0 ==> Limits(c).maxPending == c.breaker.value.maxPending)
              && (c.breaker.value.maxPending <= 0 ==> Limits(c).maxPending == 0)
              && (c.breaker.value.perEndpoint > 0 ==> Limits(c).epMax == c.breaker.value.perEndpoint)
              && (c.breaker.value.perEndpoint <= 0 ==> Limits(c).epMax == 0)
  {
  }

  /** An accepted endpoint is listed under its canonical address if its host is an IP, and under its text otherwise unless
      DNS supplies it. */
  lemma AcceptedEndpointListed(c: ClusterSpec, k: nat)
    requires GoodCluster(c) && k < |c.endpoints|
    ensures var e := c.endpoints[k];
            if e.split.value.ip.Some? then e.split.value.ip.value in Initial(c)
            else !c.strictDns ==> e.text in Initial(c)
  {
    var e := c.endpoints[k];
    assert GoodEndpoint(e);
    var seeds := Seeds(c.endpoints);
    var a := if e.split.value.ip.Some? then e.split.value.ip.value else e.text;
    Discovery.ListingExactly(seeds, c.strictDns, a);
    assert Discovery.Puts(seeds[k], c.strictDns, a) || (c.strictDns && e.split.value.ip.None?);
  }

  // ----- What an accepted configuration guarantees -----

  function SeedOf(e: Endpoint): (s: Discovery.Seed) {
    match e.split
    case None => Discovery.Malformed(e.text)
    case Some(hp) => if hp.ip.Some? then Discovery.Ip(hp.ip.value) else Discovery.Host(e.text)
  }

  function Seeds(eps: seq<Endpoint>): (seeds: seq<Discovery.Seed>)
    ensures |seeds| == |eps| && forall k :: 0 <= k < |eps| ==> seeds[k] == SeedOf(eps[k])
  {
    seq(|eps|, k requires 0 <= k < |eps| => SeedOf(eps[k]))
  }

  /** The list a cluster starts with. */
  function Initial(c: ClusterSpec): (list: seq<Discovery.Addr>) {
    Discovery.Listing(Seeds(c.endpoints), c.strictDns)
  }

  /** How NewManager and NewUpstreamProxy read the limits; zero means no limit, or no queue. */
  function Limits(c: ClusterSpec): (limits: Interleaving.Config) {
    match c.breaker
    case None => Interleaving.Config(0, 0, 0)
    case Some(b) => Interleaving.Config(Max0(b.maxRequests), Max0(b.maxPending), Max0(b.perEndpoint))
  }

  function Max0(x: int): (n: nat) {
    if x > 0 then x else 0
  }

  predicate OnlyDns(seeds: seq<Discovery.Seed>, strictDns: bool) {
    forall k :: 0 <= k < |seeds| ==> seeds[k].Host? && strictDns
  }

  lemma {:induction false} ListingEmptyExactly(seeds: seq<Discovery.Seed>, strictDns: bool)
    ensures Discovery.Listing(seeds, strictDns) == [] <==> OnlyDns(seeds, strictDns)
  {
    if seeds != [] {
      var n := |seeds| - 1;
      ListingEmptyExactly(seeds[..n], strictDns);
      OnlyDnsSnoc(seeds, strictDns);
      hide OnlyDns;
    }
  }

  lemma OnlyDnsSnoc(seeds: seq<Discovery.Seed>, strictDns: bool)
    requires seeds != []
    ensures var n := |seeds| - 1;
            OnlyDns(seeds, strictDns) <==> OnlyDns(seeds[..n], strictDns) && seeds[n].Host? && strictDns
  {
    var n := |seeds| - 1;
    if OnlyDns(seeds[..n], strictDns) && seeds[n].Host? && strictDns {
      forall k | 0 <= k < |seeds| ensures seeds[k].Host? {
        assert k < n ==> seeds[..n][k] == seeds[k];
      }
    }
  }

  /** An accepted cluster starts without endpoints exactly when DNS supplies all of them, and none of its seeds is malformed. */
  lemma AcceptedClusterStarts(cfg: Config, i: nat)
    requires Sound(cfg) && i < |cfg.clusters|
    ensures var c := cfg.clusters[i];
            && (Initial(c) == [] <==> c.strictDns && forall k :: 0 <= k < |c.endpoints| ==> c.endpoints[k].split.value.ip.None?)
            && (c.strictDns ==> forall hc :: Discovery.Validated(Discovery.Setup(Seeds(c.endpoints), true, hc)))
  {
    var c := cfg.clusters[i];
    var seeds := Seeds(c.endpoints);
    ListingEmptyExactly(seeds, c.strictDns);
    assert forall k :: 0 <= k < |c.endpoints| ==> GoodEndpoint(c.endpoints[k]) && seeds[k] in seeds && !seeds[k].Malformed?;
    assert forall s :: s in seeds ==> !s.Malformed?;
    assert Initial(c) == [] ==> seeds[0] in seeds;
    assert forall k :: 0 <= k < |c.endpoints| ==> (seeds[k].Host? <==> c.endpoints[k].split.value.ip.None?);
  }

  /** Every run of an accepted static cluster gives every slot back, when no cap is in reach or there is no queue. */
  lemma AcceptedStaticGivesBack(cfg: Config, i: nat, labs: seq<Interleaving.Label>, w: Interleaving.World)
    requires Sound(cfg) && i < |cfg.clusters| && !cfg.clusters[i].strictDns
    requires Safety.GivesBack(Limits(cfg.clusters[i]))
    requires Interleaving.Reaches(Limits(cfg.clusters[i]), Initial(cfg.clusters[i]), labs, w) && Safety.Uneventful(labs)
    requires forall l :: l in w.reqs ==> l.pc.Done?
    ensures forall l :: l in w.reqs ==> l.tally.acquires == l.tally.releases
    ensures w.sh.inflight == 0 && w.sh.pending == 0 && forall r :: 0 <= r < |w.sh.cells| ==> w.sh.cells[r] == 0
  {
    AcceptedClusterStarts(cfg, i);
    Safety.StaticClusterGivesBack(Limits(cfg.clusters[i]), Initial(cfg.clusters[i]), labs, w);
  }

  /** An accepted strict-DNS cluster of hostnames with a limit can be closed for good before its first lookup. */
  lemma AcceptedClusterCanClose(cfg: Config, i: nat) returns (labs: seq<Interleaving.Label>, w: Interleaving.World)
    requires Sound(cfg) && i < |cfg.clusters|
    requires var c := cfg.clusters[i];
             && c.strictDns && c.breaker.Some? && c.breaker.value.maxRequests > 0
             && forall k :: 0 <= k < |c.endpoints| ==> c.endpoints[k].split.Some? && c.endpoints[k].split.value.ip.None?
    ensures Interleaving.Reaches(Limits(cfg.clusters[i]), Initial(cfg.clusters[i]), labs, w)
    ensures |w.reqs| == cfg.clusters[i].breaker.value.maxRequests
    ensures Leaks.RefusesForGood(Limits(cfg.clusters[i]), w)
  {
    AcceptedClusterStarts(cfg, i);
    labs, w := Leaks.EarlyRequestsCloseTheCluster(Limits(cfg.clusters[i]));
  }

  /** A request that comes in unrouted is sent to a configured cluster, or no route matched and there is no catch-all. */
  lemma AcceptedRoutesResolve(cfg: Config, path: string, was: Router.Target)
    requires Sound(cfg) && was.cluster == ""
    ensures var t := Router.Routed(cfg.routes, path, was).cluster;
            && (t == "" <==> forall j :: 0 <= j < |cfg.routes| ==>
                               !Router.Matches(cfg.routes[j], path) && cfg.routes[j].prefix != "/")
            && (t != "" ==> Named(cfg.clusters, t))
  {
    CatchAllResolves(cfg, |cfg.routes|);
    var m := Router.FirstMatch(cfg.routes, path, 0);
    if m.Some? {
      assert GoodRoute(cfg.clusters, cfg.routes[m.value]);
    }
  }

  lemma {:induction false} CatchAllResolves(cfg: Config, n: nat)
    requires Sound(cfg) && n <= |cfg.routes|
    ensures var t := Router.CatchAll(cfg.routes, n);
            && (t == "" <==> forall j :: 0 <= j < n ==> cfg.routes[j].prefix != "/")
            && (t != "" ==> Named(cfg.clusters, t))
  {
    if n > 0 {
      CatchAllResolves(cfg, n - 1);
      assert GoodRoute(cfg.clusters, cfg.routes[n - 1]);
      var before := Router.CatchAll(cfg.routes, n - 1);
      if before == "" && cfg.routes[n - 1].prefix == "/" {
        assert Router.CatchAll(cfg.routes, n) == cfg.routes[n - 1].cluster;
      }
    }
  }
}
