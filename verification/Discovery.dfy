/** Strict-DNS endpoint sets, refreshes one at a time (internal/cluster/manager.go, NewManager to applyEndpointSet). */
module Discovery {
  import opened Prelude

  type Addr = string

  /** A configured endpoint, as net.SplitHostPort and net.ParseIP classify it. */
  datatype Seed = Malformed(text: Addr) | Ip(addr: Addr) | Host(text: Addr)

  /** What a cluster is configured with, once Manager.Start has run. */
  datatype Setup = Setup(seeds: seq<Seed>, strictDns: bool, healthCheck: bool)

  /** One finished lookup; `ips` is absent when it failed. */
  datatype Lookup = Lookup(seed: string, ips: Option<set<Addr>>)

  /** From the last colon on. */
  function PortPart(text: string): (p: string)
    ensures p == "" <==> ':' !in text
    ensures p != "" ==> p[0] == ':' && ':' !in p[1..]
  {
    if text == "" then ""
    else if ':' in text[1..] then PortPart(text[1..])
    else if text[0] == ':' then text else ""
  }

  /** What a successful lookup of a seed yields: at least one address, each with the seed's own port. */
  predicate Answer(seed: string, ips: set<Addr>) {
    ips != {} && forall a :: a in ips ==> PortPart(a) == PortPart(seed)
  }

  /** The discovery state of a cluster as a value. */
  datatype Net = Net(
    listed: set<Addr>, entries: set<Addr>, resolved: map<string, set<Addr>>, checked: set<Addr>,
    added: nat, removed: nat)

  function SetOf(s: seq<Addr>): (addrs: set<Addr>) {
    set a | a in s
  }

  /** The list NewManager builds: hostnames are listed unless DNS will supply them. */
  function Listing(seeds: seq<Seed>, strictDns: bool): (list: seq<Addr>) {
    if seeds == [] then []
    else
      var rest := Listing(seeds[..|seeds| - 1], strictDns);
      match seeds[|seeds| - 1]
      case Malformed(text) => rest + [text]
      case Ip(addr) => rest + [addr]
      case Host(text) => if strictDns then rest else rest + [text]
  }

  function StaticSeeds(seeds: seq<Seed>): (addrs: set<Addr>) {
    set s | s in seeds && s.Ip? :: s.addr
  }

  function AllResolved(resolved: map<string, set<Addr>>): (addrs: set<Addr>) {
    set s, a | s in resolved && a in resolved[s] :: a
  }

  function Effective(cfg: Setup, resolved: map<string, set<Addr>>): (addrs: set<Addr>) {
    StaticSeeds(cfg.seeds) + AllResolved(resolved)
  }

  function Boot(cfg: Setup): (start: Net) {
    var listed := SetOf(Listing(cfg.seeds, cfg.strictDns));
    Net(listed, listed, map[], if cfg.healthCheck then listed else {}, 0, 0)
  }

  function ApplySet(cfg: Setup, n: Net, next: set<Addr>): (after: Net) {
    var toAdd, toRemove := next - n.listed, n.listed - next;
    Net(next, n.entries + toAdd, n.resolved,
        (if cfg.healthCheck then n.checked + toAdd else n.checked) - toRemove,
        n.added + |toAdd|, n.removed + |toRemove|)
  }

  function Resolve(cfg: Setup, n: Net, l: Lookup): (after: Net) {
    match l.ips
    case None => n
    case Some(ips) =>
      var resolved := n.resolved[l.seed := ips];
      ApplySet(cfg, n.(resolved := resolved), Effective(cfg, resolved))
  }

  lemma ApplySame(cfg: Setup, n: Net)
    ensures ApplySet(cfg, n, n.listed) == n
  {
    assert n.listed - n.listed == {};
  }

  // ----- The cluster, updated in place -----

  lemma SeedStep(seeds: seq<Seed>, i: nat, strictDns: bool)
    requires i < |seeds|
    ensures Listing(seeds[..i + 1], strictDns) == Listing(seeds[..i], strictDns) +
            match seeds[i] { case Malformed(text) => [text] case Ip(addr) => [addr]
                             case Host(text) => if strictDns then [] else [text] }
    ensures StaticSeeds(seeds[..i + 1]) == StaticSeeds(seeds[..i]) + if seeds[i].Ip? then {seeds[i].addr} else {}
    ensures forall list: seq<Addr>, a :: SetOf(list + [a]) == SetOf(list) + {a}
  {
    assert seeds[..i + 1][..i] == seeds[..i];
    assert seeds[..i + 1] == seeds[..i] + [seeds[i]];
  }

  method ReadSeeds(seeds: seq<Seed>, strictDns: bool) returns (list: seq<Addr>, statics: set<Addr>, entries: set<Addr>)
    ensures list == Listing(seeds, strictDns) && statics == StaticSeeds(seeds) && entries == SetOf(list)
  {
    list, statics, entries := [], {}, {};
    assert statics == StaticSeeds(seeds[..0]) && entries == SetOf(list);
    for i := 0 to |seeds|
      invariant list == Listing(seeds[..i], strictDns)
      invariant entries == SetOf(list) && statics == StaticSeeds(seeds[..i])
    {
      hide StaticSeeds, SetOf;
      SeedStep(seeds, i, strictDns);
      match seeds[i]
      case Malformed(text) =>
        list, entries := list + [text], entries + {text};
      case Ip(addr) =>
        list, entries, statics := list + [addr], entries + {addr}, statics + {addr};
      case Host(text) =>
        if !strictDns {
          list, entries := list + [text], entries + {text};
        }
    }
    assert seeds[..|seeds|] == seeds;
  }

  method Union(statics: set<Addr>, resolved: map<string, set<Addr>>) returns (union: set<Addr>)
    ensures union == statics + AllResolved(resolved)
  {
    var rest := resolved.Keys;
    union := statics;
    while rest != {}
      invariant rest <= resolved.Keys
      invariant union == statics + set s, a | s in resolved.Keys - rest && a in resolved[s] :: a
      decreases rest
    {
      var s :| s in rest;
      union, rest := union + resolved[s], rest - {s};
    }
  }

  /** A list of the set's members, each once, in no particular order. */
  method ListOf(s: set<Addr>) returns (list: seq<Addr>)
    ensures SetOf(list) == s && |list| == |s|
  {
    var rest := s;
    list := [];
    while rest != {}
      invariant SetOf(list) + rest == s && |list| + |rest| == |s|
      decreases rest
    {
      var a :| a in rest;
      list, rest := list + [a], rest - {a};
    }
  }

  class Cluster {
    const cfg: Setup
    const staticSeeds: set<Addr>
    var endpoints: seq<Addr>
    var entries: set<Addr>                    // keys of `state`
    var resolvedBySeed: map<string, set<Addr>>
    var hcCancel: set<Addr>                   // keys of `hcCancel`
    var checkers: multiset<Addr>              // health-check goroutines not cancelled
    var added: nat
    var removed: nat

    /** Every registered check runs once, and nothing else runs. */
    predicate Valid()
      reads this
    {
      checkers == multiset(hcCancel)
    }

    function View(): (v: Net)
      reads this
    {
      Net(SetOf(endpoints), entries, resolvedBySeed, hcCancel, added, removed)
    }

    /** NewManager's loop over the configured endpoints. */
    constructor (cfg: Setup)
      ensures this.cfg == cfg && staticSeeds == StaticSeeds(cfg.seeds)
      ensures Valid() && View() == Boot(cfg.(healthCheck := false)) && endpoints == Listing(cfg.seeds, cfg.strictDns)
    {
      var list, statics, ents := ReadSeeds(cfg.seeds, cfg.strictDns);
      this.cfg, staticSeeds, endpoints, entries := cfg, statics, list, ents;
      resolvedBySeed, hcCancel, checkers, added, removed := map[], {}, multiset{}, 0, 0;
    }

    /** Manager.Start: one check a listed endpoint. */
    method Start()
      requires Valid() && View() == Boot(cfg.(healthCheck := false))
      modifies `hcCancel, `checkers
      ensures Valid() && View() == Boot(cfg)
    {
      for i := 0 to |endpoints|
        invariant Valid() && hcCancel == if cfg.healthCheck then SetOf(endpoints[..i]) else {}
      {
        assert SetOf(endpoints[..i + 1]) == SetOf(endpoints[..i]) + {endpoints[i]};
        StartHealthCheck(endpoints[i]);
      }
      assert endpoints[..|endpoints|] == endpoints;
    }

    method StartHealthCheck(a: Addr)
      requires Valid()
      modifies `hcCancel, `checkers
      ensures Valid() && hcCancel == if cfg.healthCheck then old(hcCancel) + {a} else old(hcCancel)
    {
      if !cfg.healthCheck || a in hcCancel {
        assert a in hcCancel ==> hcCancel + {a} == hcCancel;
        return;
      }
      hcCancel, checkers := hcCancel + {a}, checkers + multiset{a};
    }

    method StopHealthCheck(a: Addr)
      requires Valid()
      modifies `hcCancel, `checkers
      ensures Valid() && hcCancel == old(hcCancel) - {a}
    {
      if a in hcCancel {
        hcCancel, checkers := hcCancel - {a}, checkers - multiset{a};
      }
    }

    /** Diffs the new set against the list, installs it, and adjusts the checks. */
    method ApplyEndpointSet(next: set<Addr>)
      requires Valid()
      modifies `endpoints, `entries, `hcCancel, `checkers, `added, `removed
      ensures Valid() && View() == ApplySet(cfg, old(View()), next)
      ensures endpoints == old(endpoints) || |endpoints| == |next|
    {
      hide SetOf;
      var cur := SetOf(endpoints);
      var toAdd, toRemove := next - cur, cur - next;
      if toAdd == {} && toRemove == {} {
        assert cur == next;
        ApplySame(cfg, View());
        return;
      }
      var list := ListOf(next);
      endpoints, entries := list, entries + toAdd;
      Adjust(toAdd, toRemove);
    }

    /** The health checks of a difference, outside the lock. */
    method Adjust(toAdd: set<Addr>, toRemove: set<Addr>)
      requires Valid()
      modifies `hcCancel, `checkers, `added, `removed
      ensures Valid() && added == old(added) + |toAdd| && removed == old(removed) + |toRemove|
      ensures hcCancel == (if cfg.healthCheck then old(hcCancel) + toAdd else old(hcCancel)) - toRemove
    {
      StartAll(toAdd);
      StopAll(toRemove);
    }

    method StartAll(toAdd: set<Addr>)
      requires Valid()
      modifies `hcCancel, `checkers, `added
      ensures Valid() && added == old(added) + |toAdd|
      ensures hcCancel == if cfg.healthCheck then old(hcCancel) + toAdd else old(hcCancel)
    {
      var rest := toAdd;
      ghost var done: set<Addr> := {};
      while rest != {}
        invariant Valid() && done + rest == toAdd && added + |rest| == old(added) + |toAdd|
        invariant hcCancel == if cfg.healthCheck then old(hcCancel) + done else old(hcCancel)
        decreases rest
      {
        var a :| a in rest;
        StartHealthCheck(a);
        added, rest, done := added + 1, rest - {a}, done + {a};
      }
    }

    method StopAll(toRemove: set<Addr>)
      requires Valid()
      modifies `hcCancel, `checkers, `removed
      ensures Valid() && removed == old(removed) + |toRemove| && hcCancel == old(hcCancel) - toRemove
    {
      var rest := toRemove;
      while rest != {}
        invariant rest <= toRemove && Valid() && removed == old(removed) + |toRemove| - |rest|
        invariant hcCancel == old(hcCancel) - (toRemove - rest)
        decreases rest
      {
        var a :| a in rest;
        StopHealthCheck(a);
        removed, rest := removed + 1, rest - {a};
      }
    }

    /** One refresh: replace the seed's set, take the union, apply it. A failed lookup changes nothing. */
    method ResolveOnce(l: Lookup)
      requires Valid() && staticSeeds == StaticSeeds(cfg.seeds)
      modifies this
      ensures Valid() && View() == Resolve(cfg, old(View()), l)
    {
      hide StaticSeeds, AllResolved, SetOf;
      if l.ips.None? {
        return;
      }
      resolvedBySeed := resolvedBySeed[l.seed := l.ips.value];
      var effective := Union(staticSeeds, resolvedBySeed);
      ApplyEndpointSet(effective);
    }
  }

  // ----- Any number of refreshes -----

  function Refreshed(cfg: Setup, h: seq<Lookup>): (n: Net) {
    if h == [] then Boot(cfg) else Resolve(cfg, Refreshed(cfg, h[..|h| - 1]), h[|h| - 1])
  }

  /** The result of each seed's latest successful lookup. */
  function Latest(h: seq<Lookup>): (found: map<string, set<Addr>>) {
    if h == [] then map[]
    else
      var l := h[|h| - 1];
      if l.ips.Some? then Latest(h[..|h| - 1])[l.seed := l.ips.value] else Latest(h[..|h| - 1])
  }

  /** Validate rejects endpoints that are not host:port. */
  predicate Validated(cfg: Setup) {
    cfg.strictDns && forall s :: s in cfg.seeds ==> !s.Malformed?
  }

  lemma {:induction false} ListingIsStatic(seeds: seq<Seed>)
    requires forall s :: s in seeds ==> !s.Malformed?
    ensures SetOf(Listing(seeds, true)) == StaticSeeds(seeds)
  {
    if seeds != [] {
      var n := |seeds| - 1;
      ListingIsStatic(seeds[..n]);
      SeedStep(seeds, n, true);
      assert seeds[..n + 1] == seeds;
    }
  }

  /** Applying a set conserves: what was added less what was removed is the change in size. */
  lemma ApplyConserves(cfg: Setup, n: Net, next: set<Addr>)
    ensures var m := ApplySet(cfg, n, next); m.added - n.added - (m.removed - n.removed) == |next| - |n.listed|
  {
    var both := next * n.listed;
    assert next == (next - n.listed) + both && n.listed == (n.listed - next) + both;
  }

  lemma NothingResolved()
    ensures AllResolved(map[]) == {}
  {
  }

  // ----- What a run of refreshes comes to, address by address -----

  /** What a seed puts on the first list: an IP its address, anything else its text, but a hostname only without
      strict DNS. */
  predicate Puts(s: Seed, strictDns: bool, a: Addr) {
    match s
    case Malformed(text) => a == text
    case Ip(addr) => a == addr
    case Host(text) => a == text && !strictDns
  }

  /** The first list, address by address. */
  lemma {:induction false} ListingExactly(seeds: seq<Seed>, strictDns: bool, a: Addr)
    ensures a in Listing(seeds, strictDns) <==> exists k :: 0 <= k < |seeds| && Puts(seeds[k], strictDns, a)
  {
    if seeds != [] {
      var n := |seeds| - 1;
      ListingExactly(seeds[..n], strictDns, a);
      assert seeds == seeds[..n] + [seeds[n]];
      if k :| 0 <= k < |seeds| && Puts(seeds[k], strictDns, a) {
        assert k < n ==> seeds[..n][k] == seeds[k];
      }
      if a in Listing(seeds[..n], strictDns) {
        var k :| 0 <= k < n && Puts(seeds[..n][k], strictDns, a);
        assert Puts(seeds[k], strictDns, a);
      }
      if Puts(seeds[n], strictDns, a) {
        assert a in Listing(seeds, strictDns);
      }
    }
  }

  /** Without strict DNS the list follows the configuration, seed by seed. */
  lemma {:induction false} ListingInOrder(seeds: seq<Seed>, k: nat)
    requires k < |seeds|
    ensures |Listing(seeds, false)| == |seeds| && Puts(seeds[k], false, Listing(seeds, false)[k])
  {
    var n := |seeds| - 1;
    if k < n {
      ListingInOrder(seeds[..n], k);
    } else if n > 0 {
      ListingInOrder(seeds[..n], 0);
    }
  }

  /** The latest successful lookup of its seed. */
  predicate Newest(h: seq<Lookup>, i: nat) {
    i < |h| && h[i].ips.Some? && forall j :: i < j < |h| && h[j].ips.Some? ==> h[j].seed != h[i].seed
  }

  predicate Found(h: seq<Lookup>, i: nat, a: Addr) {
    Newest(h, i) && a in h[i].ips.value
  }

  /** The latest results, lookup by lookup. */
  lemma LatestExactly(h: seq<Lookup>, a: Addr)
    ensures a in AllResolved(Latest(h)) <==> exists i: nat :: Found(h, i, a)
    ensures forall s :: s in Latest(h) <==> exists i :: 0 <= i < |h| && h[i].ips.Some? && h[i].seed == s
    ensures forall i: nat :: Newest(h, i) ==> Latest(h)[h[i].seed] == h[i].ips.value
  {
    LatestSeeds(h);
    forall s | s in Latest(h) ensures exists i :: 0 <= i < |h| && h[i].ips.Some? && h[i].seed == s {
      var i := LatestOf(h, s);
    }
    if a in AllResolved(Latest(h)) {
      var s :| s in Latest(h) && a in Latest(h)[s];
      var i := LatestOf(h, s);
      assert Found(h, i, a);
    }
    if i: nat :| Found(h, i, a) {
      assert a in Latest(h)[h[i].seed];
    }
  }

  lemma NewestSnoc(g: seq<Lookup>, l: Lookup)
    ensures forall i: nat :: i < |g| ==>
              (Newest(g + [l], i) <==> Newest(g, i) && (l.ips.Some? ==> l.seed != g[i].seed))
    ensures Newest(g + [l], |g|) <==> l.ips.Some?
  {
    var h := g + [l];
    forall i: nat | i < |g| ensures Newest(h, i) <==> Newest(g, i) && (l.ips.Some? ==> l.seed != g[i].seed) {
      if Newest(h, i) {
        forall j | i < j < |g| && g[j].ips.Some? ensures g[j].seed != g[i].seed {
          assert h[j] == g[j];
        }
        assert h[|g|] == l;
      }
      if Newest(g, i) && (l.ips.Some? ==> l.seed != g[i].seed) {
        forall j | i < j < |h| && h[j].ips.Some? ensures h[j].seed != h[i].seed {
          assert j < |g| ==> h[j] == g[j];
        }
      }
    }
  }

  lemma {:induction false} LatestSeeds(h: seq<Lookup>)
    ensures forall i: nat :: Newest(h, i) ==> h[i].seed in Latest(h) && Latest(h)[h[i].seed] == h[i].ips.value
    ensures forall i :: 0 <= i < |h| && h[i].ips.Some? ==> h[i].seed in Latest(h)
  {
    if h != [] {
      var n := |h| - 1;
      var g := h[..n];
      assert g + [h[n]] == h;
      LatestSeeds(g);
      NewestSnoc(g, h[n]);
      assert forall i: nat :: Newest(h, i) ==> i < |h| by {
        NewestInRange(h);
      }
      hide Newest;
    }
  }

  lemma NewestInRange(h: seq<Lookup>)
    ensures forall i: nat :: Newest(h, i) ==> i < |h|
  {
  }

  lemma {:induction false} LatestOf(h: seq<Lookup>, s: string) returns (i: nat)
    requires s in Latest(h)
    ensures i < |h| && h[i].ips.Some? && h[i].seed == s && Latest(h)[s] == h[i].ips.value
    ensures forall j :: i < j < |h| && h[j].ips.Some? ==> h[j].seed != s
  {
    var n := |h| - 1;
    if h[n].ips.Some? && h[n].seed == s {
      i := n;
    } else {
      i := LatestOf(h[..n], s);
      assert h[..n][i] == h[i];
      forall j | i < j < |h| && h[j].ips.Some? ensures h[j].seed != s {
        assert j < n ==> h[..n][j] == h[j];
      }
    }
  }

  lemma StaticExactly(seeds: seq<Seed>, a: Addr)
    ensures a in StaticSeeds(seeds) <==> exists k :: 0 <= k < |seeds| && seeds[k] == Ip(a)
  {
    if a in StaticSeeds(seeds) {
      var s :| s in seeds && s.Ip? && s.addr == a;
      var k :| 0 <= k < |seeds| && seeds[k] == s;
      assert seeds[k] == Ip(a);
    }
  }

  /** A static seed, or found by the newest successful lookup of some seed. */
  ghost predicate Known(seeds: seq<Seed>, h: seq<Lookup>, a: Addr) {
    (exists k :: 0 <= k < |seeds| && seeds[k] == Ip(a)) || (exists i: nat :: Found(h, i, a))
  }

  /** The union of static seeds and latest results, address by address. */
  lemma EffectiveExactly(cfg: Setup, h: seq<Lookup>, a: Addr)
    ensures a in Effective(cfg, Latest(h)) <==> Known(cfg.seeds, h, a)
  {
    LatestExactly(h, a);
    StaticExactly(cfg.seeds, a);
    hide StaticSeeds, AllResolved, Latest, Found;
  }

  /** An address is listed exactly when it is a static seed or the latest successful lookup of some seed found it. */
  lemma ListedExactly(cfg: Setup, h: seq<Lookup>, a: Addr)
    requires Validated(cfg)
    ensures a in Refreshed(cfg, h).listed <==> Known(cfg.seeds, h, a)
  {
    SerialRefreshes(cfg, h);
    EffectiveExactly(cfg, h, a);
    hide Refreshed, AllResolved, StaticSeeds, Latest, Found;
  }

  /** An address has an entry exactly when it has been listed, at first or after some refresh. */
  lemma {:induction false} EntriesExactly(cfg: Setup, h: seq<Lookup>, a: Addr)
    ensures a in Refreshed(cfg, h).entries <==> exists k :: 0 <= k <= |h| && a in Refreshed(cfg, h[..k]).listed
  {
    assert h[..|h|] == h;
    if h != [] {
      var n := |h| - 1;
      EntriesExactly(cfg, h[..n], a);
      forall k | 0 <= k <= n ensures h[..n][..k] == h[..k] {
      }
      hide SetOf, Listing, Effective;
      var before, after := Refreshed(cfg, h[..n]), Refreshed(cfg, h);
      assert a in after.entries <==> a in before.entries || a in after.listed by {
        ListedHaveEntries(cfg, h[..n]);
      }
      if k :| 0 <= k <= |h| && a in Refreshed(cfg, h[..k]).listed {
        assert k <= n ==> a in Refreshed(cfg, h[..n][..k]).listed;
      }
      if a in before.entries {
        var k :| 0 <= k <= n && a in Refreshed(cfg, h[..n][..k]).listed;
        assert a in Refreshed(cfg, h[..k]).listed;
      }
    }
  }

  lemma {:induction false} ListedHaveEntries(cfg: Setup, h: seq<Lookup>)
    ensures Refreshed(cfg, h).listed <= Refreshed(cfg, h).entries
  {
    if h != [] {
      hide SetOf, Listing, Effective;
      ListedHaveEntries(cfg, h[..|h| - 1]);
    }
  }

  /** So no refresh, nor any number of them, takes an entry away. */
  lemma EntriesStay(cfg: Setup, h: seq<Lookup>, n: nat)
    requires n <= |h|
    ensures Refreshed(cfg, h[..n]).entries <= Refreshed(cfg, h).entries
  {
    forall a | a in Refreshed(cfg, h[..n]).entries ensures a in Refreshed(cfg, h).entries {
      EntriesExactly(cfg, h[..n], a);
      EntriesExactly(cfg, h, a);
      var k :| 0 <= k <= n && a in Refreshed(cfg, h[..n][..k]).listed;
      assert h[..n][..k] == h[..k];
    }
  }

  /** A refresh counts each address it lists anew and each it takes off, and a failed lookup leaves everything alone. */
  lemma RefreshCounts(cfg: Setup, h: seq<Lookup>, l: Lookup)
    ensures var before, after := Refreshed(cfg, h), Refreshed(cfg, h + [l]);
            && after.added - before.added == |after.listed - before.listed|
            && after.removed - before.removed == |before.listed - after.listed|
            && (l.ips.None? ==> after == before)
  {
    assert (h + [l])[..|h|] == h;
    hide Boot, Effective;
    var before := Refreshed(cfg, h);
    assert before.listed - before.listed == {};
  }

  lemma ResolvedOnce(seed: string, found: set<Addr>)
    ensures AllResolved(map[seed := found]) == found
  {
    var m := map[seed := found];
    forall a ensures a in AllResolved(m) <==> a in found {
      assert a in found ==> a in m[seed];
    }
  }

  /** Serial refreshes refine the plain rule: static seeds plus the latest result of every seed. */
  lemma {:induction false} SerialRefreshes(cfg: Setup, h: seq<Lookup>)
    requires Validated(cfg)
    ensures var n := Refreshed(cfg, h);
            && n.listed == StaticSeeds(cfg.seeds) + AllResolved(Latest(h))
            && n.resolved == Latest(h) && n.listed <= n.entries
            && n.checked == (if cfg.healthCheck then n.listed else {})
            && n.added - n.removed == |n.listed| - |StaticSeeds(cfg.seeds)|
  {
    hide StaticSeeds, AllResolved, SetOf, Listing;
    if h == [] {
      ListingIsStatic(cfg.seeds);
      NothingResolved();
    } else {
      var before, l := Refreshed(cfg, h[..|h| - 1]), h[|h| - 1];
      SerialRefreshes(cfg, h[..|h| - 1]);
      if l.ips.Some? {
        var resolved := before.resolved[l.seed := l.ips.value];
        ApplyConserves(cfg, before.(resolved := resolved), Effective(cfg, resolved));
      }
    }
  }

  /** Validated or not, after the first successful refresh the list follows the plain rule. */
  lemma {:induction false} RefreshedIsCurrent(cfg: Setup, h: seq<Lookup>)
    ensures Refreshed(cfg, h).resolved == Latest(h)
    ensures (exists i :: 0 <= i < |h| && h[i].ips.Some?) ==> Refreshed(cfg, h).listed == Effective(cfg, Latest(h))
  {
    if h != [] {
      hide Effective, Boot;
      var n := |h| - 1;
      RefreshedIsCurrent(cfg, h[..n]);
      if h[n].ips.None? && exists i :: 0 <= i < |h| && h[i].ips.Some? {
        var i :| 0 <= i < |h| && h[i].ips.Some?;
        assert h[..n][i].ips.Some?;
      }
    }
  }

  /** Without validation a malformed seed is listed at first and dropped by the first refresh of another seed. */
  lemma MalformedSeedIsDropped(text: Addr, host: string, found: set<Addr>)
    requires Answer(host, found) && text !in found
    ensures var cfg := Setup([Malformed(text), Host(host)], true, false);
            && Boot(cfg).listed == {text}
            && Refreshed(cfg, [Lookup(host, Some(found))]).listed == found
  {
    hide PortPart, AllResolved;
    var seeds := [Malformed(text), Host(host)];
    var cfg := Setup(seeds, true, false);
    assert seeds[..0] == [] && seeds[..1] == [Malformed(text)] && [Malformed(text)][..0] == [];
    assert Listing([Malformed(text)], true) == [text];
    assert Listing(seeds, true) == [text];
    var h := [Lookup(host, Some(found))];
    assert h[..0] == [] && Latest(h[..0]) == map[];
    assert Latest(h) == map[host := found];
    ResolvedOnce(host, found);
    assert StaticSeeds(seeds) == {};
    assert h[0].ips.Some?;
    RefreshedIsCurrent(cfg, h);
  }
}
