/** Endpoint selection (internal/cluster/manager.go, Pick), on a snapshot that does not change while it is scanned. */
module Picker {
  import opened Prelude
  import Health

  type Addr = string

  datatype Policy = RoundRobin | Random | LeastRequests

  /** A state entry as Pick reads it. */
  datatype Entry = Entry(active: Health.Active, passive: Health.Passive, inFlight: int)

  /** What Pick learns about one listed endpoint. */
  datatype Cand = Cand(available: bool, underCap: bool, load: int)

  datatype Choice =
    | Index(i: nat)   // the endpoint at this position
    | Full            // ErrNoEndpointCapacity
    | Unlisted        // "unknown or empty cluster"
    | Crash           // the ring index is negative

  predicate Eligible(c: Cand) {
    c.available && c.underCap
  }

  predicate AnyAvailable(cs: seq<Cand>) {
    exists i :: 0 <= i < |cs| && cs[i].available
  }

  // ----- The scans -----

  /** The `i`-th position of the ring that starts at `start`. */
  function At(start: nat, i: nat, n: nat): (p: nat)
    requires n >= 1
    ensures p < n
  {
    (start + i) % n
  }

  /** The first eligible position in cyclic order from `start`, looking from offset `i` on. */
  function RingScan(cs: seq<Cand>, start: nat, i: nat): (found: Option<nat>)
    requires i <= |cs|
    decreases |cs| - i
  {
    if i == |cs| then None
    else if Eligible(cs[At(start, i, |cs|)]) then Some(At(start, i, |cs|))
    else RingScan(cs, start, i + 1)
  }

  /** Where the ring starts: the ticket, read as an `int64`, modulo the list's length. */
  function RingStart(ticket: nat, n: nat): (start: int)
    requires n >= 1
    ensures start < n
  {
    GoRem(Wrap64(ticket), n)
  }

  function Ring(cs: seq<Cand>, ticket: nat): (c: Choice)
    requires cs != []
  {
    var start := RingStart(ticket, |cs|);
    if start < 0 then Crash
    else
      match RingScan(cs, start, 0)
      case Some(i) => Index(i)
      case None => if AnyAvailable(cs) then Full else Index(start)
  }

  /** least_requests after `k` endpoints: the least load seen, -1 for none, and where it was. */
  function LeastScan(cs: seq<Cand>, k: nat): (r: (int, nat))
    requires k <= |cs|
  {
    if k == 0 then (-1, 0)
    else
      var (min, sel) := LeastScan(cs, k - 1);
      if Eligible(cs[k - 1]) && (min == -1 || cs[k - 1].load < min) then (cs[k - 1].load, k - 1) else (min, sel)
  }

  /** The eligible positions among the first `k`, in order. */
  function EligibleAmong(cs: seq<Cand>, k: nat): (found: seq<nat>)
    requires k <= |cs|
  {
    if k == 0 then []
    else if Eligible(cs[k - 1]) then EligibleAmong(cs, k - 1) + [k - 1]
    else EligibleAmong(cs, k - 1)
  }

  /** The policy's choice. `draw` is the random source. */
  function Choose(policy: Policy, cs: seq<Cand>, ticket: nat, draw: nat): (c: Choice) {
    if cs == [] then Unlisted
    else
      match policy
      case RoundRobin => Ring(cs, ticket)
      case LeastRequests =>
        var (min, sel) := LeastScan(cs, |cs|);
        if min != -1 then Index(sel) else Ring(cs, ticket)
      case Random =>
        var under := EligibleAmong(cs, |cs|);
        if under != [] then Index(under[draw % |under|])
        else if AnyAvailable(cs) then Full
        else Index(draw % |cs|)
  }

  /** The policy took a ticket. */
  predicate TakesTicket(policy: Policy, cs: seq<Cand>) {
    cs != [] && (policy == RoundRobin || (policy == LeastRequests && LeastScan(cs, |cs|).0 == -1))
  }

  // ----- The cluster -----

  /** isAvailable: an address without an entry is available. */
  predicate Available(state: map<Addr, Entry>, a: Addr, now: int) {
    a in state ==> !state[a].active.unhealthy && !Health.Ejected(state[a].passive, now)
  }

  /** underEndpointCap. */
  predicate BelowCap(state: map<Addr, Entry>, epMax: int, a: Addr) {
    epMax <= 0 || (a in state ==> state[a].inFlight < epMax)
  }

  function LoadOf(state: map<Addr, Entry>, a: Addr): (n: int) {
    if a in state then state[a].inFlight else 0
  }

  /** What a snapshot of the list shows. */
  function Show(eps: seq<Addr>, state: map<Addr, Entry>, epMax: int, now: int): (cs: seq<Cand>)
    ensures |cs| == |eps|
  {
    seq(|eps|, i requires 0 <= i < |eps| =>
      Cand(Available(state, eps[i], now), BelowCap(state, epMax, eps[i]), LoadOf(state, eps[i])))
  }

  class Cluster {
    const policy: Policy
    const epMax: int
    var eps: seq<Addr>
    var state: map<Addr, Entry>
    var rr: nat

    constructor (policy: Policy, epMax: int, eps: seq<Addr>, state: map<Addr, Entry>)
      ensures this.policy == policy && this.epMax == epMax && this.eps == eps && this.state == state && rr == 0
    {
      this.policy, this.epMax, this.eps, this.state, this.rr := policy, epMax, eps, state, 0;
    }

    predicate IsAvailable(a: Addr, now: int)
      reads `state
    {
      Available(state, a, now)
    }

    predicate UnderCap(a: Addr)
      reads `state
    {
      BelowCap(state, epMax, a)
    }

    function Load(a: Addr): (n: int)
      reads `state
    {
      LoadOf(state, a)
    }

    function View(now: int): (cs: seq<Cand>)
      reads `eps, `state
      ensures |cs| == |eps|
    {
      Show(eps, state, epMax, now)
    }

    method PickRing(now: int) returns (c: Choice)
      requires eps != [] && rr < TWO_64
      modifies this`rr
      ensures c == Ring(View(now), old(rr)) && rr == (old(rr) + 1) % TWO_64
    {
      hide At, RingStart;
      ghost var cs := View(now);
      var n := |eps|;
      var start := RingStart(rr, n);
      rr := (rr + 1) % TWO_64;
      if start < 0 {
        return Crash;
      }
      var anyHealthy, i := false, 0;
      while i < n
        invariant i <= n && RingScan(cs, start, 0) == RingScan(cs, start, i)
        invariant anyHealthy <==> exists j :: 0 <= j < i && cs[At(start, j, n)].available
      {
        var idx := At(start, i, n);
        if IsAvailable(eps[idx], now) {
          anyHealthy := true;
          if UnderCap(eps[idx]) {
            return Index(idx);
          }
        }
        i := i + 1;
      }
      RingCovers(cs, start);
      return if anyHealthy then Full else Index(start);
    }

    method PickLeast(now: int) returns (c: Option<nat>)
      ensures c == var (min, sel) := LeastScan(View(now), |eps|); if min != -1 then Some(sel) else None
    {
      ghost var cs := View(now);
      var min, sel := -1, 0;
      for k := 0 to |eps|
        invariant (min, sel) == LeastScan(cs, k)
      {
        if IsAvailable(eps[k], now) {
          var cur := Load(eps[k]);
          if UnderCap(eps[k]) && (min == -1 || cur < min) {
            min, sel := cur, k;
          }
        }
      }
      return if min != -1 then Some(sel) else None;
    }

    method PickRandom(now: int, draw: nat) returns (c: Choice)
      requires eps != []
      ensures c == Choose(Random, View(now), 0, draw)
    {
      ghost var cs := View(now);
      var healthy, under: seq<nat> := 0, [];
      for k := 0 to |eps|
        invariant under == EligibleAmong(cs, k)
        invariant healthy > 0 <==> exists j :: 0 <= j < k && cs[j].available
      {
        if IsAvailable(eps[k], now) {
          healthy := healthy + 1;
          if UnderCap(eps[k]) {
            under := under + [k];
          }
        }
      }
      if |under| > 0 {
        return Index(under[draw % |under|]);
      }
      return if healthy == 0 then Index(draw % |eps|) else Full;
    }

    /** Pick: the policy's choice on what the cluster shows now. */
    method Pick(now: int, draw: nat) returns (c: Choice)
      requires rr < TWO_64
      modifies this`rr
      ensures c == Choose(policy, View(now), old(rr), draw)
      ensures rr == if TakesTicket(policy, View(now)) then (old(rr) + 1) % TWO_64 else old(rr)
    {
      hide Ring, LeastScan, EligibleAmong;
      if eps == [] {
        return Unlisted;
      }
      match policy
      case Random =>
        c := PickRandom(now, draw);
      case RoundRobin =>
        c := PickRing(now);
      case LeastRequests =>
        var best := PickLeast(now);
        if best.Some? {
          return Index(best.value);
        }
        c := PickRing(now);
    }
  }

  /** The offset at which the ring from `start` reaches position `i`. */
  function OffsetOf(start: nat, i: nat, n: nat): (j: nat)
    requires start < n && i < n
    ensures j < n && At(start, j, n) == i
  {
    var j := if i >= start then i - start else i - start + n;
    DivUnique(start + j, if i >= start then 0 else 1, i, n);
    j
  }

  /** From any start the ring visits every position. */
  lemma RingCovers(cs: seq<Cand>, start: nat)
    requires start < |cs|
    ensures AnyAvailable(cs) <==> exists j :: 0 <= j < |cs| && cs[At(start, j, |cs|)].available
  {
    hide At;
    if AnyAvailable(cs) {
      var i :| 0 <= i < |cs| && cs[i].available;
      assert cs[At(start, OffsetOf(start, i, |cs|), |cs|)].available;
    }
  }

  // ----- What every policy promises -----

  predicate AnyEligible(cs: seq<Cand>) {
    exists i :: 0 <= i < |cs| && Eligible(cs[i])
  }

  /** The ring chose position `i`: eligible, and every position it passed before was not. */
  predicate FirstInRing(cs: seq<Cand>, start: nat, i: nat)
    requires cs != []
  {
    exists k :: 0 <= k < |cs| && i == At(start, k, |cs|) && Eligible(cs[i])
                && forall j :: 0 <= j < k ==> !Eligible(cs[At(start, j, |cs|)])
  }

  lemma {:induction false} RingScanSound(cs: seq<Cand>, start: nat, i: nat)
    requires i <= |cs| && cs != [] && forall j :: 0 <= j < i ==> !Eligible(cs[At(start, j, |cs|)])
    ensures match RingScan(cs, start, i)
            case Some(p) => p < |cs| && FirstInRing(cs, start, p)
            case None => forall j :: 0 <= j < |cs| ==> !Eligible(cs[At(start, j, |cs|)])
    decreases |cs| - i
  {
    hide At;
    if i < |cs| && !Eligible(cs[At(start, i, |cs|)]) {
      RingScanSound(cs, start, i + 1);
    }
  }

  /** The outcome class of a choice: it does not depend on the policy. */
  predicate RightClass(cs: seq<Cand>, c: Choice) {
    if cs == [] then c == Unlisted
    else if AnyEligible(cs) then c.Index? && c.i < |cs| && Eligible(cs[c.i])
    else if AnyAvailable(cs) then c == Full
    else c.Index? && c.i < |cs|
  }

  lemma RingClass(cs: seq<Cand>, ticket: nat)
    requires cs != [] && RingStart(ticket, |cs|) >= 0
    ensures RightClass(cs, Ring(cs, ticket))
    ensures AnyEligible(cs) ==> Ring(cs, ticket).Index? && FirstInRing(cs, RingStart(ticket, |cs|), Ring(cs, ticket).i)
    ensures !AnyAvailable(cs) ==> Ring(cs, ticket) == Index(RingStart(ticket, |cs|))
  {
    hide At, RingStart;
    var start := RingStart(ticket, |cs|);
    RingScanSound(cs, start, 0);
    if RingScan(cs, start, 0).None? {
      forall i | 0 <= i < |cs| ensures !Eligible(cs[i]) {
        assert At(start, OffsetOf(start, i, |cs|), |cs|) == i;
      }
    }
  }

  lemma {:induction false} EligibleAmongExact(cs: seq<Cand>, k: nat)
    requires k <= |cs|
    ensures forall x :: x in EligibleAmong(cs, k) <==> 0 <= x < k && Eligible(cs[x])
  {
    if k > 0 {
      EligibleAmongExact(cs, k - 1);
    }
  }

  /** `sel` is the earliest position of the least load among the eligible ones below `k`. */
  predicate EarliestLeast(cs: seq<Cand>, k: nat, sel: nat)
    requires k <= |cs|
  {
    && sel < k && Eligible(cs[sel])
    && (forall i :: 0 <= i < k && Eligible(cs[i]) ==> cs[sel].load <= cs[i].load)
    && (forall i :: 0 <= i < sel && Eligible(cs[i]) ==> cs[sel].load < cs[i].load)
  }

  /** No eligible endpoint shows the sentinel as its load. */
  predicate NoSentinel(cs: seq<Cand>) {
    forall i :: 0 <= i < |cs| && Eligible(cs[i]) ==> cs[i].load != -1
  }

  lemma {:induction false} LeastScanExact(cs: seq<Cand>, k: nat)
    requires k <= |cs| && NoSentinel(cs)
    ensures var (min, sel) := LeastScan(cs, k);
            if min == -1 then forall i :: 0 <= i < k ==> !Eligible(cs[i])
            else EarliestLeast(cs, k, sel) && min == cs[sel].load
  {
    if k > 0 {
      LeastScanExact(cs, k - 1);
    }
  }

  /** On one snapshot all policies agree on the class of the outcome, for tickets below 2^63. */
  lemma PoliciesAgree(policy: Policy, cs: seq<Cand>, ticket: nat, draw: nat)
    requires ticket < TWO_63 && NoSentinel(cs)
    ensures RightClass(cs, Choose(policy, cs, ticket, draw))
    ensures policy == LeastRequests && AnyEligible(cs) ==>
              Choose(policy, cs, ticket, draw).Index? && EarliestLeast(cs, |cs|, Choose(policy, cs, ticket, draw).i)
  {
    if cs != [] {
      hide At, RingStart, Ring;
      StartInRange(ticket, |cs|);
      RingClass(cs, ticket);
      LeastScanExact(cs, |cs|);
      EligibleAmongExact(cs, |cs|);
      var under := EligibleAmong(cs, |cs|);
      if AnyEligible(cs) {
        var i :| 0 <= i < |cs| && Eligible(cs[i]);
        assert i in under;
      }
      if under != [] {
        assert under[draw % |under|] in under;
      }
    }
  }

  lemma StartInRange(ticket: nat, n: nat)
    requires n >= 1 && ticket < TWO_63
    ensures RingStart(ticket, n) == ticket % n >= 0
  {
  }

  /** The ring crashes exactly on tickets of 2^63 and above whose distance to 2^64 the list's length does not divide. */
  lemma CrashExactly(cs: seq<Cand>, ticket: nat)
    requires cs != [] && ticket < TWO_64
    ensures Ring(cs, ticket) == Crash <==> ticket >= TWO_63 && (TWO_64 - ticket) % |cs| != 0
  {
    hide RingScan;
    if ticket >= TWO_63 {
      assert Wrap64(ticket) == ticket - TWO_64;
    }
  }

  /** The sentinel does collide: a load of -1 makes the scan forget its best endpoint. */
  lemma SentinelCollides()
    ensures var cs := [Cand(true, true, -1), Cand(true, true, 5)];
            Choose(LeastRequests, cs, 0, 0) == Index(1) && !EarliestLeast(cs, 2, 1)
  {
    var cs := [Cand(true, true, -1), Cand(true, true, 5)];
    assert LeastScan(cs, 0) == (-1, 0);
    assert LeastScan(cs, 1) == (-1, 0);
    assert LeastScan(cs, 2) == (5, 1);
    assert Eligible(cs[0]);
  }

  /** Without a per-endpoint cap no policy reports missing capacity, and a listed endpoint is always found. */
  lemma NoCapNoWait(policy: Policy, eps: seq<Addr>, state: map<Addr, Entry>, epMax: int, now: int, ticket: nat, draw: nat)
    requires epMax <= 0 && eps != [] && ticket < TWO_63
    requires forall a :: a in state ==> state[a].inFlight >= 0
    ensures Choose(policy, Show(eps, state, epMax, now), ticket, draw).Index?
  {
    var cs := Show(eps, state, epMax, now);
    PoliciesAgree(policy, cs, ticket, draw);
    assert AnyAvailable(cs) ==> AnyEligible(cs) by {
      if AnyAvailable(cs) {
        var i :| 0 <= i < |cs| && cs[i].available;
        assert Eligible(cs[i]);
      }
    }
  }

  // ----- Round-robin fairness -----

  /** With everything eligible a pick is its ticket modulo the list's length. */
  lemma AllEligiblePick(cs: seq<Cand>, ticket: nat)
    requires cs != [] && ticket < TWO_63 && forall i :: 0 <= i < |cs| ==> Eligible(cs[i])
    ensures Ring(cs, ticket) == Index(ticket % |cs|)
  {
    StartInRange(ticket, |cs|);
    DivUnique(ticket % |cs|, 0, ticket % |cs|, |cs|);
    assert At(ticket % |cs|, 0, |cs|) == ticket % |cs|;
  }

  /** How many of the `k` picks from ticket `t` on fell on position `p`. */
  function Picks(cs: seq<Cand>, t: nat, k: nat, p: nat): (n: nat)
    requires cs != []
  {
    if k == 0 then 0 else Picks(cs, t, k - 1, p) + if Ring(cs, t + k - 1) == Index(p) then 1 else 0
  }

  /** Tickets below `m` that belong to position `p`. */
  function Below(m: nat, n: nat, p: nat): (count: nat)
    requires n >= 1
  {
    m / n + if m % n > p then 1 else 0
  }

  lemma BelowSucc(m: nat, n: nat, p: nat)
    requires n >= 1 && p < n
    ensures Below(m + 1, n, p) == Below(m, n, p) + if m % n == p then 1 else 0
  {
    var q, r := m / n, m % n;
    assert m == q * n + r;
    if r + 1 == n {
      assert m + 1 == (q + 1) * n;
      DivUnique(m + 1, q + 1, 0, n);
    } else {
      DivUnique(m + 1, q, r + 1, n);
    }
  }

  lemma {:induction false} PicksAreTickets(cs: seq<Cand>, t: nat, k: nat, p: nat)
    requires p < |cs| && t + k <= TWO_63 && forall i :: 0 <= i < |cs| ==> Eligible(cs[i])
    ensures Picks(cs, t, k, p) == Below(t + k, |cs|, p) - Below(t, |cs|, p)
  {
    if k > 0 {
      hide Below, Ring;
      PicksAreTickets(cs, t, k - 1, p);
      AllEligiblePick(cs, t + k - 1);
      BelowSucc(t + k - 1, |cs|, p);
    }
  }

  lemma BelowSpread(t: nat, k: nat, n: nat, p: nat)
    requires n >= 1 && p < n
    ensures k / n <= Below(t + k, n, p) - Below(t, n, p) <= k / n + if k % n == 0 then 0 else 1
  {
    var a, r, q, s := t / n, t % n, k / n, k % n;
    assert t == a * n + r && k == q * n + s;
    if r + s < n {
      assert t + k == (a + q) * n + (r + s);
      DivUnique(t + k, a + q, r + s, n);
    } else {
      assert t + k == (a + q + 1) * n + (r + s - n);
      DivUnique(t + k, a + q + 1, r + s - n, n);
    }
  }

  /** Any `k` consecutive picks give every position its floor or ceiling share, and `n` picks exactly one. */
  lemma RoundRobinIsFair(cs: seq<Cand>, t: nat, k: nat, p: nat)
    requires p < |cs| && t + k <= TWO_63 && forall i :: 0 <= i < |cs| ==> Eligible(cs[i])
    ensures k / |cs| <= Picks(cs, t, k, p) <= k / |cs| + if k % |cs| == 0 then 0 else 1
    ensures k == |cs| ==> Picks(cs, t, k, p) == 1
  {
    hide Below;
    PicksAreTickets(cs, t, k, p);
    BelowSpread(t, k, |cs|, p);
    DivUnique(|cs|, 1, 0, |cs|);
  }

  // ----- Tickets and draws -----

  /** A ticket is taken exactly by round robin, and by least_requests when nothing is eligible. */
  lemma TicketsExactly(policy: Policy, cs: seq<Cand>)
    requires NoSentinel(cs)
    ensures TakesTicket(policy, cs) <==>
            cs != [] && (policy == RoundRobin || (policy == LeastRequests && !AnyEligible(cs)))
  {
    LeastScanExact(cs, |cs|);
  }

  /** How many of the first `k` are eligible. */
  function CountEligible(cs: seq<Cand>, k: nat): (n: nat)
    requires k <= |cs|
  {
    if k == 0 then 0 else CountEligible(cs, k - 1) + if Eligible(cs[k - 1]) then 1 else 0
  }

  lemma {:induction false} EligibleInOrder(cs: seq<Cand>, k: nat)
    requires k <= |cs|
    ensures var under := EligibleAmong(cs, k);
            && |under| == CountEligible(cs, k)
            && (forall x :: 0 <= x < |under| ==> under[x] < k && Eligible(cs[under[x]]))
            && (forall x, y :: 0 <= x < y < |under| ==> under[x] < under[y])
  {
    if k > 0 {
      EligibleInOrder(cs, k - 1);
    }
  }

  lemma RandomChoice(cs: seq<Cand>, d: nat)
    requires AnyEligible(cs)
    ensures var under := EligibleAmong(cs, |cs|);
            |under| == CountEligible(cs, |cs|) > 0 && Choose(Random, cs, 0, d) == Index(under[d % |under|])
  {
    EligibleInOrder(cs, |cs|);
    EligibleAmongExact(cs, |cs|);
    var x :| 0 <= x < |cs| && Eligible(cs[x]);
    assert x in EligibleAmong(cs, |cs|);
  }

  lemma DistinctPlaces(under: seq<nat>, x: nat, y: nat)
    requires x < |under| && y < |under| && forall x, y :: 0 <= x < y < |under| ==> under[x] < under[y]
    ensures under[x] == under[y] <==> x == y
  {
  }

  /** Two draws pick the same endpoint exactly when they leave the same remainder by the number of eligible ones. */
  lemma RandomIsEven(cs: seq<Cand>, d: nat, e: nat)
    requires AnyEligible(cs)
    ensures CountEligible(cs, |cs|) > 0
    ensures Choose(Random, cs, 0, d) == Choose(Random, cs, 0, e) <==>
            d % CountEligible(cs, |cs|) == e % CountEligible(cs, |cs|)
  {
    RandomChoice(cs, d);
    RandomChoice(cs, e);
    EligibleInOrder(cs, |cs|);
    hide *;
    var under := EligibleAmong(cs, |cs|);
    DistinctPlaces(under, d % |under|, e % |under|);
  }

  /** The random policy picks every eligible endpoint for some draw. */
  lemma RandomReachesAll(cs: seq<Cand>, i: nat) returns (draw: nat)
    requires i < |cs| && Eligible(cs[i])
    ensures Choose(Random, cs, 0, draw) == Index(i)
  {
    EligibleAmongExact(cs, |cs|);
    var under := EligibleAmong(cs, |cs|);
    assert i in under;
    draw :| draw < |under| && under[draw] == i;
    RandomChoice(cs, draw);
    hide *;
    assert draw % |under| == draw;
  }

  // ----- Picks against the health histories -----

  /** What has been reported of an endpoint and what its probes said. */
  datatype History = History(reports: seq<Health.Outcome>, probes: seq<bool>)

  /** The entries are what the histories make them. */
  predicate Kept(c: Health.Thresholds, state: map<Addr, Entry>, hist: map<Addr, History>) {
    && state.Keys == hist.Keys
    && forall a :: a in state ==>
         state[a].passive == Health.Marks(c, hist[a].reports) && state[a].active == Health.Probes(c, hist[a].probes)
  }

  /** The latest trip ejects the endpoint still, or its last decisive probes failed. */
  ghost predicate Sick(c: Health.Thresholds, h: History, now: int)
    requires Health.Configured(c)
  {
    || (exists i: nat :: Health.LastTrip(c, h.reports, i) && now < h.reports[i].at + c.ejectFor)
    || (exists i: nat :: Health.Condemned(c, h.probes, i))
  }

  /** An address nobody has reported on counts as well. */
  ghost predicate Well(c: Health.Thresholds, hist: map<Addr, History>, a: Addr, now: int)
    requires Health.Configured(c)
  {
    a in hist ==> !Sick(c, hist[a], now)
  }

  /** Well, and with room under the per-endpoint cap. */
  ghost predicate Fit(
      c: Health.Thresholds, hist: map<Addr, History>, state: map<Addr, Entry>, epMax: int, a: Addr, now: int)
    requires Health.Configured(c)
  {
    Well(c, hist, a, now) && (epMax > 0 && a in state ==> state[a].inFlight < epMax)
  }

  lemma AvailableExactly(c: Health.Thresholds, state: map<Addr, Entry>, hist: map<Addr, History>, a: Addr, now: int)
    requires Health.Configured(c) && Kept(c, state, hist)
    ensures Available(state, a, now) <==> Well(c, hist, a, now)
  {
    if a in state {
      Health.EjectedByLatestTrip(c, hist[a].reports, now);
      Health.ActiveFollowsHistory(c, hist[a].probes);
    }
  }

  lemma ShowsFitness(
      c: Health.Thresholds, eps: seq<Addr>, state: map<Addr, Entry>, hist: map<Addr, History>, epMax: int, now: int)
    requires Health.Configured(c) && Kept(c, state, hist)
    ensures var cs := Show(eps, state, epMax, now);
            forall i :: 0 <= i < |eps| ==>
              && (cs[i].available <==> Well(c, hist, eps[i], now))
              && (Eligible(cs[i]) <==> Fit(c, hist, state, epMax, eps[i], now))
              && (eps[i] in state ==> cs[i].load == state[eps[i]].inFlight) && (eps[i] !in state ==> cs[i].load == 0)
  {
    hide Kept, Well, Available;
    forall i | 0 <= i < |eps| ensures Available(state, eps[i], now) <==> Well(c, hist, eps[i], now) {
      AvailableExactly(c, state, hist, eps[i], now);
    }
  }

  /** Whatever the policy: an endpoint that is well and has room, if any is listed; no capacity exactly when some are well
      and none has room; and some listed endpoint when none is well. */
  lemma PicksTheFit(
      policy: Policy, c: Health.Thresholds, eps: seq<Addr>, state: map<Addr, Entry>, hist: map<Addr, History>,
      epMax: int, now: int, ticket: nat, draw: nat)
    requires Health.Configured(c) && Kept(c, state, hist) && ticket < TWO_63
    requires forall a :: a in state ==> state[a].inFlight >= 0
    ensures var pick := Choose(policy, Show(eps, state, epMax, now), ticket, draw);
            if eps == [] then pick == Unlisted
            else if exists i :: 0 <= i < |eps| && Fit(c, hist, state, epMax, eps[i], now) then
              pick.Index? && pick.i < |eps| && Fit(c, hist, state, epMax, eps[pick.i], now)
            else if exists i :: 0 <= i < |eps| && Well(c, hist, eps[i], now) then pick == Full
            else pick.Index? && pick.i < |eps|
  {
    var cs := Show(eps, state, epMax, now);
    ShowsFitness(c, eps, state, hist, epMax, now);
    assert NoSentinel(cs);
    PoliciesAgree(policy, cs, ticket, draw);
    hide Choose, Show, Fit, Well, Kept, Eligible;
    assert AnyEligible(cs) <==> exists i :: 0 <= i < |eps| && Fit(c, hist, state, epMax, eps[i], now) by {
      AnyMeans(c, eps, state, hist, epMax, now, cs);
    }
    assert AnyAvailable(cs) <==> exists i :: 0 <= i < |eps| && Well(c, hist, eps[i], now) by {
      AnyMeans(c, eps, state, hist, epMax, now, cs);
    }
  }

  lemma AnyMeans(
      c: Health.Thresholds, eps: seq<Addr>, state: map<Addr, Entry>, hist: map<Addr, History>, epMax: int, now: int,
      cs: seq<Cand>)
    requires Health.Configured(c) && |cs| == |eps|
    requires forall i :: 0 <= i < |eps| ==>
               && (cs[i].available <==> Well(c, hist, eps[i], now))
               && (Eligible(cs[i]) <==> Fit(c, hist, state, epMax, eps[i], now))
    ensures AnyEligible(cs) <==> exists i :: 0 <= i < |eps| && Fit(c, hist, state, epMax, eps[i], now)
    ensures AnyAvailable(cs) <==> exists i :: 0 <= i < |eps| && Well(c, hist, eps[i], now)
  {
    hide Fit, Well, Eligible;
    if i :| 0 <= i < |eps| && Fit(c, hist, state, epMax, eps[i], now) {
      assert Eligible(cs[i]);
    }
    if i :| 0 <= i < |eps| && Well(c, hist, eps[i], now) {
      assert cs[i].available;
    }
  }

  /** How far position `i` lies ahead of `s` on a ring of `n`. */
  function Distance(s: nat, i: nat, n: nat): (d: nat)
    requires s < n && i < n
  {
    if i >= s then i - s else i + n - s
  }

  lemma AtDistance(s: nat, k: nat, n: nat)
    requires s < n && k < n
    ensures Distance(s, At(s, k, n), n) == k
  {
    DivUnique(s + k, if s + k < n then 0 else 1, if s + k < n then s + k else s + k - n, n);
  }

  lemma OffsetIsDistance(s: nat, i: nat, n: nat)
    requires s < n && i < n
    ensures At(s, Distance(s, i, n), n) == i
  {
    DivUnique(s + Distance(s, i, n), if i >= s then 0 else 1, i, n);
  }

  /** The eligible position the ring picks is the nearest one ahead of its ticket. */
  lemma RingPicksNearest(cs: seq<Cand>, ticket: nat)
    requires cs != [] && ticket < TWO_63 && AnyEligible(cs)
    ensures var n, c := |cs|, Ring(cs, ticket);
            && c.Index? && c.i < n && Eligible(cs[c.i])
            && forall i :: 0 <= i < n && Eligible(cs[i]) ==>
                 Distance(ticket % n, c.i, n) <= Distance(ticket % n, i, n)
  {
    var n := |cs|;
    StartInRange(ticket, n);
    RingClass(cs, ticket);
    var s, p := ticket % n, Ring(cs, ticket).i;
    hide At, RingStart, Ring;
    var k :| 0 <= k < n && p == At(s, k, n) && Eligible(cs[p]) && forall j :: 0 <= j < k ==> !Eligible(cs[At(s, j, n)]);
    AtDistance(s, k, n);
    forall i | 0 <= i < n && Eligible(cs[i]) ensures Distance(s, p, n) <= Distance(s, i, n) {
      OffsetIsDistance(s, i, n);
    }
  }

  /** Round robin picks the nearest endpoint ahead of its ticket that is well and has room, and falls back on the ticket's
      own position. */
  lemma RoundRobinPicks(
      c: Health.Thresholds, eps: seq<Addr>, state: map<Addr, Entry>, hist: map<Addr, History>, epMax: int, now: int,
      ticket: nat, draw: nat)
    requires Health.Configured(c) && Kept(c, state, hist) && ticket < TWO_63 && eps != []
    ensures var n, pick := |eps|, Choose(RoundRobin, Show(eps, state, epMax, now), ticket, draw);
            && (forall i :: 0 <= i < n && Fit(c, hist, state, epMax, eps[i], now) ==>
                  && pick.Index? && pick.i < n && Fit(c, hist, state, epMax, eps[pick.i], now)
                  && Distance(ticket % n, pick.i, n) <= Distance(ticket % n, i, n))
            && ((forall i :: 0 <= i < n ==> !Well(c, hist, eps[i], now)) ==> pick == Index(ticket % n))
  {
    var cs := Show(eps, state, epMax, now);
    ShowsFitness(c, eps, state, hist, epMax, now);
    StartInRange(ticket, |cs|);
    RingClass(cs, ticket);
    if AnyEligible(cs) {
      RingPicksNearest(cs, ticket);
    }
    hide Ring, Show, Fit, Well, Kept, Eligible, Distance;
    assert (exists i :: 0 <= i < |eps| && Fit(c, hist, state, epMax, eps[i], now)) ==> AnyEligible(cs) by {
      AnyMeans(c, eps, state, hist, epMax, now, cs);
    }
  }

  /** least_requests picks the earliest of the least loaded endpoints that are well and have room. */
  lemma LeastRequestsPicks(
      c: Health.Thresholds, eps: seq<Addr>, state: map<Addr, Entry>, hist: map<Addr, History>, epMax: int, now: int,
      ticket: nat, draw: nat, i: nat)
    requires Health.Configured(c) && Kept(c, state, hist) && ticket < TWO_63
    requires forall a :: a in state ==> state[a].inFlight >= 0
    requires i < |eps| && Fit(c, hist, state, epMax, eps[i], now)
    ensures var pick := Choose(LeastRequests, Show(eps, state, epMax, now), ticket, draw);
            && pick.Index? && pick.i < |eps| && Fit(c, hist, state, epMax, eps[pick.i], now)
            && var mine, its := if eps[pick.i] in state then state[eps[pick.i]].inFlight else 0,
                                if eps[i] in state then state[eps[i]].inFlight else 0;
               mine <= its && (i < pick.i ==> mine < its)
  {
    var cs := Show(eps, state, epMax, now);
    ShowsFitness(c, eps, state, hist, epMax, now);
    assert NoSentinel(cs);
    assert Eligible(cs[i]);
    PoliciesAgree(LeastRequests, cs, ticket, draw);
  }

  /** With nobody well the random policy picks the position of its draw. */
  lemma RandomFallsBack(
      c: Health.Thresholds, eps: seq<Addr>, state: map<Addr, Entry>, hist: map<Addr, History>, epMax: int, now: int,
      ticket: nat, draw: nat)
    requires Health.Configured(c) && Kept(c, state, hist) && eps != []
    requires forall i :: 0 <= i < |eps| ==> !Well(c, hist, eps[i], now)
    ensures Choose(Random, Show(eps, state, epMax, now), ticket, draw) == Index(draw % |eps|)
  {
    var cs := Show(eps, state, epMax, now);
    ShowsFitness(c, eps, state, hist, epMax, now);
    hide Well, Kept, Show;
    assert forall i :: 0 <= i < |cs| ==> !cs[i].available;
    NoneAmong(cs, |cs|);
  }

  lemma {:induction false} NoneAmong(cs: seq<Cand>, k: nat)
    requires k <= |cs| && forall i :: 0 <= i < |cs| ==> !cs[i].available
    ensures EligibleAmong(cs, k) == []
  {
    if k > 0 {
      NoneAmong(cs, k - 1);
    }
  }
}
