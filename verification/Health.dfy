/** Passive ejection and active health of one endpoint (internal/cluster/manager.go, epState). Times are nanoseconds. */
module Health {
  import opened Prelude

  /** NewManager's thresholds: each is at least one. */
  datatype Thresholds = Thresholds(consecutive: nat, ejectFor: int, healthy: nat, unhealthy: nat)

  predicate Configured(c: Thresholds) {
    c.consecutive >= 1 && c.healthy >= 1 && c.unhealthy >= 1
  }

  /** The most seconds a time.Duration holds. */
  const MAX_SECONDS: int := 9_223_372_036

  /** The defaults apply to every setting that is not positive; the ejection time is a time.Duration, which wraps. */
  function Thresholded(consecutive: int, ejectSeconds: int, healthy: int, unhealthy: int): (c: Thresholds)
    ensures Configured(c)
    ensures c.consecutive == consecutive <==> consecutive > 0
    ensures c.healthy == healthy <==> healthy > 0
    ensures c.unhealthy == unhealthy <==> unhealthy > 0
    ensures consecutive <= 0 ==> c.consecutive == 3
    ensures healthy <= 0 ==> c.healthy == 1
    ensures unhealthy <= 0 ==> c.unhealthy == 3
    ensures ejectSeconds <= 0 ==> c.ejectFor == 30 * 1_000_000_000
    ensures ejectSeconds > 0 ==> (c.ejectFor == ejectSeconds * 1_000_000_000 <==> ejectSeconds <= MAX_SECONDS)
    ensures ejectSeconds <= MAX_SECONDS ==> c.ejectFor > 0
  {
    Thresholds(
      if consecutive > 0 then consecutive else 3,
      if ejectSeconds > 0 then Wrap64(ejectSeconds * 1_000_000_000) else 30 * 1_000_000_000,
      if healthy > 0 then healthy else 1,
      if unhealthy > 0 then unhealthy else 3)
  }

  /** A reported outcome of a proxied request. */
  datatype Outcome = Ok | Failed(at: int)

  /** The passive half of an entry; `until` is absent while it is Go's zero time. */
  datatype Passive = Passive(failures: nat, until: Option<int>)

  datatype Active = Active(unhealthy: bool, succ: nat, fail: nat)

  function Mark(c: Thresholds, p: Passive, o: Outcome): (after: Passive) {
    match o
    case Ok => p.(failures := 0)
    case Failed(at) =>
      if p.failures + 1 >= c.consecutive then Passive(0, Some(at + c.ejectFor)) else p.(failures := p.failures + 1)
  }

  function Probe(c: Thresholds, a: Active, ok: bool): (after: Active) {
    if ok then Active(a.unhealthy && a.succ + 1 < c.healthy, a.succ + 1, 0)
    else Active(a.unhealthy || a.fail + 1 >= c.unhealthy, 0, a.fail + 1)
  }

  predicate Ejected(p: Passive, now: int) {
    p.until.Some? && now < p.until.value
  }

  /** An entry, updated in place under the cluster's lock. */
  class EpState {
    var failures: int
    var unhealthyUntil: Option<int>
    var activeUnhealthy: bool
    var consecSucc: int
    var consecFail: int

    predicate Valid()
      reads this
    {
      failures >= 0 && consecSucc >= 0 && consecFail >= 0
    }

    function PassiveView(): (v: Passive)
      reads this
      requires Valid()
    {
      Passive(failures, unhealthyUntil)
    }

    function ActiveView(): (v: Active)
      reads this
      requires Valid()
    {
      Active(activeUnhealthy, consecSucc, consecFail)
    }

    constructor ()
      ensures Valid() && PassiveView() == Passive(0, None) && ActiveView() == Active(false, 0, 0)
    {
      failures, unhealthyUntil, activeUnhealthy, consecSucc, consecFail := 0, None, false, 0, 0;
    }

    method MarkFailure(c: Thresholds, now: int)
      requires Valid()
      modifies this
      ensures Valid() && PassiveView() == Mark(c, old(PassiveView()), Failed(now)) && ActiveView() == old(ActiveView())
    {
      failures := failures + 1;
      if failures >= c.consecutive {
        unhealthyUntil := Some(now + c.ejectFor);
        failures := 0;
      }
    }

    method MarkSuccess(c: Thresholds)
      requires Valid()
      modifies this
      ensures Valid() && PassiveView() == Mark(c, old(PassiveView()), Ok) && ActiveView() == old(ActiveView())
    {
      failures := 0;
    }

    method UpdateActiveHealth(c: Thresholds, ok: bool)
      requires Valid()
      modifies this
      ensures Valid() && ActiveView() == Probe(c, old(ActiveView()), ok) && PassiveView() == old(PassiveView())
    {
      if ok {
        consecSucc := consecSucc + 1;
        consecFail := 0;
        if activeUnhealthy && consecSucc >= c.healthy {
          activeUnhealthy := false;
        }
      } else {
        consecFail := consecFail + 1;
        consecSucc := 0;
        if !activeUnhealthy && consecFail >= c.unhealthy {
          activeUnhealthy := true;
        }
      }
    }

    method IsAvailable(now: int) returns (yes: bool)
      requires Valid()
      ensures yes <==> !ActiveView().unhealthy && !Ejected(PassiveView(), now)
    {
      if activeUnhealthy {
        return false;
      }
      return !(unhealthyUntil.Some? && now < unhealthyUntil.value);
    }
  }

  // ----- Passive ejection against the report history -----

  function Marks(c: Thresholds, h: seq<Outcome>): (p: Passive) {
    if h == [] then Passive(0, None) else Mark(c, Marks(c, h[..|h| - 1]), h[|h| - 1])
  }

  /** The length of the failure run that ends at report `i`. */
  function FailureRun(h: seq<Outcome>, i: nat): (n: nat)
    requires i < |h|
  {
    if h[i].Ok? then 0 else 1 + if i == 0 then 0 else FailureRun(h, i - 1)
  }

  function CurrentRun(h: seq<Outcome>): (n: nat) {
    if h == [] then 0 else FailureRun(h, |h| - 1)
  }

  function Mod(n: nat, k: nat): (r: nat)
    requires k >= 1
  {
    n % k
  }

  /** Report `i` completes a run whose length is a multiple of the threshold. */
  predicate Trips(c: Thresholds, h: seq<Outcome>, i: nat)
    requires Configured(c) && i < |h|
  {
    h[i].Failed? && Mod(FailureRun(h, i), c.consecutive) == 0
  }

  predicate LastTrip(c: Thresholds, h: seq<Outcome>, i: nat)
    requires Configured(c)
  {
    i < |h| && Trips(c, h, i) && forall j :: i < j < |h| ==> !Trips(c, h, j)
  }

  lemma ModSucc(n: nat, k: nat)
    requires k >= 1
    ensures Mod(n + 1, k) == if Mod(n, k) + 1 >= k then 0 else Mod(n, k) + 1
    ensures Mod(0, k) == 0
  {
    var q, r := n / k, n % k;
    assert n == q * k + r;
    if r + 1 == k {
      assert n + 1 == (q + 1) * k;
      DivUnique(n + 1, q + 1, 0, k);
    } else {
      DivUnique(n + 1, q, r + 1, k);
    }
  }

  lemma {:induction false} FailureRunPrefix(h: seq<Outcome>, o: Outcome, i: nat)
    requires i < |h|
    ensures FailureRun(h + [o], i) == FailureRun(h, i)
  {
    if i > 0 {
      FailureRunPrefix(h, o, i - 1);
    }
  }

  /** `failures` is the current run modulo the threshold; the entry is ejected by its latest trip and no other. */
  lemma {:induction false} PassiveFollowsHistory(c: Thresholds, h: seq<Outcome>)
    requires Configured(c)
    ensures Marks(c, h).failures == Mod(CurrentRun(h), c.consecutive)
    ensures Marks(c, h).until.None? <==> forall i :: 0 <= i < |h| ==> !Trips(c, h, i)
    ensures forall i: nat :: LastTrip(c, h, i) ==> Marks(c, h).until == Some(h[i].at + c.ejectFor)
  {
    hide Mod, Trips, LastTrip;
    ModSucc(0, c.consecutive);
    LastTripInRange(c, h);
    if h != [] {
      var n := |h| - 1;
      var g, o := h[..n], h[n];
      assert g + [o] == h;
      PassiveFollowsHistory(c, g);
      ModSucc(CurrentRun(g), c.consecutive);
      LastTripInRange(c, g);
      PassiveStep(c, g, o);
    }
  }

  lemma LastTripInRange(c: Thresholds, h: seq<Outcome>)
    requires Configured(c)
    ensures forall i: nat :: LastTrip(c, h, i) ==> i < |h|
  {
  }

  /** One report: it trips, or the verdict of the earlier ones stands. */
  lemma PassiveStep(c: Thresholds, g: seq<Outcome>, o: Outcome)
    requires Configured(c)
    ensures CurrentRun(g + [o]) == if o.Ok? then 0 else CurrentRun(g) + 1
    ensures Trips(c, g + [o], |g|) <==> o.Failed? && Mod(CurrentRun(g + [o]), c.consecutive) == 0
    ensures forall i :: 0 <= i < |g| ==> (Trips(c, g + [o], i) <==> Trips(c, g, i))
    ensures Trips(c, g + [o], |g|) ==> forall i: nat :: LastTrip(c, g + [o], i) ==> i == |g|
    ensures !Trips(c, g + [o], |g|) ==> forall i: nat :: LastTrip(c, g + [o], i) <==> LastTrip(c, g, i)
  {
    hide Mod;
    forall i | 0 <= i < |g| ensures Trips(c, g + [o], i) <==> Trips(c, g, i) {
      FailureRunPrefix(g, o, i);
    }
    if g != [] {
      FailureRunPrefix(g, o, |g| - 1);
    }
  }

  lemma {:induction false} SomeLastTrip(c: Thresholds, h: seq<Outcome>, n: nat) returns (i: nat)
    requires Configured(c) && n <= |h| && (exists j :: 0 <= j < n && Trips(c, h, j))
    requires forall j :: n <= j < |h| ==> !Trips(c, h, j)
    ensures LastTrip(c, h, i)
  {
    if Trips(c, h, n - 1) {
      i := n - 1;
    } else {
      i := SomeLastTrip(c, h, n - 1);
    }
  }

  /** Ejected at `now` exactly when the latest trip lies less than the ejection time back. */
  lemma EjectedByLatestTrip(c: Thresholds, h: seq<Outcome>, now: int)
    requires Configured(c)
    ensures Ejected(Marks(c, h), now) <==> exists i: nat :: LastTrip(c, h, i) && now < h[i].at + c.ejectFor
  {
    hide Mod;
    PassiveFollowsHistory(c, h);
    if Ejected(Marks(c, h), now) {
      var i := SomeLastTrip(c, h, |h|);
    }
  }

  // ----- Active health against the probe history -----

  function Probes(c: Thresholds, h: seq<bool>): (a: Active) {
    if h == [] then Active(false, 0, 0) else Probe(c, Probes(c, h[..|h| - 1]), h[|h| - 1])
  }

  /** The length of the run of equal verdicts `ok` that ends at probe `i`. */
  function ProbeRun(h: seq<bool>, i: nat, ok: bool): (n: nat)
    requires i < |h|
  {
    if h[i] != ok then 0 else 1 + if i == 0 then 0 else ProbeRun(h, i - 1, ok)
  }

  function CurrentProbeRun(h: seq<bool>, ok: bool): (n: nat) {
    if h == [] then 0 else ProbeRun(h, |h| - 1, ok)
  }

  /** Probe `i` ended a failure run that condemns, and no later probe ended a success run that absolves. */
  predicate Condemned(c: Thresholds, h: seq<bool>, i: nat) {
    && i < |h| && ProbeRun(h, i, false) >= c.unhealthy
    && forall j :: i < j < |h| ==> ProbeRun(h, j, true) < c.healthy
  }

  lemma {:induction false} ProbeRunPrefix(h: seq<bool>, ok: bool, i: nat, kind: bool)
    requires i < |h|
    ensures ProbeRun(h + [ok], i, kind) == ProbeRun(h, i, kind)
  {
    if i > 0 {
      ProbeRunPrefix(h, ok, i - 1, kind);
    }
  }

  lemma CondemnedSnoc(c: Thresholds, h: seq<bool>, ok: bool, i: nat)
    requires i < |h|
    ensures Condemned(c, h + [ok], i) <==> Condemned(c, h, i) && ProbeRun(h + [ok], |h|, true) < c.healthy
  {
    ProbeRunPrefix(h, ok, i, false);
    forall j | 0 <= j < |h| ensures ProbeRun(h + [ok], j, true) == ProbeRun(h, j, true) {
      ProbeRunPrefix(h, ok, j, true);
    }
  }

  /** The counters are the two trailing runs, and the flag is the last decisive run. */
  lemma {:induction false} ActiveFollowsHistory(c: Thresholds, h: seq<bool>)
    requires Configured(c)
    ensures Probes(c, h).succ == CurrentProbeRun(h, true) && Probes(c, h).fail == CurrentProbeRun(h, false)
    ensures Probes(c, h).succ == 0 || Probes(c, h).fail == 0
    ensures Probes(c, h).unhealthy <==> exists i: nat :: Condemned(c, h, i)
  {
    if h != [] {
      var n := |h| - 1;
      var g, ok := h[..n], h[n];
      assert g + [ok] == h;
      ActiveFollowsHistory(c, g);
      if n > 0 {
        ProbeRunPrefix(g, ok, n - 1, true);
        ProbeRunPrefix(g, ok, n - 1, false);
      }
      assert ProbeRun(h, n, true) == if ok then CurrentProbeRun(g, true) + 1 else 0;
      assert ProbeRun(h, n, false) == if ok then 0 else CurrentProbeRun(g, false) + 1;
      forall i: nat | i < n ensures Condemned(c, h, i) <==> Condemned(c, g, i) && ProbeRun(h, n, true) < c.healthy {
        CondemnedSnoc(c, g, ok, i);
      }
      assert Condemned(c, h, n) <==> ProbeRun(h, n, false) >= c.unhealthy;
      if Probes(c, g).unhealthy {
        var i: nat :| Condemned(c, g, i);
        assert ProbeRun(h, n, true) < c.healthy ==> Condemned(c, h, i);
      }
    }
  }
}
