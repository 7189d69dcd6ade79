/** What holds in every reachable state of the interleaved system. */
module Safety {
  import opened Prelude
  import opened Program
  import opened Interleaving
  import Backoff

  /** Slots granted minus slots released, over all requests ever started. */
  function Outstanding(ls: seq<Local>): (n: int) {
    if ls == [] then 0
    else Outstanding(ls[..|ls| - 1]) + ls[|ls| - 1].tally.acquires - ls[|ls| - 1].tally.releases
  }

  lemma {:induction false} OutstandingIsSlots(ls: seq<Local>)
    requires forall l :: l in ls ==> Books(l)
    ensures Outstanding(ls) == Total(Weight.Slots, ls)
  {
    if ls != [] {
      OutstandingIsSlots(ls[..|ls| - 1]);
      assert Books(ls[|ls| - 1]);
    }
  }

  /** The breaker: the raw counter is grants plus rollbacks in progress, grants respect the limit, Release never clamps. */
  lemma BreakerSafe(cfg: Config, eps: seq<Addr>, labs: seq<Label>, w: World)
    requires Reaches(cfg, eps, labs, w)
    ensures w.sh.inflight == Outstanding(w.reqs) + Total(Over, w.reqs)
    ensures cfg.maxRequests > 0 ==> Outstanding(w.reqs) <= cfg.maxRequests
    ensures cfg.maxRequests > 0 ==> w.sh.inflight <= cfg.maxRequests + Total(Over, w.reqs)
    ensures forall l :: l in w.reqs ==> !l.pc.Clamping?
  {
    Always(cfg, eps, labs, w);
    OutstandingIsSlots(w.reqs);
  }

  /** The endpoints: in-flight counts are never negative and together never exceed the slots handed out. */
  lemma EndpointsSafe(cfg: Config, eps: seq<Addr>, labs: seq<Label>, w: World)
    requires Reaches(cfg, eps, labs, w)
    ensures forall r :: 0 <= r < |w.sh.cells| ==> w.sh.cells[r] >= 0
    ensures Sum(w.sh.cells) <= Outstanding(w.reqs)
    ensures cfg.maxRequests > 0 ==> Sum(w.sh.cells) <= cfg.maxRequests
    ensures forall a :: a in w.sh.eps ==> a in w.sh.state
    ensures forall l :: l in w.reqs ==> !l.pc.EpClamp?
  {
    Always(cfg, eps, labs, w);
    OutstandingIsSlots(w.reqs);
    forall l | l in w.reqs ensures W(Aloft, l) <= W(Weight.Slots, l) {
    }
    TotalLe(Aloft, Weight.Slots, w.reqs);
  }

  /** The pending queue: one token a waiter, never more than the bound, and a receive always finds its token. */
  lemma QueueSafe(cfg: Config, eps: seq<Addr>, labs: seq<Label>, w: World)
    requires Reaches(cfg, eps, labs, w)
    ensures w.sh.pending == Total(Waiter, w.reqs)
    ensures w.sh.pending > 0 ==> w.sh.pending <= cfg.maxPending
    ensures forall l :: l in w.reqs && l.pc.Leave? ==> Enabled(cfg, w.sh, l.pc, Receive)
    ensures forall l :: l in w.reqs ==> l.tally.entered - l.tally.left == B2I(Waiting(l.pc))
  {
    Always(cfg, eps, labs, w);
    forall i | 0 <= i < |w.reqs| && w.reqs[i].pc.Leave? ensures Enabled(cfg, w.sh, w.reqs[i].pc, Receive) {
      TotalUpdate(Waiter, w.reqs, i, w.reqs[i]);
    }
  }

  // ----- Every request of an interleaving is a run of the step program -----

  lemma {:induction false} RequestIsRun(cfg: Config, eps: seq<Addr>, labs: seq<Label>, w: World, i: nat)
      returns (acts: seq<Action>)
    requires Reaches(cfg, eps, labs, w) && i < |w.reqs|
    ensures Run(Start(w.reqs[i].plan), acts) == Some(w.reqs[i])
  {
    hide Enabled, NextPc, NextTally, NextAttempt, NextErr, NextStatus, Effect, AddEntries, AddEntry;
    var n := |labs| - 1;
    var before := Exec(cfg, Boot(eps), labs[..n]).value;
    if labs[n].Act? && labs[n].id == i {
      acts := RequestIsRun(cfg, eps, labs[..n], before, i);
      acts := acts + [labs[n].action];
      assert acts[..|acts| - 1] + [labs[n].action] == acts;
    } else if i < |before.reqs| {
      acts := RequestIsRun(cfg, eps, labs[..n], before, i);
    } else {
      acts := [];
    }
  }

  /** Whatever the others do, a request backs off for no longer in all than its policy allows, and calls no more often. */
  lemma EveryRequestKeepsItsLedgers(cfg: Config, eps: seq<Addr>, labs: seq<Label>, w: World, i: nat)
    requires Reaches(cfg, eps, labs, w) && i < |w.reqs|
    ensures var l := w.reqs[i];
            && (Backoff.Ceiling(l.plan.backoffMax) < TWO_63 ==>
                  l.backedOff <= (l.plan.limit - 1) * Backoff.Ceiling(l.plan.backoffMax))
            && (l.pc.Done? ==>
                  && l.tally.started <= l.plan.limit - l.tally.carried
                  && l.tally.acquires - l.tally.releases == l.tally.carried + B2I(Leaks(l.pc.exit)))
  {
    Always(cfg, eps, labs, w);
    assert Books(w.reqs[i]);
    var acts := RequestIsRun(cfg, eps, labs, w, i);
    hide Reaches, Inv, Run;
    LedgersOf(w.reqs[i].plan, acts, w.reqs[i]);
  }

  lemma LedgersOf(plan: Plan, acts: seq<Action>, l: Local)
    requires plan.limit >= 1 && Run(Start(plan), acts) == Some(l)
    ensures Backoff.Ceiling(plan.backoffMax) < TWO_63 ==>
              l.backedOff <= (plan.limit - 1) * Backoff.Ceiling(plan.backoffMax)
    ensures l.pc.Done? ==>
              && l.tally.started <= plan.limit - l.tally.carried
              && l.tally.acquires - l.tally.releases == l.tally.carried + B2I(Leaks(l.pc.exit))
  {
    hide Run, Backoff.Ceiling;
    if Backoff.Ceiling(plan.backoffMax) < TWO_63 {
      BackoffLedger(plan, acts, l);
    }
    if l.pc.Done? {
      SlotLedger(plan, acts, l, l.pc.exit);
      RetryLedger(plan, acts, l, l.pc.exit);
    }
  }

  // ----- The per-endpoint cap -----

  /** At every moment of the run at most `p` requests stand between Pick's check of `a` and its increment. */
  predicate WindowWithin(cfg: Config, eps: seq<Addr>, labs: seq<Label>, a: Addr, p: nat) {
    forall k :: 0 <= k <= |labs| ==>
      var w := Exec(cfg, Boot(eps), labs[..k]);
      w.Some? && Total(Window(a), w.value.reqs) <= p
  }

  predicate NoFallback(labs: seq<Label>, a: Addr) {
    forall k :: 0 <= k < |labs| && labs[k].Act? ==> labs[k].action != ChooseAny(a)
  }

  predicate CapInv(cfg: Config, w: World, a: Addr, p: nat) {
    if a in w.sh.state then CellAt(w.sh, w.sh.state[a]) + Total(Window(a), w.reqs) <= cfg.epMax + p - 1
    else Total(Window(a), w.reqs) == 0
  }

  /** A step raises count plus window only by passing the cap check. */
  lemma WindowDelta(cfg: Config, sh: Shared, l: Local, act: Action, m: Local, a: Addr)
    requires cfg.epMax > 0 && Tidy(sh) && Refs(sh, l) && Moves(cfg, sh, l, act, m) && act != ChooseAny(a)
    ensures if a in sh.state then
              var r := sh.state[a];
              var after := Effect(sh, l.pc, act);
              || CellAt(after, r) + W(Window(a), m) <= CellAt(sh, r) + W(Window(a), l)
              || (CellAt(after, r) == CellAt(sh, r) < cfg.epMax)
            else W(Window(a), m) <= W(Window(a), l)
  {
    hide NextTally;
  }

  lemma CapAct(cfg: Config, w: World, id: nat, act: Action, m: Local, a: Addr, p: nat)
    requires cfg.epMax > 0 && Tidy(w.sh) && id < |w.reqs| && Refs(w.sh, w.reqs[id])
    requires Moves(cfg, w.sh, w.reqs[id], act, m) && act != ChooseAny(a)
    requires CapInv(cfg, w, a, p) && Total(Window(a), w.reqs[id := m]) <= p
    ensures CapInv(cfg, After(w, id, act, m), a, p)
  {
    TotalUpdate(Window(a), w.reqs, id, m);
    WindowDelta(cfg, w.sh, w.reqs[id], act, m, a);
  }

  lemma CapRelist(cfg: Config, w: World, eps: seq<Addr>, a: Addr, p: nat)
    requires cfg.epMax > 0 && p >= 1 && Tidy(w.sh) && CapInv(cfg, w, a, p)
    ensures CapInv(cfg, w.(sh := AddEntries(w.sh, eps).(eps := eps)), a, p)
  {
    EntriesStartAtZero(w.sh, eps, a);
  }

  lemma CapReport(cfg: Config, w: World, addr: Addr, a: Addr, p: nat)
    requires cfg.epMax > 0 && p >= 1 && Tidy(w.sh) && CapInv(cfg, w, a, p)
    ensures CapInv(cfg, w.(sh := AddEntry(w.sh, addr)), a, p)
  {
  }

  lemma CapStep(cfg: Config, w: World, lab: Label, v: World, a: Addr, p: nat)
    requires cfg.epMax > 0 && p >= 1 && Inv(cfg, w) && Step(cfg, w, lab) == Some(v)
    requires lab.Act? ==> lab.action != ChooseAny(a)
    requires CapInv(cfg, w, a, p) && Total(Window(a), v.reqs) <= p
    ensures CapInv(cfg, v, a, p)
  {
    match lab
    case Act(id, act) =>
      ActMoves(cfg, w, id, act, v);
      assert Refs(w.sh, w.reqs[id]);
      CapAct(cfg, w, id, act, v.reqs[id], a, p);
    case Arrive(plan) =>
      TotalSnoc(Window(a), w.reqs, Start(plan));
    case Relist(eps) =>
      CapRelist(cfg, w, eps, a, p);
    case Report(addr) =>
      CapReport(cfg, w, addr, a, p);
  }

  lemma {:induction false} EntriesStartAtZero(sh: Shared, addrs: seq<Addr>, a: Addr)
    requires Tidy(sh)
    ensures forall b :: b in sh.state ==> b in AddEntries(sh, addrs).state && AddEntries(sh, addrs).state[b] == sh.state[b]
    ensures |sh.cells| <= |AddEntries(sh, addrs).cells|
    ensures a in AddEntries(sh, addrs).state ==>
              CellAt(AddEntries(sh, addrs), AddEntries(sh, addrs).state[a]) ==
              if a in sh.state then CellAt(sh, sh.state[a]) else 0
    ensures forall b :: b in AddEntries(sh, addrs).state ==> AddEntries(sh, addrs).state[b] < |AddEntries(sh, addrs).cells|
  {
    if addrs != [] {
      EntriesStartAtZero(sh, addrs[..|addrs| - 1], a);
    }
  }

  /** Pick and increment are separate steps, so the cap can be passed, but by less than the window's width. */
  lemma CapNearlyHolds(cfg: Config, eps: seq<Addr>, labs: seq<Label>, w: World, a: Addr, p: nat)
    requires cfg.epMax > 0 && p >= 1 && Reaches(cfg, eps, labs, w)
    requires WindowWithin(cfg, eps, labs, a, p) && NoFallback(labs, a)
    ensures a in w.sh.state ==> CellAt(w.sh, w.sh.state[a]) <= cfg.epMax + p - 1
  {
    CapAlways(cfg, eps, labs, w, a, p);
  }

  lemma {:induction false} CapAlways(cfg: Config, eps: seq<Addr>, labs: seq<Label>, w: World, a: Addr, p: nat)
    requires cfg.epMax > 0 && p >= 1 && Reaches(cfg, eps, labs, w)
    requires WindowWithin(cfg, eps, labs, a, p) && NoFallback(labs, a)
    ensures CapInv(cfg, w, a, p)
  {
    Always(cfg, eps, labs, w);
    if labs == [] {
      EntriesStartAtZero(Shared(0, 0, [], map[], []), eps, a);
    } else {
      var n := |labs| - 1;
      var before := Exec(cfg, Boot(eps), labs[..n]).value;
      Always(cfg, eps, labs[..n], before);
      forall k | 0 <= k <= n ensures labs[..n][..k] == labs[..k] {
      }
      CapAlways(cfg, eps, labs[..n], before, a, p);
      assert labs[..n + 1] == labs;
      CapStep(cfg, before, labs[n], w, a, p);
    }
  }

  // ----- A validated static cluster gives everything back -----

  /** No refresh, no failed request build. */
  predicate Uneventful(labs: seq<Label>) {
    forall k :: 0 <= k < |labs| ==> !labs[k].Relist? && (labs[k].Act? ==> labs[k].action != BuildError)
  }

  /** No endpoint can be found at its cap: there is none, or the breaker lets too few requests through to fill one. */
  predicate CapOutOfReach(cfg: Config) {
    cfg.epMax <= 0 || 0 < cfg.maxRequests <= cfg.epMax
  }

  /** No wait for endpoint capacity can end in a slot. */
  predicate GivesBack(cfg: Config) {
    CapOutOfReach(cfg) || cfg.maxPending <= 0
  }

  /** The request is on no path that keeps a slot. */
  predicate Frugal(cfg: Config, l: Local) {
    && l.tally.carried == 0 && l.pc != Done(HardPick) && l.pc != Done(BuildFailed)
    && (Waiting(l.pc) ==> cfg.maxPending > 0)
    && (CapOutOfReach(cfg) ==> (Waiting(l.pc) || l.pc.Enter? ==> l.pc.why == BreakerOpen) && !Bound(l.pc, WaitForEndpoint))
  }

  lemma FrugalStep(cfg: Config, sh: Shared, l: Local, a: Action, m: Local)
    requires GivesBack(cfg) && (CapOutOfReach(cfg) ==> !a.NoCapacity?)
    requires sh.eps != [] && sh.pending >= 0 && a != BuildError
    requires Frugal(cfg, l) && Moves(cfg, sh, l, a, m)
    ensures Frugal(cfg, m)
  {
    hide CapOutOfReach, SomeFull;
    CarriedStep(l, a, m.pc);
    hide NextTally;
  }

  lemma CarriedStep(l: Local, a: Action, pc: Pc)
    ensures NextTally(l, a, pc).carried == l.tally.carried + B2I(Carries(l.pc, a))
  {
  }

  /** A request that scans holds a slot and counts on no endpoint. */
  lemma ScannerHolds(w: World, id: nat, r: nat)
    requires RequestsOk(w) && CellsOk(w) && id < |w.reqs| && w.reqs[id].pc.Scan? && r < |w.sh.cells|
    ensures w.sh.cells[r] < Total(Weight.Slots, w.reqs)
  {
    hide Refs, Calls, Response, Attempts, Backoffs;
    forall l | l in w.reqs ensures W(Cell(r), l) <= W(Weight.Slots, l) {
      assert Books(l);
    }
    assert Books(w.reqs[id]);
    TotalLt(Cell(r), Weight.Slots, w.reqs, id);
  }

  /** So an endpoint at a cap the breaker does not exceed leaves nobody to find it there. */
  lemma NeverFull(cfg: Config, w: World, id: nat)
    requires Inv(cfg, w) && CapOutOfReach(cfg) && id < |w.reqs| && w.reqs[id].pc.Scan?
    ensures !Enabled(cfg, w.sh, w.reqs[id].pc, NoCapacity)
  {
    hide RequestsOk, CellsOk, QueueOk, Total;
    if cfg.epMax > 0 {
      forall ep | ep in w.sh.state ensures CellAt(w.sh, w.sh.state[ep]) < cfg.epMax {
        ScannerHolds(w, id, w.sh.state[ep]);
      }
    }
  }

  lemma {:induction false} TotalLt(j: Weight, k: Weight, ls: seq<Local>, i: nat)
    requires i < |ls| && W(j, ls[i]) < W(k, ls[i]) && forall l :: l in ls ==> W(j, l) <= W(k, l)
    ensures Total(j, ls) < Total(k, ls)
  {
    var n := |ls| - 1;
    if i < n {
      TotalLt(j, k, ls[..n], i);
    } else {
      TotalLe(j, k, ls[..n]);
    }
  }

  lemma {:induction false} AlwaysFrugal(cfg: Config, eps: seq<Addr>, labs: seq<Label>, w: World)
    requires GivesBack(cfg) && eps != [] && Reaches(cfg, eps, labs, w) && Uneventful(labs)
    ensures w.sh.eps == eps && forall l :: l in w.reqs ==> Frugal(cfg, l)
  {
    if labs != [] {
      var n := |labs| - 1;
      var before := Exec(cfg, Boot(eps), labs[..n]).value;
      Always(cfg, eps, labs[..n], before);
      AlwaysFrugal(cfg, eps, labs[..n], before);
      FrugalLabel(cfg, before, labs[n], w);
    }
  }

  lemma FrugalLabel(cfg: Config, w: World, lab: Label, v: World)
    requires Inv(cfg, w) && GivesBack(cfg) && w.sh.eps != [] && Step(cfg, w, lab) == Some(v)
    requires !lab.Relist? && (lab.Act? ==> lab.action != BuildError)
    requires forall l :: l in w.reqs ==> Frugal(cfg, l)
    ensures v.sh.eps == w.sh.eps && forall l :: l in v.reqs ==> Frugal(cfg, l)
  {
    match lab
    case Act(id, a) =>
      ActMoves(cfg, w, id, a, v);
      if CapOutOfReach(cfg) && a.NoCapacity? {
        NeverFull(cfg, w, id);
      } else {
        hide Inv, CapOutOfReach, Enabled;
        FrugalStep(cfg, w.sh, w.reqs[id], a, v.reqs[id]);
      }
    case Arrive(_) =>
    case Report(_) =>
  }

  /** Every request of an uneventful run holds a slot exactly while it is served, and the last one out leaves zero. */
  lemma StaticClusterGivesBack(cfg: Config, eps: seq<Addr>, labs: seq<Label>, w: World)
    requires GivesBack(cfg) && eps != [] && Reaches(cfg, eps, labs, w) && Uneventful(labs)
    ensures forall l :: l in w.reqs ==> l.tally.acquires - l.tally.releases == B2I(Holding(l.pc))
    ensures forall l :: l in w.reqs && l.pc.Done? ==> l.tally.acquires == l.tally.releases
    ensures (forall l :: l in w.reqs ==> l.pc.Done?) ==>
              w.sh.inflight == 0 && w.sh.pending == 0 && forall r :: 0 <= r < |w.sh.cells| ==> w.sh.cells[r] == 0
  {
    hide Reaches, Uneventful;
    Always(cfg, eps, labs, w);
    AlwaysFrugal(cfg, eps, labs, w);
    forall l | l in w.reqs ensures l.tally.acquires - l.tally.releases == B2I(Holding(l.pc)) {
      assert Books(l);
    }
    if forall l :: l in w.reqs ==> l.pc.Done? {
      FrugalIdle(cfg, w);
    }
  }

  lemma FrugalIdle(cfg: Config, w: World)
    requires Inv(cfg, w) && forall l :: l in w.reqs ==> l.pc.Done? && Frugal(cfg, l)
    ensures w.sh.inflight == 0 && w.sh.pending == 0 && forall r :: 0 <= r < |w.sh.cells| ==> w.sh.cells[r] == 0
  {
    assert forall l :: l in w.reqs ==> Books(l);
    TotalZero(Weight.Slots, w.reqs);
    TotalZero(Over, w.reqs);
    TotalZero(Waiter, w.reqs);
    forall r: nat ensures Total(Cell(r), w.reqs) == 0 {
      TotalZero(Cell(r), w.reqs);
    }
  }

  /** In general the counter of an idle cluster is what its finished requests kept. */
  function Kept(ls: seq<Local>): (n: nat) {
    if ls == [] then 0
    else
      var l := ls[|ls| - 1];
      Kept(ls[..|ls| - 1]) + l.tally.carried + B2I(l.pc.Done? && Leaks(l.pc.exit))
  }

  lemma IdleCounterIsLeaks(cfg: Config, eps: seq<Addr>, labs: seq<Label>, w: World)
    requires Reaches(cfg, eps, labs, w) && forall l :: l in w.reqs ==> l.pc.Done?
    ensures w.sh.inflight == Kept(w.reqs)
  {
    Always(cfg, eps, labs, w);
    TotalZero(Over, w.reqs);
    KeptIsSlots(w.reqs);
  }

  lemma {:induction false} KeptIsSlots(ls: seq<Local>)
    requires forall l :: l in ls ==> l.pc.Done?
    ensures Kept(ls) == Total(Weight.Slots, ls)
  {
    if ls != [] {
      KeptIsSlots(ls[..|ls| - 1]);
    }
  }
}
