/** The slots requests keep: how each way of keeping one is reached, and what becomes of the cluster. */
module Leaks {
  import opened Prelude
  import opened Program
  import opened Interleaving
  import opened Safety
  import opened Schedules

  // ----- Every way of keeping a slot is taken by some run -----

  predicate AllEnd(w: World, exit: Exit) {
    forall i :: 0 <= i < |w.reqs| ==> w.reqs[i].pc == Done(exit)
  }

  /** An empty list, as a strict-DNS cluster has before its first lookup: each request keeps its slot. */
  lemma {:induction false} HardPickKeeps(cfg: Config, n: nat) returns (labs: seq<Label>, w: World)
    requires cfg.maxRequests <= 0 || n <= cfg.maxRequests
    ensures Reaches(cfg, [], labs, w) && Tame(labs) && |w.reqs| == n && AllEnd(w, HardPick)
    ensures w.sh == Shared(n, 0, [], map[], [])
  {
    if n == 0 {
      labs, w := [], Boot([]);
    } else {
      labs, w := HardPickKeeps(cfg, n - 1);
      hide Reaches, Tame;
      labs, w := Join(cfg, [], labs, w);
      labs, w := FindNone(cfg, labs, w, n - 1);
    }
  }

  lemma FindNone(cfg: Config, labs: seq<Label>, w: World, id: nat) returns (labs': seq<Label>, w': World)
    requires Reaches(cfg, [], labs, w) && Tame(labs) && id < |w.reqs| && CanGrant(cfg, id)
    requires w.sh == Shared(id, 0, [], map[], []) && w.reqs[id] == Start(Plan(1, 0, 0))
    ensures Reaches(cfg, [], labs', w') && Tame(labs') && Others(w, w', id)
    ensures w'.sh == w.sh.(inflight := id + 1) && w'.reqs[id].pc == Done(HardPick)
  {
    hide Reaches, Tame;
    labs', w' := Move(cfg, [], labs, w, id, AddGranted, Snap);
    labs', w' := Move(cfg, [], labs', w', id, Snapshot([]), Done(HardPick));
  }

  /** A failed request build keeps the slot and the count on the endpoint as well. */
  lemma BuildErrorKeeps(cfg: Config, a: Addr, n: nat) returns (labs: seq<Label>, w: World)
    requires (cfg.maxRequests <= 0 || n <= cfg.maxRequests) && (cfg.epMax <= 0 || n <= cfg.epMax)
    ensures Reaches(cfg, [a], labs, w) && |w.reqs| == n && AllEnd(w, BuildFailed) && Solo(w, a, n, n)
  {
    labs, w := Fly(cfg, a, n);
    labs, w := FailAll(cfg, a, labs, w, n);
  }

  /** The first `k` requests are in flight on `a`, the others have failed to build. */
  predicate FailedFrom(w: World, a: Addr, k: nat) {
    && k <= |w.reqs|
    && (forall i :: 0 <= i < k ==> w.reqs[i].pc == Flying(a, Some(0)))
    && (forall i :: k <= i < |w.reqs| ==> w.reqs[i].pc == Done(BuildFailed))
  }

  lemma {:induction false} FailAll(cfg: Config, a: Addr, labs: seq<Label>, w: World, k: nat)
      returns (labs': seq<Label>, w': World)
    requires Reaches(cfg, [a], labs, w) && FailedFrom(w, a, k)
    ensures Reaches(cfg, [a], labs', w') && w'.sh == w.sh && |w'.reqs| == |w.reqs| && AllEnd(w', BuildFailed)
    decreases k
  {
    labs', w' := labs, w;
    if k > 0 {
      labs', w' := FailOne(cfg, a, labs, w, k - 1);
      hide Reaches, FailedFrom;
      labs', w' := FailAll(cfg, a, labs', w', k - 1);
    }
  }

  lemma FailOne(cfg: Config, a: Addr, labs: seq<Label>, w: World, k: nat) returns (labs': seq<Label>, w': World)
    requires Reaches(cfg, [a], labs, w) && FailedFrom(w, a, k + 1)
    ensures Reaches(cfg, [a], labs', w') && w'.sh == w.sh && |w'.reqs| == |w.reqs| && FailedFrom(w', a, k)
  {
    hide Reaches;
    labs', w' := Move(cfg, [a], labs, w, k, BuildError, Done(BuildFailed));
  }

  /** A request meets the only endpoint at its cap, waits, gets a slot and starts over with it in hand. */
  lemma CapacityWaitKeeps(cfg: Config, a: Addr) returns (labs: seq<Label>, w: World)
    requires !GivesBack(cfg)
    ensures Reaches(cfg, [a], labs, w) && Tame(labs) && AllDone(w) && Solo(w, a, 1, 0)
  {
    var c := cfg.epMax;
    labs, w := Fly(cfg, a, c);
    labs, w := Board(cfg, a, labs, w, 0, 1, c, c);
    labs, w := TurnedAway(cfg, a, labs, w, c);
    labs, w := LandAll(cfg, a, labs, w, c, c + 1);
  }

  lemma TurnedAway(cfg: Config, a: Addr, labs: seq<Label>, w: World, id: nat) returns (labs': seq<Label>, w': World)
    requires Reaches(cfg, [a], labs, w) && Tame(labs) && id < |w.reqs| && cfg.maxPending > 0
    requires 1 <= cfg.epMax <= id && Solo(w, a, id + 1, cfg.epMax) && CanGrant(cfg, id)
    requires var l := w.reqs[id]; l.pc == Scan([a]) && l.plan == Plan(1, 0, 0) && l.attempt == 0
    ensures Reaches(cfg, [a], labs', w') && Tame(labs') && Others(w, w', id)
    ensures w'.reqs[id].pc == Done(Exhausted) && Solo(w', a, id + 1, cfg.epMax)
  {
    hide Reaches, Tame, Solo;
    labs', w' := GiveWay(cfg, a, labs, w, id, cfg.epMax);
    labs', w' := StartOver(cfg, a, labs', w', id, cfg.epMax);
  }

  lemma GiveWay(cfg: Config, a: Addr, labs: seq<Label>, w: World, id: nat, c: int)
      returns (labs': seq<Label>, w': World)
    requires Reaches(cfg, [a], labs, w) && Tame(labs) && id < |w.reqs|
    requires 1 <= cfg.epMax <= c && Solo(w, a, id + 1, c)
    requires var l := w.reqs[id]; l.pc == Scan([a]) && l.plan == Plan(1, 0, 0) && l.attempt == 0
    ensures Reaches(cfg, [a], labs', w') && Tame(labs') && Others(w, w', id) && Solo(w', a, id, c)
    ensures var l := w'.reqs[id]; l.pc == Enter(EndpointsFull) && l.plan == Plan(1, 0, 0) && l.attempt == 0
  {
    hide Reaches, Tame;
    assert a in [a] && SomeFull(cfg, w.sh, [a]);
    hide SomeFull;
    labs', w' := Move(cfg, [a], labs, w, id, NoCapacity, Releasing(WaitForEndpoint));
    labs', w' := Move(cfg, [a], labs', w', id, SubSlot(false), Enter(EndpointsFull));
  }

  lemma StartOver(cfg: Config, a: Addr, labs: seq<Label>, w: World, id: nat, c: int)
      returns (labs': seq<Label>, w': World)
    requires Reaches(cfg, [a], labs, w) && Tame(labs) && id < |w.reqs| && cfg.maxPending > 0
    requires Solo(w, a, id, c) && CanGrant(cfg, id)
    requires var l := w.reqs[id]; l.pc == Enter(EndpointsFull) && l.plan == Plan(1, 0, 0) && l.attempt == 0
    ensures Reaches(cfg, [a], labs', w') && Tame(labs') && Others(w, w', id)
    ensures w'.reqs[id].pc == Done(Exhausted) && Solo(w', a, id + 1, c)
  {
    hide Reaches, Tame;
    labs', w' := Move(cfg, [a], labs, w, id, EnterQueue, Poll(EndpointsFull));
    labs', w' := Move(cfg, [a], labs', w', id, AddGranted, Leave(EndpointsFull, true));
    labs', w' := Move(cfg, [a], labs', w', id, Receive, Top);
    labs', w' := Move(cfg, [a], labs', w', id, Exhaust, Done(Exhausted));
  }

  /** On every static cluster with these limits, an uneventful run that has finished leaves the counter at zero. */
  ghost predicate AlwaysGivesBack(cfg: Config) {
    forall eps, labs, w :: eps != [] && Reaches(cfg, eps, labs, w) && Uneventful(labs) && AllDone(w) ==>
      w.sh.inflight == 0
  }

  /** That is so exactly when no endpoint's cap can be found reached, or there is no queue to wait in. */
  lemma GivesBackExactly(cfg: Config)
    ensures AlwaysGivesBack(cfg) <==> GivesBack(cfg)
  {
    hide Reaches, Uneventful;
    if GivesBack(cfg) {
      hide GivesBack;
      forall eps, labs, w | eps != [] && Reaches(cfg, eps, labs, w) && Uneventful(labs) && AllDone(w)
        ensures w.sh.inflight == 0
      {
        StaticClusterGivesBack(cfg, eps, labs, w);
      }
    } else {
      var labs, w := CapacityWaitKeeps(cfg, "a");
      TameMeans(labs, "a");
    }
  }

  // ----- A slot once lost stays lost -----

  /** Slots this request will never give back; the last term is a carried slot whose `continue` is certain. */
  function Lost(l: Local): (n: nat) {
    l.tally.carried + B2I(l.pc.Done? && Leaks(l.pc.exit)) + B2I(l.pc == Leave(EndpointsFull, true))
  }

  function LostTotal(ls: seq<Local>): (n: nat) {
    if ls == [] then 0 else LostTotal(ls[..|ls| - 1]) + Lost(ls[|ls| - 1])
  }

  lemma {:induction false} LostUpdate(ls: seq<Local>, i: nat, m: Local)
    requires i < |ls|
    ensures LostTotal(ls[i := m]) == LostTotal(ls) - Lost(ls[i]) + Lost(m)
  {
    var n := |ls| - 1;
    if i == n {
      assert ls[i := m][..n] == ls[..n];
    } else {
      assert ls[i := m][..n] == ls[..n][i := m];
      LostUpdate(ls[..n], i, m);
    }
  }

  lemma {:induction false} LostIsHeld(ls: seq<Local>)
    ensures LostTotal(ls) <= Total(Weight.Slots, ls)
    ensures (forall l :: l in ls ==> l.pc.Top? || l.pc.Done?) ==> LostTotal(ls) == Total(Weight.Slots, ls)
  {
    if ls != [] {
      LostIsHeld(ls[..|ls| - 1]);
      assert ls[|ls| - 1] in ls;
    }
  }

  /** When all is done, what is lost is what was kept. */
  lemma {:induction false} KeptIsLost(ls: seq<Local>)
    ensures Kept(ls) <= LostTotal(ls)
    ensures (forall l :: l in ls ==> l.pc.Done?) ==> Kept(ls) == LostTotal(ls)
  {
    if ls != [] {
      KeptIsLost(ls[..|ls| - 1]);
      assert ls[|ls| - 1] in ls;
    }
  }

  lemma AdvanceKeepsLost(l: Local, a: Action, m: Local)
    requires Advance(l, a) == Some(m)
    ensures Lost(l) <= Lost(m)
  {
    hide NextErr, NextStatus, NextAttempt, DelayFor;
  }

  lemma StepKeepsLost(cfg: Config, w: World, lab: Label, v: World)
    requires Step(cfg, w, lab) == Some(v)
    ensures LostTotal(w.reqs) <= LostTotal(v.reqs)
  {
    hide Advance, Enabled, Effect, Lost;
    match lab
    case Act(id, a) =>
      AdvanceKeepsLost(w.reqs[id], a, v.reqs[id]);
      LostUpdate(w.reqs, id, v.reqs[id]);
    case Arrive(plan) =>
      assert (w.reqs + [Start(plan)])[..|w.reqs|] == w.reqs;
    case Relist(_) =>
    case Report(_) =>
  }

  lemma {:induction false} LostOnlyGrows(cfg: Config, w: World, more: seq<Label>, v: World)
    requires Inv(cfg, w) && Exec(cfg, w, more) == Some(v)
    ensures Inv(cfg, v) && LostTotal(w.reqs) <= LostTotal(v.reqs)
  {
    if more != [] {
      hide Inv, Step;
      var before := Exec(cfg, w, more[..|more| - 1]).value;
      LostOnlyGrows(cfg, w, more[..|more| - 1], before);
      StepKeepsInv(cfg, before, more[|more| - 1], v);
      StepKeepsLost(cfg, before, more[|more| - 1], v);
    }
  }

  // ----- Winding down what is not lost -----

  /** How many steps a request is at most away from rest, if it gets no slot. */
  function Effort(pc: Pc): (n: nat) {
    match pc
    case Top | Done(_) => 0
    case Backing => 1
    case Leave(why, got) => if got && why == BreakerOpen then 16 else 1
    case PollWait(_) => 2
    case PollUndo(_) => 3
    case Poll(_) => 4
    case Enter(_) => 5
    case Undo | Clamping(_) => 6
    case Releasing(_) => 7
    case EpClamp(_, _) => 8
    case DecSub(_, _, _) => 9
    case DecLook(_, _, _) => 10
    case Flying(_, _) => 11
    case Looked(_, _) => 12
    case Chosen(_, _) => 13
    case Scan(_) => 14
    case Snap => 15
  }

  /** The way to rest: every call succeeds, every wait is given up, and a pick is of the first endpoint if that has room. */
  function Onward(cfg: Config, sh: Shared, pc: Pc): (a: Action) {
    match pc
    case Top | Done(_) => Exhaust
    case Backing => Sleep(0, None)
    case Leave(_, _) => Receive
    case PollWait(_) => ContextDone
    case PollUndo(_) | Undo => RollBack
    case Poll(_) => AddDenied
    case Enter(_) => if sh.pending < cfg.maxPending then EnterQueue else QueueClosed
    case Clamping(_) => ClampSlot
    case Releasing(_) => SubSlot(sh.inflight - 1 < 0)
    case EpClamp(_, _) => ClampEndpoint
    case DecSub(_, found, _) => SubEndpoint(found.Some? && CellAt(sh, found.value) - 1 < 0)
    case DecLook(ep, _, _) => LookUp(Entry(sh, ep))
    case Flying(_, _) => Respond(200)
    case Looked(_, _) => IncAdd
    case Chosen(ep, _) => LookUp(Entry(sh, ep))
    case Scan(eps) =>
      if eps == [] then Exhaust
      else if cfg.epMax > 0 && eps[0] in sh.state && CellAt(sh, sh.state[eps[0]]) >= cfg.epMax then NoCapacity
      else ChooseUnderCap(eps[0])
    case Snap => Snapshot(sh.eps)
  }

  lemma OnwardEnabled(cfg: Config, w: World, id: nat)
    requires Inv(cfg, w) && id < |w.reqs| && !CanGrant(cfg, w.sh.inflight)
    ensures Enabled(cfg, w.sh, w.reqs[id].pc, Onward(cfg, w.sh, w.reqs[id].pc))
  {
    if w.reqs[id].pc.Leave? {
      TotalUpdate(Waiter, w.reqs, id, w.reqs[id]);
    }
  }

  lemma OnwardFalls(cfg: Config, sh: Shared, l: Local)
    requires Refs(sh, l) && sh.eps != [] && Effort(l.pc) > 0
    ensures var m := Advance(l, Onward(cfg, sh, l.pc));
            m.Some? && Effort(m.value.pc) < Effort(l.pc) && Lost(m.value) == Lost(l)
  {
    hide NextErr, NextStatus, NextAttempt, DelayFor;
  }

  function Toil(ls: seq<Local>): (n: nat) {
    if ls == [] then 0 else Toil(ls[..|ls| - 1]) + Effort(ls[|ls| - 1].pc)
  }

  lemma {:induction false} ToilUpdate(ls: seq<Local>, i: nat, m: Local)
    requires i < |ls|
    ensures Toil(ls[i := m]) == Toil(ls) - Effort(ls[i].pc) + Effort(m.pc)
  {
    hide Effort;
    var n := |ls| - 1;
    if i == n {
      assert ls[i := m][..n] == ls[..n];
    } else {
      assert ls[i := m][..n] == ls[..n][i := m];
      ToilUpdate(ls[..n], i, m);
    }
  }

  /** At rest the counter shows lost slots only. */
  lemma RestShowsLost(cfg: Config, w: World)
    requires Inv(cfg, w) && forall l :: l in w.reqs ==> Effort(l.pc) == 0
    ensures w.sh.inflight == LostTotal(w.reqs)
  {
    LostIsHeld(w.reqs);
    TotalZero(Over, w.reqs);
  }

  lemma {:induction false} ExecCons(cfg: Config, w: World, lab: Label, more: seq<Label>)
    requires Step(cfg, w, lab).Some?
    ensures Exec(cfg, w, [lab] + more) == Exec(cfg, Step(cfg, w, lab).value, more)
    ensures Tame(more) && !Wild(lab) ==> Tame([lab] + more)
  {
    hide Step;
    if more == [] {
      assert ([lab] + more)[..0] == [];
      assert Exec(cfg, w, []) == Some(w);
    } else {
      ExecCons(cfg, w, lab, more[..|more| - 1]);
      assert ([lab] + more)[..|more|] == [lab] + more[..|more| - 1];
    }
  }

  /** Some tame continuation frees a slot, as long as not all are lost. */
  lemma {:induction false} WindDown(cfg: Config, w: World) returns (more: seq<Label>, v: World)
    requires Inv(cfg, w) && w.sh.eps != [] && (cfg.maxRequests > 0 ==> LostTotal(w.reqs) < cfg.maxRequests)
    ensures Tame(more) && Exec(cfg, w, more) == Some(v) && CanGrant(cfg, v.sh.inflight)
    decreases Toil(w.reqs)
  {
    if CanGrant(cfg, w.sh.inflight) {
      more, v := [], w;
    } else if exists id :: 0 <= id < |w.reqs| && Effort(w.reqs[id].pc) > 0 {
      var id :| 0 <= id < |w.reqs| && Effort(w.reqs[id].pc) > 0;
      var lab, next := Nudge(cfg, w, id);
      hide Tame;
      more, v := WindDown(cfg, next);
      ExecCons(cfg, w, lab, more);
      more := [lab] + more;
    } else {
      RestShowsLost(cfg, w);
      more, v := [], w;
    }
  }

  lemma Nudge(cfg: Config, w: World, id: nat) returns (lab: Label, v: World)
    requires Inv(cfg, w) && w.sh.eps != [] && !CanGrant(cfg, w.sh.inflight)
    requires id < |w.reqs| && Effort(w.reqs[id].pc) > 0
    ensures Step(cfg, w, lab) == Some(v) && !Wild(lab) && Inv(cfg, v) && v.sh.eps == w.sh.eps
    ensures LostTotal(v.reqs) == LostTotal(w.reqs) && Toil(v.reqs) < Toil(w.reqs)
  {
    var l := w.reqs[id];
    var a := Onward(cfg, w.sh, l.pc);
    OnwardEnabled(cfg, w, id);
    assert Refs(w.sh, l);
    OnwardFalls(cfg, w.sh, l);
    assert !Wild(Act(id, a));
    hide Inv, Enabled, Advance, Onward, Effort, Lost, CanGrant, Wild;
    lab, v := Act(id, a), Step(cfg, w, Act(id, a)).value;
    StepKeepsInv(cfg, w, lab, v);
    LostUpdate(w.reqs, id, v.reqs[id]);
    ToilUpdate(w.reqs, id, v.reqs[id]);
  }

  /** No continuation ever has room for one more request. */
  ghost predicate RefusesForGood(cfg: Config, w: World) {
    forall more, v :: Exec(cfg, w, more) == Some(v) ==> !CanGrant(cfg, v.sh.inflight)
  }

  /** The same as long as the list stays, builds succeed and picks respect the cap. */
  ghost predicate RefusesWhileTame(cfg: Config, w: World) {
    forall more, v :: Tame(more) && Exec(cfg, w, more) == Some(v) ==> !CanGrant(cfg, v.sh.inflight)
  }

  predicate AllLost(cfg: Config, w: World) {
    cfg.maxRequests > 0 && LostTotal(w.reqs) >= cfg.maxRequests
  }

  lemma LostRefuses(cfg: Config, w: World)
    requires Inv(cfg, w) && AllLost(cfg, w)
    ensures RefusesForGood(cfg, w)
  {
    forall more, v | Exec(cfg, w, more) == Some(v) ensures !CanGrant(cfg, v.sh.inflight) {
      LostOnlyGrows(cfg, w, more, v);
      LostIsHeld(v.reqs);
    }
  }

  /** A cluster with endpoints refuses, even if nothing more goes wrong, exactly when it has lost as many slots as its
      limit. */
  lemma StaticRefusesExactly(cfg: Config, eps: seq<Addr>, labs: seq<Label>, w: World)
    requires Reaches(cfg, eps, labs, w) && w.sh.eps != []
    ensures RefusesWhileTame(cfg, w) <==> AllLost(cfg, w)
  {
    Always(cfg, eps, labs, w);
    hide Reaches, Inv, Tame;
    if AllLost(cfg, w) {
      LostRefuses(cfg, w);
    } else {
      var more, v := WindDown(cfg, w);
    }
  }

  /** Any cluster refuses for good exactly when it has lost as many slots as its limit; nothing brings one back. */
  lemma RefusesForGoodExactly(cfg: Config, eps: seq<Addr>, labs: seq<Label>, w: World)
    requires Reaches(cfg, eps, labs, w)
    ensures RefusesForGood(cfg, w) <==> AllLost(cfg, w)
  {
    Always(cfg, eps, labs, w);
    if AllLost(cfg, w) {
      LostRefuses(cfg, w);
    } else if w.sh.eps != [] {
      StaticRefusesExactly(cfg, eps, labs, w);
    } else {
      RelistKeepsInv(cfg, w, ["a"]);
      hide Inv, Reaches, Tame;
      var lab := Relist(["a"]);
      var more, v := WindDown(cfg, Step(cfg, w, lab).value);
      ExecCons(cfg, w, lab, more);
    }
  }

  /** So a strict-DNS cluster that meets as many requests as its limit before its first lookup never serves any. */
  lemma EarlyRequestsCloseTheCluster(cfg: Config) returns (labs: seq<Label>, w: World)
    requires cfg.maxRequests > 0
    ensures Reaches(cfg, [], labs, w) && Tame(labs) && |w.reqs| == cfg.maxRequests && AllDone(w) && RefusesForGood(cfg, w)
  {
    labs, w := HardPickKeeps(cfg, cfg.maxRequests);
    hide Reaches, RefusesForGood;
    IdleCounterIsLeaks(cfg, [], labs, w);
    KeptIsLost(w.reqs);
    RefusesForGoodExactly(cfg, [], labs, w);
  }
}
