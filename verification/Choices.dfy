/** What a request of a reachable state can do next, said of the other requests instead of the shared counters. */
module Choices {
  import opened Prelude
  import opened Program
  import opened Interleaving
  import Safety

  /** The breaker has room: fewer slots are held or being rolled back than its limit. */
  predicate Room(cfg: Config, w: World) {
    cfg.maxRequests <= 0 || Total(Weight.Slots, w.reqs) + Total(Over, w.reqs) < cfg.maxRequests
  }

  /** How many requests are counted on the entry of `ep`. */
  function Load(w: World, ep: Addr): (n: nat) {
    if ep in w.sh.state then Total(Cell(w.sh.state[ep]), w.reqs) else 0
  }

  /** The endpoint takes another request. */
  predicate Open(cfg: Config, w: World, ep: Addr) {
    cfg.epMax <= 0 || Load(w, ep) < cfg.epMax
  }

  /** What can happen next while a request waits or is admitted. */
  predicate WaitChoice(cfg: Config, w: World, l: Local, a: Action) {
    match l.pc
    case Top =>
      if l.attempt >= l.plan.limit then a.Exhaust?
      else (a.AddGranted? && Room(cfg, w)) || (a.AddDenied? && !Room(cfg, w))
    case Undo | PollUndo(_) => a.RollBack?
    case Enter(_) =>
      || (a.EnterQueue? && Total(Waiter, w.reqs) < cfg.maxPending)
      || (a.QueueClosed? && Total(Waiter, w.reqs) >= cfg.maxPending)
    case Poll(_) => (a.AddGranted? && Room(cfg, w)) || (a.AddDenied? && !Room(cfg, w))
    case PollWait(_) => a.Tick? || a.ContextDone?
    case Leave(_, _) => a.Receive?
    case _ => false
  }

  /** What can happen next from the pick to the response. */
  predicate PickChoice(cfg: Config, w: World, l: Local, a: Action) {
    match l.pc
    case Snap => a == Snapshot(w.sh.eps)
    case Scan(eps) =>
      || (a.ChooseUnderCap? && a.ep in eps && Open(cfg, w, a.ep))
      || (a.ChooseAny? && a.ep in eps)
      || (a.NoCapacity? && exists ep :: ep in eps && !Open(cfg, w, ep))
    case Chosen(ep, eps) =>
      || (a.ChooseUnderCap? && a.ep in eps && Open(cfg, w, a.ep))
      || (ep in w.sh.state && a == LookUp(Some(w.sh.state[ep])))
    case Looked(_, _) => a.IncAdd?
    case Flying(_, _) => a.BuildError? || a.TransportError? || a.WriteError? || a.Respond?
    case _ => false
  }

  /** What can happen next once the outcome of the call is known. */
  predicate SettleChoice(w: World, l: Local, a: Action) {
    match l.pc
    case DecLook(ep, _, _) => ep in w.sh.state && a == LookUp(Some(w.sh.state[ep]))
    case DecSub(_, _, _) => a == SubEndpoint(false)
    case Releasing(_) => a == SubSlot(false)
    case Backing => a.Sleep?
    case _ => false
  }

  lemma CountersShow(cfg: Config, w: World)
    requires Inv(cfg, w)
    ensures Room(cfg, w) <==> cfg.maxRequests <= 0 || w.sh.inflight + 1 <= cfg.maxRequests
    ensures w.sh.pending == Total(Waiter, w.reqs)
    ensures forall ep :: ep in w.sh.state ==> CellAt(w.sh, w.sh.state[ep]) == Load(w, ep)
  {
    hide RequestsOk, Total;
  }

  lemma WaitChoices(cfg: Config, w: World, id: nat, a: Action)
    requires Inv(cfg, w) && id < |w.reqs|
    requires var pc := w.reqs[id].pc; pc.Top? || pc.Undo? || pc.Enter? || Waiting(pc)
    ensures Step(cfg, w, Act(id, a)).Some? <==> WaitChoice(cfg, w, w.reqs[id], a)
  {
    CountersShow(cfg, w);
    if w.reqs[id].pc.Leave? {
      TotalUpdate(Waiter, w.reqs, id, w.reqs[id]);
    }
    hide Inv, Room, Total, Effect;
  }

  lemma PickChoices(cfg: Config, w: World, id: nat, a: Action)
    requires Inv(cfg, w) && id < |w.reqs|
    requires var pc := w.reqs[id].pc; pc.Snap? || pc.Scan? || pc.Chosen? || pc.Looked? || pc.Flying?
    ensures Step(cfg, w, Act(id, a)).Some? <==> PickChoice(cfg, w, w.reqs[id], a)
  {
    CountersShow(cfg, w);
    assert Refs(w.sh, w.reqs[id]);
    hide Inv, Load, Total, Effect, NextTally, NextAttempt, NextErr, NextStatus;
  }

  lemma EndpointChoices(cfg: Config, w: World, id: nat, a: Action)
    requires Inv(cfg, w) && id < |w.reqs| && (w.reqs[id].pc.DecLook? || w.reqs[id].pc.DecSub? || w.reqs[id].pc.EpClamp?)
    ensures Step(cfg, w, Act(id, a)).Some? <==> SettleChoice(w, w.reqs[id], a)
  {
    assert Refs(w.sh, w.reqs[id]);
    Counted(cfg, w, id);
    hide Inv, Total, Effect, NextTally, NextAttempt, NextErr, NextStatus, DelayFor, SomeFull, Tidy;
  }

  lemma SlotChoices(cfg: Config, w: World, id: nat, a: Action)
    requires Inv(cfg, w) && id < |w.reqs| && (w.reqs[id].pc.Releasing? || w.reqs[id].pc.Backing? || w.reqs[id].pc.Clamping?)
    ensures Step(cfg, w, Act(id, a)).Some? <==> SettleChoice(w, w.reqs[id], a)
  {
    assert Refs(w.sh, w.reqs[id]);
    Counted(cfg, w, id);
    hide Inv, Total, Effect, NextTally, NextAttempt, NextErr, NextStatus, DelayFor, SomeFull, Tidy;
  }

  lemma SettleChoices(cfg: Config, w: World, id: nat, a: Action)
    requires Inv(cfg, w) && id < |w.reqs|
    requires var pc := w.reqs[id].pc;
             pc.DecLook? || pc.DecSub? || pc.Releasing? || pc.Backing? || pc.EpClamp? || pc.Clamping?
    ensures Step(cfg, w, Act(id, a)).Some? <==> SettleChoice(w, w.reqs[id], a)
  {
    hide *;
    var pc := w.reqs[id].pc;
    if pc.DecLook? || pc.DecSub? || pc.EpClamp? {
      EndpointChoices(cfg, w, id, a);
    } else {
      SlotChoices(cfg, w, id, a);
    }
  }

  lemma Counted(cfg: Config, w: World, id: nat)
    requires Inv(cfg, w) && id < |w.reqs|
    ensures w.reqs[id].pc.Releasing? ==> w.sh.inflight >= 1
    ensures w.reqs[id].pc.DecSub? ==> w.reqs[id].pc.ref.Some? && CellAt(w.sh, w.reqs[id].pc.ref.value) >= 1
  {
    var l := w.reqs[id];
    assert Refs(w.sh, l) && Books(l);
    TotalUpdate(Weight.Slots, w.reqs, id, l);
    if l.pc.DecSub? {
      TotalUpdate(Cell(l.pc.ref.value), w.reqs, id, l);
    }
  }

  /** In every reachable state the next step of every request is exactly what the other requests leave open. */
  lemma ChoicesExactly(cfg: Config, eps: seq<Addr>, labs: seq<Label>, w: World, id: nat, a: Action)
    requires Reaches(cfg, eps, labs, w) && id < |w.reqs|
    ensures Step(cfg, w, Act(id, a)).Some? <==>
            WaitChoice(cfg, w, w.reqs[id], a) || PickChoice(cfg, w, w.reqs[id], a) || SettleChoice(w, w.reqs[id], a)
  {
    Always(cfg, eps, labs, w);
    hide Reaches, Inv;
    var pc := w.reqs[id].pc;
    if pc.Top? || pc.Undo? || pc.Enter? || Waiting(pc) {
      WaitChoices(cfg, w, id, a);
    } else if pc.Snap? || pc.Scan? || pc.Chosen? || pc.Looked? || pc.Flying? {
      PickChoices(cfg, w, id, a);
    } else if !pc.Done? {
      SettleChoices(cfg, w, id, a);
    }
  }

  /** A request is turned away from the queue exactly when it is full, and answered 503. */
  lemma TurnedAwayExactly(cfg: Config, eps: seq<Addr>, labs: seq<Label>, w: World, id: nat)
    requires Reaches(cfg, eps, labs, w) && id < |w.reqs| && w.reqs[id].pc.Enter?
    ensures var out := Step(cfg, w, Act(id, QueueClosed));
            && (out.Some? <==> Total(Waiter, w.reqs) >= cfg.maxPending)
            && (out.Some? ==> out.value.reqs[id].pc == Done(Rejected) && out.value.reqs[id].status == 503)
    ensures var entered := Step(cfg, w, Act(id, EnterQueue));
            && (entered.Some? <==> Total(Waiter, w.reqs) < cfg.maxPending)
            && (entered.Some? ==> Total(Waiter, entered.value.reqs) == Total(Waiter, w.reqs) + 1)
  {
    ChoicesExactly(cfg, eps, labs, w, id, QueueClosed);
    ChoicesExactly(cfg, eps, labs, w, id, EnterQueue);
    var entered := Step(cfg, w, Act(id, EnterQueue));
    hide Reaches, Total;
    if entered.Some? {
      TotalUpdate(Waiter, w.reqs, id, entered.value.reqs[id]);
    }
  }

  /** Requests arrive, lists change and health is reported at any time, and none of it touches a request or a counter. */
  lemma NothingElseBlocks(cfg: Config, eps: seq<Addr>, labs: seq<Label>, w: World, lab: Label)
    requires Reaches(cfg, eps, labs, w) && !lab.Act?
    ensures var v := Step(cfg, w, lab);
            && (v.Some? <==> (lab.Arrive? ==> lab.plan.limit >= 1))
            && (v.Some? ==>
                  && v.value.sh.inflight == w.sh.inflight && v.value.sh.pending == w.sh.pending
                  && v.value.sh.eps == (if lab.Relist? then lab.eps else w.sh.eps)
                  && v.value.reqs == (if lab.Arrive? then w.reqs + [Start(lab.plan)] else w.reqs)
                  && (lab.Arrive? ==> v.value.sh == w.sh)
                  && forall a :: a in w.sh.state ==>
                       && a in v.value.sh.state
                       && CellAt(v.value.sh, v.value.sh.state[a]) == CellAt(w.sh, w.sh.state[a]))
  {
    Always(cfg, eps, labs, w);
    hide Reaches;
    if lab.Relist? {
      RelistFrame(w.sh, lab.eps);
    }
  }

  lemma {:induction false} RelistFrame(sh: Shared, addrs: seq<Addr>)
    requires Tidy(sh)
    ensures var after := AddEntries(sh, addrs);
            && after.inflight == sh.inflight && after.pending == sh.pending && |sh.cells| <= |after.cells|
            && (forall a :: a in sh.state ==> a in after.state && after.state[a] == sh.state[a])
            && (forall r: nat :: r < |sh.cells| ==> after.cells[r] == sh.cells[r])
  {
    if addrs != [] {
      RelistFrame(sh, addrs[..|addrs| - 1]);
    }
  }
}
