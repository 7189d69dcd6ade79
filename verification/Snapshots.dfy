/** Picks on the states the interleaved system reaches: what `Picker` assumes of the counters holds there. */
module Snapshots {
  import opened Prelude
  import opened Program
  import opened Interleaving
  import Safety
  import Picker
  import Health

  /** The entries of `sh` with their counters, and any health. */
  predicate Shows(sh: Shared, state: map<Addr, Picker.Entry>) {
    && state.Keys == sh.state.Keys
    && forall a :: a in state ==> state[a].inFlight == CellAt(sh, sh.state[a])
  }

  /** No reachable counter shows a negative load, so the sentinel of least_requests never collides. */
  lemma LoadsAreNatural(cfg: Config, eps: seq<Addr>, labs: seq<Label>, w: World, state: map<Addr, Picker.Entry>, now: int)
    requires Reaches(cfg, eps, labs, w) && Shows(w.sh, state)
    ensures forall a :: a in state ==> state[a].inFlight >= 0
    ensures Picker.NoSentinel(Picker.Show(w.sh.eps, state, cfg.epMax, now))
  {
    Safety.EndpointsSafe(cfg, eps, labs, w);
    Always(cfg, eps, labs, w);
  }

  /** In every reachable state all policies agree on the class of the outcome, and least_requests finds the earliest minimum. */
  lemma PoliciesAgreeWhenReached(
      cfg: Config, eps: seq<Addr>, labs: seq<Label>, w: World, state: map<Addr, Picker.Entry>, now: int,
      policy: Picker.Policy, ticket: nat, draw: nat)
    requires Reaches(cfg, eps, labs, w) && Shows(w.sh, state) && ticket < TWO_63
    ensures var cs := Picker.Show(w.sh.eps, state, cfg.epMax, now);
            var c := Picker.Choose(policy, cs, ticket, draw);
            && Picker.RightClass(cs, c)
            && (policy == Picker.LeastRequests && Picker.AnyEligible(cs) ==> c.Index? && Picker.EarliestLeast(cs, |cs|, c.i))
            && (cfg.epMax <= 0 && w.sh.eps != [] ==> c.Index?)
  {
    LoadsAreNatural(cfg, eps, labs, w, state, now);
    hide Reaches, Shows;
    Picker.PoliciesAgree(policy, Picker.Show(w.sh.eps, state, cfg.epMax, now), ticket, draw);
    if cfg.epMax <= 0 && w.sh.eps != [] {
      Picker.NoCapNoWait(policy, w.sh.eps, state, cfg.epMax, now, ticket, draw);
    }
  }

  /** In every reachable state, whatever has been reported and probed: an endpoint that is well and has room, if one is
      listed; else no capacity if one is well; else some listed endpoint. */
  lemma PicksTheFitWhenReached(
      cfg: Config, eps: seq<Addr>, labs: seq<Label>, w: World, state: map<Addr, Picker.Entry>, now: int,
      c: Health.Thresholds, hist: map<Addr, Picker.History>, policy: Picker.Policy, ticket: nat, draw: nat)
    requires Reaches(cfg, eps, labs, w) && Shows(w.sh, state) && ticket < TWO_63
    requires Health.Configured(c) && Picker.Kept(c, state, hist)
    ensures var list := w.sh.eps;
            var pick := Picker.Choose(policy, Picker.Show(list, state, cfg.epMax, now), ticket, draw);
            if list == [] then pick == Picker.Unlisted
            else if exists i :: 0 <= i < |list| && Picker.Fit(c, hist, state, cfg.epMax, list[i], now) then
              pick.Index? && pick.i < |list| && Picker.Fit(c, hist, state, cfg.epMax, list[pick.i], now)
            else if exists i :: 0 <= i < |list| && Picker.Well(c, hist, list[i], now) then pick == Picker.Full
            else pick.Index? && pick.i < |list|
  {
    LoadsAreNatural(cfg, eps, labs, w, state, now);
    hide Reaches, Shows;
    Picker.PicksTheFit(policy, c, w.sh.eps, state, hist, cfg.epMax, now, ticket, draw);
  }

  /** The step a choice amounts to. */
  function ActionOf(eps: seq<Addr>, cs: seq<Picker.Cand>, c: Picker.Choice): (a: Action)
    requires |cs| == |eps| && (c.Index? ==> c.i < |eps|)
  {
    if !c.Index? then NoCapacity
    else if Picker.Eligible(cs[c.i]) then ChooseUnderCap(eps[c.i]) else ChooseAny(eps[c.i])
  }

  lemma ChoiceEnabled(
      cfg: Config, sh: Shared, state: map<Addr, Picker.Entry>, now: int, c: Picker.Choice)
    requires Shows(sh, state) && sh.eps != [] && Picker.RightClass(Picker.Show(sh.eps, state, cfg.epMax, now), c)
    ensures c.Index? ==> c.i < |sh.eps|
    ensures Enabled(cfg, sh, Scan(sh.eps), ActionOf(sh.eps, Picker.Show(sh.eps, state, cfg.epMax, now), c))
    ensures c == Picker.Full || (c.Index? && sh.eps[c.i] in sh.eps)
  {
    var cs := Picker.Show(sh.eps, state, cfg.epMax, now);
    assert |cs| > 0;
    if c == Picker.Full {
      var i :| 0 <= i < |cs| && cs[i].available;
      assert !Picker.Eligible(cs[i]);
      assert sh.eps[i] in sh.eps && SomeFull(cfg, sh, sh.eps);
    }
  }

  /** A pick that nothing interrupts is a step of the interleaved system, whatever the policy and the endpoints' health. */
  lemma PickIsAStep(
      cfg: Config, eps: seq<Addr>, labs: seq<Label>, w: World, id: nat, state: map<Addr, Picker.Entry>, now: int,
      policy: Picker.Policy, ticket: nat, draw: nat)
    requires Reaches(cfg, eps, labs, w) && Shows(w.sh, state) && ticket < TWO_63
    requires id < |w.reqs| && w.reqs[id].pc == Scan(w.sh.eps)
    ensures var cs := Picker.Show(w.sh.eps, state, cfg.epMax, now);
            var c := Picker.Choose(policy, cs, ticket, draw);
            && (c.Index? ==> c.i < |w.sh.eps|)
            && Step(cfg, w, Act(id, ActionOf(w.sh.eps, cs, c))).Some?
  {
    Always(cfg, eps, labs, w);
    assert Refs(w.sh, w.reqs[id]);
    PoliciesAgreeWhenReached(cfg, eps, labs, w, state, now, policy, ticket, draw);
    hide Reaches, Inv, Shows, Enabled, Picker.Choose, Picker.Show, Picker.RightClass;
    var c := Picker.Choose(policy, Picker.Show(w.sh.eps, state, cfg.epMax, now), ticket, draw);
    ChoiceEnabled(cfg, w.sh, state, now, c);
  }
}
