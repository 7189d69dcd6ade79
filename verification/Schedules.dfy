/** Runs put together step by step: what the results about reachability are built from. */
module Schedules {
  import opened Prelude
  import opened Program
  import opened Interleaving
  import opened Safety

  /** The endpoints change, a request build fails, or a pick skips the cap check. */
  predicate Wild(lab: Label) {
    lab.Relist? || (lab.Act? && (lab.action.BuildError? || lab.action.ChooseAny?))
  }

  predicate Tame(labs: seq<Label>) {
    forall k :: 0 <= k < |labs| ==> !Wild(labs[k])
  }

  lemma TameMeans(labs: seq<Label>, a: Addr)
    requires Tame(labs)
    ensures Uneventful(labs) && NoFallback(labs, a)
  {
  }

  predicate CanGrant(cfg: Config, inflight: int) {
    cfg.maxRequests <= 0 || inflight + 1 <= cfg.maxRequests
  }

  predicate AllDone(w: World) {
    forall l :: l in w.reqs ==> l.pc.Done?
  }

  lemma Extend(cfg: Config, eps: seq<Addr>, labs: seq<Label>, w: World, lab: Label)
      returns (labs': seq<Label>, w': World)
    requires Reaches(cfg, eps, labs, w) && Step(cfg, w, lab).Some?
    ensures labs' == labs + [lab] && Reaches(cfg, eps, labs', w') && Step(cfg, w, lab) == Some(w')
    ensures Tame(labs) && !Wild(lab) ==> Tame(labs')
  {
    labs', w' := labs + [lab], Step(cfg, w, lab).value;
    assert labs'[..|labs|] == labs;
  }

  /** One request takes one step. */
  lemma Move(cfg: Config, eps: seq<Addr>, labs: seq<Label>, w: World, id: nat, a: Action, pc: Pc)
      returns (labs': seq<Label>, w': World)
    requires Reaches(cfg, eps, labs, w) && id < |w.reqs|
    requires Enabled(cfg, w.sh, w.reqs[id].pc, a) && NextPc(w.reqs[id], a) == Some(pc)
    ensures labs' == labs + [Act(id, a)] && Reaches(cfg, eps, labs', w')
    ensures Tame(labs) && !Wild(Act(id, a)) ==> Tame(labs')
    ensures w'.sh == Effect(w.sh, w.reqs[id].pc, a)
    ensures |w'.reqs| == |w.reqs| && w'.reqs == w.reqs[id := w'.reqs[id]] && w'.reqs[id].pc == pc
    ensures w'.reqs[id].plan == w.reqs[id].plan && w'.reqs[id].attempt == NextAttempt(w.reqs[id], a, pc)
  {
    hide Reaches, Tame;
    labs', w' := Extend(cfg, eps, labs, w, Act(id, a));
  }

  /** A request with a single attempt arrives. */
  lemma Join(cfg: Config, eps: seq<Addr>, labs: seq<Label>, w: World) returns (labs': seq<Label>, w': World)
    requires Reaches(cfg, eps, labs, w)
    ensures labs' == labs + [Arrive(Plan(1, 0, 0))] && Reaches(cfg, eps, labs', w') && (Tame(labs) ==> Tame(labs'))
    ensures w' == w.(reqs := w.reqs + [Start(Plan(1, 0, 0))])
  {
    hide Reaches, Tame;
    labs', w' := Extend(cfg, eps, labs, w, Arrive(Plan(1, 0, 0)));
  }

  // ----- One endpoint -----

  /** All requests but `id` are what they were. */
  predicate Others(w: World, w': World, id: nat) {
    |w'.reqs| == |w.reqs| && forall i :: 0 <= i < |w.reqs| && i != id ==> w'.reqs[i] == w.reqs[i]
  }

  /** `n` slots counted, nobody queued, `c` in flight on the only endpoint `a`. */
  predicate Solo(w: World, a: Addr, n: int, c: int) {
    w.sh == Shared(n, 0, [a], map[a := 0], [c])
  }

  /** A tame run that never had more than `p` requests in the window of `a` and has `v` there now. */
  ghost predicate Watched(cfg: Config, a: Addr, labs: seq<Label>, w: World, v: nat, p: nat) {
    && Reaches(cfg, [a], labs, w) && Tame(labs)
    && WindowWithin(cfg, [a], labs, a, p) && Total(Window(a), w.reqs) == v
  }

  lemma WindowExtends(cfg: Config, eps: seq<Addr>, labs: seq<Label>, lab: Label, w': World, a: Addr, p: nat)
    requires WindowWithin(cfg, eps, labs, a, p) && Reaches(cfg, eps, labs + [lab], w')
    requires Total(Window(a), w'.reqs) <= p
    ensures WindowWithin(cfg, eps, labs + [lab], a, p)
  {
    var labs' := labs + [lab];
    hide Total;
    forall k | 0 <= k <= |labs'|
      ensures Exec(cfg, Boot(eps), labs'[..k]).Some?
      ensures Total(Window(a), Exec(cfg, Boot(eps), labs'[..k]).value.reqs) <= p
    {
      if k <= |labs| {
        assert labs'[..k] == labs[..k];
      } else {
        assert labs'[..k] == labs';
      }
    }
  }

  /** A step of a watched run. */
  lemma Glide(cfg: Config, a: Addr, labs: seq<Label>, w: World, v: nat, p: nat, id: nat, act: Action, pc: Pc)
      returns (labs': seq<Label>, w': World, v': nat)
    requires Watched(cfg, a, labs, w, v, p) && id < |w.reqs| && !Wild(Act(id, act))
    requires Enabled(cfg, w.sh, w.reqs[id].pc, act) && NextPc(w.reqs[id], act) == Some(pc)
    requires v + InWindow(a, pc) <= p + InWindow(a, w.reqs[id].pc)
    ensures Watched(cfg, a, labs', w', v', p) && v' == v + InWindow(a, pc) - InWindow(a, w.reqs[id].pc)
    ensures w'.sh == Effect(w.sh, w.reqs[id].pc, act)
    ensures Others(w, w', id) && w'.reqs[id].pc == pc
    ensures w'.reqs[id].plan == w.reqs[id].plan && w'.reqs[id].attempt == NextAttempt(w.reqs[id], act, pc)
  {
    hide Reaches, Tame, WindowWithin, Total;
    labs', w' := Move(cfg, [a], labs, w, id, act, pc);
    TotalUpdate(Window(a), w.reqs, id, w'.reqs[id]);
    v' := Total(Window(a), w'.reqs);
    WindowExtends(cfg, [a], labs, Act(id, act), w', a, p);
  }

  function InWindow(a: Addr, pc: Pc): (n: nat)
    ensures n <= 1
  {
    B2I((pc.Chosen? || pc.Looked?) && pc.ep == a)
  }

  lemma BootWatched(cfg: Config, a: Addr)
    ensures Solo(Boot([a]), a, 0, 0) && Boot([a]).reqs == [] && Watched(cfg, a, [], Boot([a]), 0, 1)
  {
    var empty := Shared(0, 0, [], map[], []);
    assert [a][..0] == [];
    assert AddEntries(empty, []) == empty;
    assert AddEntries(empty, [a]) == AddEntry(empty, a);
  }

  /** A wider bound watches the same run. */
  lemma Widen(cfg: Config, a: Addr, labs: seq<Label>, w: World, v: nat, p: nat, q: nat)
    requires Watched(cfg, a, labs, w, v, p) && p <= q
    ensures Watched(cfg, a, labs, w, v, q)
  {
    hide Total, Tame;
    assert WindowWithin(cfg, [a], labs, a, q);
  }

  /** A new request gets a slot and starts to scan. */
  lemma Board(cfg: Config, a: Addr, labs: seq<Label>, w: World, v: nat, p: nat, n: int, c: int)
      returns (labs': seq<Label>, w': World)
    requires Watched(cfg, a, labs, w, v, p) && v <= p && Solo(w, a, n, c) && CanGrant(cfg, n)
    ensures Watched(cfg, a, labs', w', v, p) && Solo(w', a, n + 1, c)
    ensures |w'.reqs| == |w.reqs| + 1 && forall i :: 0 <= i < |w.reqs| ==> w'.reqs[i] == w.reqs[i]
    ensures var l := w'.reqs[|w.reqs|]; l.pc == Scan([a]) && l.plan == Plan(1, 0, 0) && l.attempt == 0
  {
    hide Watched, Solo;
    labs', w' := Seat(cfg, a, labs, w, v, p, n, c);
    labs', w' := TakeSlot(cfg, a, labs', w', v, p, |w.reqs|, n, c);
  }

  lemma TakeSlot(cfg: Config, a: Addr, labs: seq<Label>, w: World, v: nat, p: nat, id: nat, n: int, c: int)
      returns (labs': seq<Label>, w': World)
    requires Watched(cfg, a, labs, w, v, p) && v <= p && Solo(w, a, n, c) && CanGrant(cfg, n)
    requires id < |w.reqs| && w.reqs[id] == Start(Plan(1, 0, 0))
    ensures Watched(cfg, a, labs', w', v, p) && Solo(w', a, n + 1, c)
    ensures Others(w, w', id)
    ensures var l := w'.reqs[id]; l.pc == Scan([a]) && l.plan == Plan(1, 0, 0) && l.attempt == 0
  {
    hide Watched;
    var u;
    labs', w', u := Glide(cfg, a, labs, w, v, p, id, AddGranted, Snap);
    labs', w', u := Glide(cfg, a, labs', w', v, p, id, Snapshot([a]), Scan([a]));
  }

  lemma Seat(cfg: Config, a: Addr, labs: seq<Label>, w: World, v: nat, p: nat, n: int, c: int)
      returns (labs': seq<Label>, w': World)
    requires Watched(cfg, a, labs, w, v, p) && v <= p && Solo(w, a, n, c)
    ensures Watched(cfg, a, labs', w', v, p) && Solo(w', a, n, c)
    ensures w' == w.(reqs := w.reqs + [Start(Plan(1, 0, 0))])
  {
    hide Reaches, Tame, WindowWithin, Total;
    labs', w' := Join(cfg, [a], labs, w);
    TotalSnoc(Window(a), w.reqs, Start(Plan(1, 0, 0)));
    WindowExtends(cfg, [a], labs, Arrive(Plan(1, 0, 0)), w', a, p);
  }

  /** The cap check passes. */
  lemma Choose(cfg: Config, a: Addr, labs: seq<Label>, w: World, v: nat, p: nat, id: nat, n: int, c: int)
      returns (labs': seq<Label>, w': World)
    requires Watched(cfg, a, labs, w, v, p) && v < p && Solo(w, a, n, c) && (cfg.epMax <= 0 || c < cfg.epMax)
    requires id < |w.reqs| && w.reqs[id].pc == Scan([a])
    ensures Watched(cfg, a, labs', w', v + 1, p) && Solo(w', a, n, c)
    ensures Others(w, w', id) && w'.reqs[id].pc == Chosen(a, [a])
  {
    hide Watched;
    var u;
    labs', w', u := Glide(cfg, a, labs, w, v, p, id, ChooseUnderCap(a), Chosen(a, [a]));
  }

  /** The increment that follows the pick. */
  lemma Lift(cfg: Config, a: Addr, labs: seq<Label>, w: World, v: nat, p: nat, id: nat, n: int, c: int)
      returns (labs': seq<Label>, w': World)
    requires Watched(cfg, a, labs, w, v, p) && 1 <= v <= p && Solo(w, a, n, c)
    requires id < |w.reqs| && w.reqs[id].pc == Chosen(a, [a])
    ensures Watched(cfg, a, labs', w', v - 1, p) && Solo(w', a, n, c + 1)
    ensures Others(w, w', id) && w'.reqs[id].pc == Flying(a, Some(0))
  {
    hide Watched;
    var u;
    labs', w', u := Glide(cfg, a, labs, w, v, p, id, LookUp(Some(0)), Looked(a, Some(0)));
    labs', w', u := Glide(cfg, a, labs', w', v, p, id, IncAdd, Flying(a, Some(0)));
  }

  /** The upstream answers and everything is given back. */
  lemma Land(cfg: Config, a: Addr, labs: seq<Label>, w: World, id: nat, n: int, c: int)
      returns (labs': seq<Label>, w': World)
    requires Reaches(cfg, [a], labs, w) && Tame(labs) && Solo(w, a, n, c) && n >= 1 && c >= 1
    requires id < |w.reqs| && w.reqs[id].pc == Flying(a, Some(0))
    ensures Reaches(cfg, [a], labs', w') && Tame(labs') && Solo(w', a, n - 1, c - 1)
    ensures Others(w, w', id) && w'.reqs[id].pc == Done(Succeeded)
  {
    hide Reaches, Tame;
    labs', w' := Move(cfg, [a], labs, w, id, Respond(200), DecLook(a, Some(0), Conclude));
    labs', w' := Move(cfg, [a], labs', w', id, LookUp(Some(0)), DecSub(Some(0), Some(0), Conclude));
    labs', w' := Move(cfg, [a], labs', w', id, SubEndpoint(false), Releasing(Conclude));
    labs', w' := Move(cfg, [a], labs', w', id, SubSlot(false), Done(Succeeded));
  }

  /** `n` requests in flight, as far as breaker and cap allow it, one after the other through the window. */
  lemma {:induction false} Fly(cfg: Config, a: Addr, n: nat) returns (labs: seq<Label>, w: World)
    requires (cfg.maxRequests <= 0 || n <= cfg.maxRequests) && (cfg.epMax <= 0 || n <= cfg.epMax)
    ensures Watched(cfg, a, labs, w, 0, 1) && Solo(w, a, n, n)
    ensures |w.reqs| == n && forall i :: 0 <= i < n ==> w.reqs[i].pc == Flying(a, Some(0))
  {
    if n == 0 {
      labs, w := [], Boot([a]);
      BootWatched(cfg, a);
    } else {
      labs, w := Fly(cfg, a, n - 1);
      hide Watched, Solo;
      labs, w := Board(cfg, a, labs, w, 0, 1, n - 1, n - 1);
      labs, w := Choose(cfg, a, labs, w, 0, 1, n - 1, n, n - 1);
      labs, w := Lift(cfg, a, labs, w, 1, 1, n - 1, n, n - 1);
    }
  }

  /** All requests in flight land. */
  lemma {:induction false} LandAll(cfg: Config, a: Addr, labs: seq<Label>, w: World, k: nat, n: int)
      returns (labs': seq<Label>, w': World)
    requires Reaches(cfg, [a], labs, w) && Tame(labs) && Solo(w, a, n, k) && n >= k && k <= |w.reqs|
    requires forall i :: 0 <= i < |w.reqs| ==> if i < k then w.reqs[i].pc == Flying(a, Some(0)) else w.reqs[i].pc.Done?
    ensures Reaches(cfg, [a], labs', w') && Tame(labs') && Solo(w', a, n - k, 0) && AllDone(w')
    decreases k
  {
    labs', w' := labs, w;
    if k > 0 {
      hide Reaches, Tame, Solo;
      labs', w' := Land(cfg, a, labs', w', k - 1, n, k);
      labs', w' := LandAll(cfg, a, labs', w', k - 1, n - 1);
    }
  }
}
