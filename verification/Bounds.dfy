/** How far the counters can pass their limits, and under which conditions they do not. */
module Bounds {
  import opened Prelude
  import opened Program
  import opened Interleaving
  import opened Safety
  import opened Schedules

  // ----- The raw breaker counter -----

  /** The raw counter reaches any value: it can pass the limit by any number of rollbacks in progress, not just one. */
  lemma {:induction false} CounterUnbounded(cfg: Config, eps: seq<Addr>, n: nat) returns (labs: seq<Label>, w: World)
    ensures Reaches(cfg, eps, labs, w) && Tame(labs) && w.sh.inflight == n && |w.reqs| == n && w.sh.pending == 0
  {
    if n == 0 {
      labs, w := [], Boot(eps);
      BootCounter(Shared(0, 0, [], map[], []), eps);
    } else {
      labs, w := CounterUnbounded(cfg, eps, n - 1);
      hide Reaches, Tame;
      var a := if CanGrant(cfg, n - 1) then AddGranted else AddDenied;
      labs, w := Join(cfg, eps, labs, w);
      labs, w := Move(cfg, eps, labs, w, n - 1, a, if a.AddGranted? then Snap else Undo);
    }
  }

  lemma {:induction false} BootCounter(sh: Shared, eps: seq<Addr>)
    ensures AddEntries(sh, eps).inflight == sh.inflight && AddEntries(sh, eps).pending == sh.pending
  {
    if eps != [] {
      BootCounter(sh, eps[..|eps| - 1]);
    }
  }

  // ----- The pending queue -----

  /** With the breaker full, any number of waiters up to the bound stand in the queue of some tame run. */
  lemma {:induction false} QueueFills(cfg: Config, eps: seq<Addr>, n: nat) returns (labs: seq<Label>, w: World)
    requires cfg.maxRequests >= 1 && n <= cfg.maxPending
    ensures Reaches(cfg, eps, labs, w) && Tame(labs)
    ensures w.sh.inflight == cfg.maxRequests && w.sh.pending == n == Total(Waiter, w.reqs)
  {
    if n == 0 {
      labs, w := CounterUnbounded(cfg, eps, cfg.maxRequests);
    } else {
      labs, w := QueueFills(cfg, eps, n - 1);
      labs, w := LineUp(cfg, eps, labs, w);
    }
    QueueSafe(cfg, eps, labs, w);
  }

  /** One more request is denied and enters the queue. */
  lemma LineUp(cfg: Config, eps: seq<Addr>, labs: seq<Label>, w: World) returns (labs': seq<Label>, w': World)
    requires Reaches(cfg, eps, labs, w) && Tame(labs)
    requires 1 <= cfg.maxRequests == w.sh.inflight && w.sh.pending < cfg.maxPending
    ensures Reaches(cfg, eps, labs', w') && Tame(labs')
    ensures w'.sh.inflight == w.sh.inflight && w'.sh.pending == w.sh.pending + 1
  {
    hide Reaches, Tame;
    var id := |w.reqs|;
    labs', w' := Join(cfg, eps, labs, w);
    labs', w' := Move(cfg, eps, labs', w', id, AddDenied, Undo);
    labs', w' := Move(cfg, eps, labs', w', id, RollBack, Enter(BreakerOpen));
    labs', w' := Move(cfg, eps, labs', w', id, EnterQueue, Poll(BreakerOpen));
  }

  // ----- The documented overshoot -----

  function Unfinished(ls: seq<Local>): (n: nat)
    ensures n <= |ls|
  {
    if ls == [] then 0 else Unfinished(ls[..|ls| - 1]) + B2I(!ls[|ls| - 1].pc.Done?)
  }

  /** Where nothing is kept, only unfinished requests are counted. */
  lemma {:induction false} CountedAreUnfinished(cfg: Config, ls: seq<Local>)
    requires forall l :: l in ls ==> Frugal(cfg, l)
    ensures Total(Weight.Slots, ls) + Total(Over, ls) <= Unfinished(ls)
  {
    if ls != [] {
      CountedAreUnfinished(cfg, ls[..|ls| - 1]);
      assert Frugal(cfg, ls[|ls| - 1]);
    }
  }

  /** No uneventful run with at most `p` requests unfinished shows a counter more than one over the limit. */
  ghost predicate OverByOneAtMost(cfg: Config, eps: seq<Addr>, p: nat) {
    forall labs, w :: Reaches(cfg, eps, labs, w) && Uneventful(labs) && Unfinished(w.reqs) <= p ==>
      w.sh.inflight <= cfg.maxRequests + 1
  }

  /** The documented overshoot of one holds exactly for at most one more unfinished request than the limit. */
  lemma ByOneExactly(cfg: Config, eps: seq<Addr>, p: nat)
    requires cfg.maxRequests > 0 && GivesBack(cfg) && eps != []
    ensures OverByOneAtMost(cfg, eps, p) <==> p <= cfg.maxRequests + 1
  {
    hide Reaches, Frugal, GivesBack;
    if p <= cfg.maxRequests + 1 {
      forall labs, w | Reaches(cfg, eps, labs, w) && Uneventful(labs) && Unfinished(w.reqs) <= p
        ensures w.sh.inflight <= cfg.maxRequests + 1
      {
        Always(cfg, eps, labs, w);
        AlwaysFrugal(cfg, eps, labs, w);
        CountedAreUnfinished(cfg, w.reqs);
      }
    } else {
      var labs, w := CounterUnbounded(cfg, eps, cfg.maxRequests + 2);
      TameMeans(labs, "");
    }
  }

  // ----- The per-endpoint cap -----

  /** One below the cap in flight, and `k` more past the cap check. */
  lemma {:induction false} Crowd(cfg: Config, a: Addr, p: nat, k: nat) returns (labs: seq<Label>, w: World)
    requires cfg.epMax >= 1 && p >= 1 && k <= p && (cfg.maxRequests <= 0 || cfg.epMax - 1 + p <= cfg.maxRequests)
    ensures var c := cfg.epMax - 1;
            && Watched(cfg, a, labs, w, k, p) && Solo(w, a, c + k, c) && |w.reqs| == c + k
            && Row(w, a, c, k)
  {
    var c := cfg.epMax - 1;
    if k == 0 {
      labs, w := Fly(cfg, a, c);
      Widen(cfg, a, labs, w, 0, 1, p);
    } else {
      labs, w := Crowd(cfg, a, p, k - 1);
      hide Watched, Solo;
      labs, w := Board(cfg, a, labs, w, k - 1, p, c + k - 1, c);
      labs, w := Choose(cfg, a, labs, w, k - 1, p, c + k - 1, c + k, c);
    }
  }

  /** The `k` requests from number `b` on have passed the cap check of `a`. */
  predicate Row(w: World, a: Addr, b: nat, k: nat) {
    b + k <= |w.reqs| && forall i :: b <= i < b + k ==> w.reqs[i].pc == Chosen(a, [a])
  }

  lemma RowLast(w: World, a: Addr, b: nat, k: nat)
    requires k > 0 && Row(w, a, b, k)
    ensures b + k - 1 < |w.reqs| && w.reqs[b + k - 1].pc == Chosen(a, [a])
  {
  }

  lemma RowShrinks(w: World, w': World, a: Addr, b: nat, k: nat)
    requires k > 0 && Row(w, a, b, k) && Others(w, w', b + k - 1)
    ensures Row(w', a, b, k - 1)
  {
  }

  /** `k` requests from number `b` on are counted on the endpoint. */
  lemma {:induction false} LiftAll(
      cfg: Config, a: Addr, labs: seq<Label>, w: World, p: nat, b: nat, k: nat, n: int, c: int)
      returns (labs': seq<Label>, w': World)
    requires k <= p && Watched(cfg, a, labs, w, k, p) && Solo(w, a, n, c) && Row(w, a, b, k)
    ensures Watched(cfg, a, labs', w', 0, p) && Solo(w', a, n, c + k)
    decreases k
  {
    hide *;
    labs', w' := labs, w;
    if k > 0 {
      RowLast(w, a, b, k);
      labs', w' := Lift(cfg, a, labs, w, k, p, b + k - 1, n, c);
      RowShrinks(w, w', a, b, k);
      labs', w' := LiftAll(cfg, a, labs', w', p, b, k - 1, n, c + 1);
    }
  }

  /** The cap bound is exact: `p` requests in the window at once do take the count to the cap plus `p` less one. */
  lemma CapPassed(cfg: Config, a: Addr, p: nat) returns (labs: seq<Label>, w: World)
    requires cfg.epMax >= 1 && p >= 1 && (cfg.maxRequests <= 0 || cfg.epMax - 1 + p <= cfg.maxRequests)
    ensures Reaches(cfg, [a], labs, w) && NoFallback(labs, a) && WindowWithin(cfg, [a], labs, a, p)
    ensures w.sh.state == map[a := 0] && w.sh.cells == [cfg.epMax - 1 + p]
  {
    hide Reaches, Tame, WindowWithin;
    var c := cfg.epMax - 1;
    labs, w := Crowd(cfg, a, p, p);
    labs, w := LiftAll(cfg, a, labs, w, p, c, p, c + p, c);
    TameMeans(labs, a);
  }

  /** With at most `p` requests in the window of an endpoint, and no fallback pick of it, its count keeps to the cap. */
  ghost predicate CapHeld(cfg: Config, p: nat) {
    forall eps, labs, w, a :: Reaches(cfg, eps, labs, w) && WindowWithin(cfg, eps, labs, a, p) && NoFallback(labs, a)
                              && a in w.sh.state ==>
      CellAt(w.sh, w.sh.state[a]) <= cfg.epMax
  }

  lemma CellWithinBreaker(cfg: Config, eps: seq<Addr>, labs: seq<Label>, w: World, a: Addr)
    requires cfg.maxRequests > 0 && Reaches(cfg, eps, labs, w) && a in w.sh.state
    ensures CellAt(w.sh, w.sh.state[a]) <= cfg.maxRequests
  {
    Always(cfg, eps, labs, w);
    var r := w.sh.state[a];
    forall l | l in w.reqs ensures W(Cell(r), l) <= W(Weight.Slots, l) {
      assert Books(l);
    }
    TotalLe(Cell(r), Weight.Slots, w.reqs);
    assert w.sh.cells[r] == Total(Cell(r), w.reqs);
  }

  /** The cap is never passed exactly when one request at a time may stand in the window, or the breaker keeps below it. */
  lemma CapHeldExactly(cfg: Config, p: nat)
    requires cfg.epMax >= 1
    ensures CapHeld(cfg, p) <==> p <= 1 || 0 < cfg.maxRequests <= cfg.epMax
  {
    hide Reaches, WindowWithin, NoFallback;
    if p <= 1 || 0 < cfg.maxRequests <= cfg.epMax {
      forall eps, labs, w, a | Reaches(cfg, eps, labs, w) && WindowWithin(cfg, eps, labs, a, p) && NoFallback(labs, a)
                               && a in w.sh.state
        ensures CellAt(w.sh, w.sh.state[a]) <= cfg.epMax
      {
        if p <= 1 {
          WindowWidens(cfg, eps, labs, a, p, 1);
          CapNearlyHolds(cfg, eps, labs, w, a, 1);
        } else {
          CellWithinBreaker(cfg, eps, labs, w, a);
        }
      }
    } else {
      var a := "a";
      var labs, w := CapPassed(cfg, a, 2);
      WindowWidens(cfg, [a], labs, a, 2, p);
      assert CellAt(w.sh, w.sh.state[a]) == cfg.epMax + 1;
    }
  }

  lemma WindowWidens(cfg: Config, eps: seq<Addr>, labs: seq<Label>, a: Addr, p: nat, q: nat)
    requires WindowWithin(cfg, eps, labs, a, p) && p <= q
    ensures WindowWithin(cfg, eps, labs, a, q)
  {
    hide Total;
  }
}
