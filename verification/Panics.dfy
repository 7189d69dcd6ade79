/** When a backoff asks for a negative random bound, over whole runs of the interleaved system. */
module Panics {
  import opened Prelude
  import opened Program
  import opened Interleaving
  import opened Safety
  import opened Schedules
  import Backoff

  /** The backoff that follows attempt `k` asks for a negative random bound. */
  predicate PanicsAfter(plan: Plan, k: nat) {
    k + 1 < plan.limit && Backoff.Shifted(plan.backoffBase, k) <= -4
  }

  /** Some run of a cluster with these limits has a request with this policy that panics. */
  ghost predicate CanPanic(cfg: Config, plan: Plan) {
    exists eps, labs, w, i :: Reaches(cfg, eps, labs, w) && 0 <= i < |w.reqs|
                              && w.reqs[i].plan == plan && w.reqs[i].pc == Done(Panicked)
  }

  // ----- A request alone on one endpoint -----

  /** The only request, with this policy, stands at `pc` of attempt `k`; `n` slots and in-flight calls are counted. */
  ghost predicate Lone(cfg: Config, a: Addr, plan: Plan, labs: seq<Label>, w: World, pc: Pc, k: nat, n: nat) {
    && Reaches(cfg, [a], labs, w) && Tame(labs) && Solo(w, a, n, n)
    && |w.reqs| == 1 && w.reqs[0].plan == plan && w.reqs[0].pc == pc && w.reqs[0].attempt == k
  }

  lemma Alone(cfg: Config, a: Addr, plan: Plan) returns (labs: seq<Label>, w: World)
    requires plan.limit >= 1
    ensures Lone(cfg, a, plan, labs, w, Top, 0, 0)
  {
    BootWatched(cfg, a);
    labs, w := Extend(cfg, [a], [], Boot([a]), Arrive(plan));
  }

  lemma TakeOff(cfg: Config, a: Addr, plan: Plan, labs: seq<Label>, w: World, k: nat)
      returns (labs': seq<Label>, w': World)
    requires Lone(cfg, a, plan, labs, w, Top, k, 0) && k < plan.limit
    ensures Lone(cfg, a, plan, labs', w', Flying(a, Some(0)), k, 1)
  {
    hide Reaches, Tame;
    labs', w' := Move(cfg, [a], labs, w, 0, AddGranted, Snap);
    labs', w' := Move(cfg, [a], labs', w', 0, Snapshot([a]), Scan([a]));
    labs', w' := Climb(cfg, a, plan, labs', w', k);
  }

  lemma Climb(cfg: Config, a: Addr, plan: Plan, labs: seq<Label>, w: World, k: nat)
      returns (labs': seq<Label>, w': World)
    requires Reaches(cfg, [a], labs, w) && Tame(labs) && Solo(w, a, 1, 0) && |w.reqs| == 1
    requires w.reqs[0].plan == plan && w.reqs[0].pc == Scan([a]) && w.reqs[0].attempt == k
    ensures Lone(cfg, a, plan, labs', w', Flying(a, Some(0)), k, 1)
  {
    hide Reaches, Tame;
    labs', w' := Move(cfg, [a], labs, w, 0, ChooseUnderCap(a), Chosen(a, [a]));
    labs', w' := Move(cfg, [a], labs', w', 0, LookUp(Some(0)), Looked(a, Some(0)));
    labs', w' := Move(cfg, [a], labs', w', 0, IncAdd, Flying(a, Some(0)));
  }

  lemma FailCall(cfg: Config, a: Addr, plan: Plan, labs: seq<Label>, w: World, k: nat)
      returns (labs': seq<Label>, w': World)
    requires Lone(cfg, a, plan, labs, w, Flying(a, Some(0)), k, 1) && k + 1 < plan.limit
    ensures Lone(cfg, a, plan, labs', w', Backing, k, 0)
  {
    hide Reaches, Tame;
    labs', w' := Move(cfg, [a], labs, w, 0, TransportError(false), DecLook(a, Some(0), Retry));
    labs', w' := Move(cfg, [a], labs', w', 0, LookUp(Some(0)), DecSub(Some(0), Some(0), Retry));
    labs', w' := Move(cfg, [a], labs', w', 0, SubEndpoint(false), Releasing(Retry));
    labs', w' := Move(cfg, [a], labs', w', 0, SubSlot(false), Backing);
  }

  lemma SleepOn(cfg: Config, a: Addr, plan: Plan, labs: seq<Label>, w: World, k: nat)
      returns (labs': seq<Label>, w': World)
    requires Lone(cfg, a, plan, labs, w, Backing, k, 0)
    ensures if Backoff.Shifted(plan.backoffBase, k) <= -4 then Lone(cfg, a, plan, labs', w', Done(Panicked), k, 0)
            else Lone(cfg, a, plan, labs', w', Top, k + 1, 0)
  {
    hide Reaches, Tame, Backoff.Delay, Backoff.Shifted;
    Backoff.PanicsExactly(plan.backoffBase, plan.backoffMax, k, 0);
    var pc := if DelayFor(w.reqs[0], 0).None? then Done(Panicked) else Top;
    labs', w' := Move(cfg, [a], labs, w, 0, Sleep(0, None), pc);
  }

  /** Attempt `k` is reached by failures alone, if no earlier backoff panics. */
  lemma {:induction false} FailUpTo(cfg: Config, a: Addr, plan: Plan, k: nat) returns (labs: seq<Label>, w: World)
    requires k < plan.limit && forall j :: 0 <= j < k ==> Backoff.Shifted(plan.backoffBase, j) > -4
    ensures Lone(cfg, a, plan, labs, w, Top, k, 0)
  {
    if k == 0 {
      labs, w := Alone(cfg, a, plan);
    } else {
      labs, w := FailUpTo(cfg, a, plan, k - 1);
      hide Lone;
      labs, w := TakeOff(cfg, a, plan, labs, w, k - 1);
      labs, w := FailCall(cfg, a, plan, labs, w, k - 1);
      labs, w := SleepOn(cfg, a, plan, labs, w, k - 1);
    }
  }

  lemma {:induction false} FirstPanic(plan: Plan, k: nat) returns (j: nat)
    requires PanicsAfter(plan, k)
    ensures PanicsAfter(plan, j) && forall i :: 0 <= i < j ==> Backoff.Shifted(plan.backoffBase, i) > -4
  {
    if i :| 0 <= i < k && Backoff.Shifted(plan.backoffBase, i) <= -4 {
      j := FirstPanic(plan, i);
    } else {
      j := k;
    }
  }

  /** A request without company panics in the first backoff that can. */
  lemma PanicHappens(cfg: Config, plan: Plan, k: nat)
    requires PanicsAfter(plan, k)
    ensures CanPanic(cfg, plan)
  {
    var j := FirstPanic(plan, k);
    var a := "a";
    var labs, w := FailUpTo(cfg, a, plan, j);
    assert Lone(cfg, a, plan, labs, w, Top, j, 0);
    hide Lone;
    labs, w := TakeOff(cfg, a, plan, labs, w, j);
    labs, w := FailCall(cfg, a, plan, labs, w, j);
    labs, w := SleepOn(cfg, a, plan, labs, w, j);
    LonePanics(cfg, a, plan, labs, w, j);
  }

  lemma LonePanics(cfg: Config, a: Addr, plan: Plan, labs: seq<Label>, w: World, k: nat)
    requires Lone(cfg, a, plan, labs, w, Done(Panicked), k, 0)
    ensures CanPanic(cfg, plan)
  {
    hide Reaches;
    assert w.reqs[0].plan == plan;
  }

  // ----- The exact condition -----

  lemma PanicSeen(plan: Plan, acts: seq<Action>, l: Local) returns (k: nat)
    requires plan.limit >= 1 && Run(Start(plan), acts) == Some(l) && l.pc == Done(Panicked)
    ensures PanicsAfter(plan, k)
  {
    var before := Run(Start(plan), acts[..|acts| - 1]).value;
    RunBalances(plan, acts[..|acts| - 1]);
    hide Run, Program.Slots, Calls, Response, Backoffs, Backoff.Delay, Backoff.Shifted;
    var a := acts[|acts| - 1];
    assert before.pc == Backing && a.Sleep?;
    k := before.attempt;
    Backoff.PanicsExactly(plan.backoffBase, plan.backoffMax, k, a.draw);
  }

  /** On a cluster with any limits some run of a policy panics exactly when the shift overflows to -4 or less after an
      attempt but the last. */
  lemma RunPanicsExactly(cfg: Config, plan: Plan)
    ensures CanPanic(cfg, plan) <==> exists k: nat :: PanicsAfter(plan, k)
  {
    if CanPanic(cfg, plan) {
      hide Reaches, PanicsAfter;
      var eps, labs, w, i :| Reaches(cfg, eps, labs, w) && 0 <= i < |w.reqs|
                             && w.reqs[i].plan == plan && w.reqs[i].pc == Done(Panicked);
      Always(cfg, eps, labs, w);
      assert Books(w.reqs[i]);
      var acts := RequestIsRun(cfg, eps, labs, w, i);
      var k := PanicSeen(plan, acts, w.reqs[i]);
    }
    if exists k: nat :: PanicsAfter(plan, k) {
      hide CanPanic;
      var k: nat :| PanicsAfter(plan, k);
      PanicHappens(cfg, plan, k);
    }
  }

  /** With the default base that takes forty attempts. */
  lemma DefaultBasePanicsExactly(cfg: Config, plan: Plan)
    requires Backoff.EffectiveBase(plan.backoffBase) == Backoff.DEFAULT_BASE
    ensures CanPanic(cfg, plan) <==> plan.limit >= 40
  {
    hide CanPanic;
    RunPanicsExactly(cfg, plan);
    Backoff.DefaultShift(plan.backoffBase);
    if plan.limit >= 40 {
      assert PanicsAfter(plan, 38);
    } else {
      forall k: nat ensures !PanicsAfter(plan, k) {
        if k <= 37 {
          Backoff.DefaultShiftFits(plan.backoffBase, k);
        }
      }
    }
  }
}
