/**
 One request's path through UpstreamProxy.OnRequest and waitForCapacity (internal/httpcm/upstream.go), cut at every
 atomic operation and lock section of the cluster manager (internal/cluster/manager.go) and at every point where the
 outside world decides. The outcome of a cut is an `Action`; `Advance` is the control flow between two cuts.
 */
module Program {
  import opened Prelude
  import Backoff

  type Addr = string

  /** Why a request waits: the breaker refused it, or every eligible endpoint was at its own cap. */
  datatype Reason = BreakerOpen | EndpointsFull

  datatype Exit =
    | Succeeded
    | Rejected      // waitForCapacity answered 503 or 504
    | HardPick      // Pick found no endpoint at all
    | BuildFailed   // http.NewRequestWithContext failed
    | WriteFailed   // the downstream write failed
    | Exhausted     // the attempt loop ran out
    | Panicked      // backoffWithJitter asked for a negative random bound

  /** What follows the release of a slot. */
  datatype Next = WaitForEndpoint | Retry | Conclude | Abort

  datatype Pc =
    | Top                                                  // loop test, then the add of TryAcquire
    | Undo                                                 // the add went over the limit: about to roll back
    | Enter(why: Reason)                                   // about to send on the pending channel
    | Poll(why: Reason)                                    // queued, about to add again
    | PollUndo(why: Reason)                                // queued, about to roll back
    | PollWait(why: Reason)                                // queued, between ticks
    | Leave(why: Reason, got: bool)                        // about to receive from the pending channel
    | Snap                                                 // slot held, about to read the endpoint list
    | Scan(eps: seq<Addr>)                                 // Pick is scanning its snapshot
    | Chosen(ep: Addr, eps: seq<Addr>)                     // Pick's scan holds `ep` as its candidate
    | Looked(ep: Addr, ref: Option<nat>)                   // IncEndpointInFlight found the state entry
    | Flying(ep: Addr, ref: Option<nat>)                   // counted on the endpoint, talking to it
    | DecLook(ep: Addr, ref: Option<nat>, next: Next)      // about to look the entry up again
    | DecSub(ref: Option<nat>, found: Option<nat>, next: Next) // about to decrement it
    | EpClamp(found: Option<nat>, next: Next)              // the decrement went below zero
    | Releasing(next: Next)                                // about to decrement the breaker counter
    | Clamping(next: Next)                                 // that decrement went below zero
    | Backing                                              // about to back off
    | Done(exit: Exit)

  datatype Action =
    | Exhaust
    | AddGranted | AddDenied | RollBack
    | EnterQueue | QueueClosed | Tick | ContextDone | Receive
    | Snapshot(eps: seq<Addr>)
    | ChooseUnderCap(ep: Addr)   // the cap check on `ep` passed
    | ChooseAny(ep: Addr)        // fallback: no endpoint was available
    | NoCapacity                 // ErrNoEndpointCapacity
    | LookUp(ref: Option<nat>)
    | IncAdd
    | BuildError | TransportError(timeout: bool) | WriteError | Respond(status: int)
    | SubEndpoint(negative: bool) | ClampEndpoint
    | SubSlot(negative: bool) | ClampSlot
    | Sleep(draw: nat, cancelled: Option<bool>)  // cancelled: reqCtx ended first, by a deadline or not

  datatype LastErr = NoErr | TimedOut | Other

  /** The merged policy of one request. */
  datatype Plan = Plan(limit: nat, backoffBase: int, backoffMax: int)

  /** How often each ledger event has happened. */
  datatype Tally = Tally(
    acquires: nat, releases: nat,  // breaker slots granted and given back
    carried: nat,                  // endpoint-capacity waits that ended in `continue`
    entered: nat, left: nat,       // sends on and receives from the pending channel
    started: nat, failures: nat, successes: nat,
    backoffs: nat)

  /** Program counter, the loop's variables, the response fields, and the books. */
  datatype Local = Local(
    plan: Plan, pc: Pc, attempt: nat, lastErr: LastErr,
    reply: int, responded: bool, status: int,
    tally: Tally, backedOff: int, stuck: Option<nat>)

  function Start(plan: Plan): (l: Local) {
    Local(plan, Top, 0, NoErr, 0, false, 0, Tally(0, 0, 0, 0, 0, 0, 0, 0, 0), 0, None)
  }

  function DelayFor(l: Local, draw: nat): (d: Option<int>) {
    Backoff.Delay(l.plan.backoffBase, l.plan.backoffMax, l.attempt, draw)
  }

  predicate LastAttempt(l: Local) {
    l.attempt + 1 >= l.plan.limit
  }

  /** After the slot is released. */
  function Released(l: Local, next: Next): (pc: Pc) {
    match next
    case WaitForEndpoint => Enter(EndpointsFull)
    case Retry => if LastAttempt(l) then Top else Backing
    case Conclude => Done(Succeeded)
    case Abort => Done(WriteFailed)
  }

  /** Where `a` takes the program; `None` when the action does not belong to the program point. */
  function NextPc(l: Local, a: Action): (pc: Option<Pc>) {
    match l.pc
    case Top =>
      if l.attempt >= l.plan.limit then if a.Exhaust? then Some(Done(Exhausted)) else None
      else if a.AddGranted? then Some(Snap)
      else if a.AddDenied? then Some(Undo) else None
    case Undo => if a.RollBack? then Some(Enter(BreakerOpen)) else None
    case Enter(why) =>
      if a.EnterQueue? then Some(Poll(why)) else if a.QueueClosed? then Some(Done(Rejected)) else None
    case Poll(why) =>
      if a.AddGranted? then Some(Leave(why, true)) else if a.AddDenied? then Some(PollUndo(why)) else None
    case PollUndo(why) => if a.RollBack? then Some(PollWait(why)) else None
    case PollWait(why) =>
      if a.Tick? then Some(Poll(why)) else if a.ContextDone? then Some(Leave(why, false)) else None
    case Leave(why, got) =>
      if !a.Receive? then None
      else Some(if !got then Done(Rejected) else if why == BreakerOpen then Snap else Top)
    case Snap => if a.Snapshot? then Some(if a.eps == [] then Done(HardPick) else Scan(a.eps)) else None
    case Scan(eps) =>
      if (a.ChooseUnderCap? || a.ChooseAny?) && a.ep in eps then Some(Chosen(a.ep, eps))
      else if a.NoCapacity? then Some(Releasing(WaitForEndpoint)) else None
    case Chosen(ep, eps) =>
      if a.ChooseUnderCap? && a.ep in eps then Some(Chosen(a.ep, eps))  // least_requests found a better one
      else if a.LookUp? then Some(Looked(ep, a.ref)) else None
    case Looked(ep, ref) => if a.IncAdd? then Some(Flying(ep, ref)) else None
    case Flying(ep, ref) =>
      if a.BuildError? then Some(Done(BuildFailed))
      else if a.TransportError? then Some(DecLook(ep, ref, Retry))
      else if a.WriteError? then Some(DecLook(ep, ref, Abort))
      else if a.Respond? then Some(DecLook(ep, ref, Conclude)) else None
    case DecLook(ep, ref, next) => if a.LookUp? then Some(DecSub(ref, a.ref, next)) else None
    case DecSub(ref, found, next) =>
      if a.SubEndpoint? then Some(if a.negative then EpClamp(found, next) else Releasing(next)) else None
    case EpClamp(found, next) => if a.ClampEndpoint? then Some(Releasing(next)) else None
    case Releasing(next) =>
      if a.SubSlot? then Some(if a.negative then Clamping(next) else Released(l, next)) else None
    case Clamping(next) => if a.ClampSlot? then Some(Released(l, next)) else None
    case Backing =>
      if a.Sleep? then Some(if DelayFor(l, a.draw).None? then Done(Panicked) else Top) else None
    case Done(_) => None
  }

  /** The step is a `continue` that keeps the slot just gained. */
  predicate Carries(pc: Pc, a: Action) {
    pc == Leave(EndpointsFull, true) && a.Receive?
  }

  /** The loop variable after a step to `pc`. */
  function NextAttempt(l: Local, a: Action, pc: Pc): (n: nat) {
    if a.Sleep? && a.cancelled.Some? && pc == Top then l.plan.limit + 1
    else if pc == Top then l.attempt + 1
    else l.attempt
  }

  function NextErr(l: Local, a: Action, pc: Pc): (e: LastErr) {
    if a.TransportError? then if a.timeout then TimedOut else Other
    else if a.Sleep? && a.cancelled.Some? && pc == Top then if a.cancelled.value then TimedOut else Other
    else l.lastErr
  }

  function NextTally(l: Local, a: Action, pc: Pc): (t: Tally) {
    var t := l.tally;
    Tally(
      t.acquires + B2I(a.AddGranted?), t.releases + B2I(a.SubSlot?),
      t.carried + B2I(Carries(l.pc, a)),
      t.entered + B2I(a.EnterQueue?), t.left + B2I(a.Receive?),
      t.started + B2I(pc.Looked?), t.failures + B2I(a.TransportError?), t.successes + B2I(a.Respond?),
      t.backoffs + B2I(a.Sleep? && pc == Top))
  }

  /** A rejection answers at once; a success publishes its status after the endpoint is settled. */
  function NextStatus(l: Local, a: Action, pc: Pc): (status: int) {
    if pc == Done(Rejected) then if a.QueueClosed? then 503 else 504
    else if pc == Releasing(Conclude) then l.reply
    else l.status
  }

  /** One step of one request. */
  function Advance(l: Local, a: Action): (m: Option<Local>) {
    match NextPc(l, a)
    case None => None
    case Some(pc) =>
      Some(Local(
             l.plan, pc, NextAttempt(l, a, pc), NextErr(l, a, pc),
             if a.Respond? then a.status else l.reply,
             l.responded || pc == Done(Rejected) || pc == Releasing(Conclude), NextStatus(l, a, pc),
             NextTally(l, a, pc),
             if a.Sleep? && pc == Top then l.backedOff + DelayFor(l, a.draw).value else l.backedOff,
             if a.BuildError? then l.pc.ref else l.stuck))
  }

  /** Executes a list of actions. */
  function Run(l: Local, acts: seq<Action>): (m: Option<Local>)
  {
    if acts == [] then Some(l)
    else
      match Run(l, acts[..|acts| - 1])
      case None => None
      case Some(m) => Advance(m, acts[|acts| - 1])
  }

  // ----- Where a request stands -----

  /** The request owns a slot it has not released (and will, unless it leaves by one of the two leaking exits). */
  predicate Holding(pc: Pc) {
    match pc
    case Leave(_, got) => got
    case Snap | Scan(_) | Chosen(_, _) | Looked(_, _) | Flying(_, _) => true
    case DecLook(_, _, _) | DecSub(_, _, _) | EpClamp(_, _) | Releasing(_) => true
    case Done(exit) => exit == HardPick || exit == BuildFailed
    case _ => false
  }

  predicate Waiting(pc: Pc) {
    pc.Poll? || pc.PollUndo? || pc.PollWait? || pc.Leave?
  }

  /** The program point is past the upstream call and `next` follows. */
  predicate Bound(pc: Pc, next: Next) {
    (pc.DecLook? || pc.DecSub? || pc.EpClamp? || pc.Releasing? || pc.Clamping?) && pc.next == next
  }

  /** An attempt that started and has been counted neither as a failure nor as a success. */
  predicate Open(pc: Pc) {
    pc.Looked? || pc.Flying? || Bound(pc, Abort) || pc == Done(BuildFailed) || pc == Done(WriteFailed)
  }

  /** The failed attempt has been counted but the loop variable has not moved on. */
  predicate Failing(pc: Pc) {
    pc == Backing || pc == Done(Panicked) || Bound(pc, Retry)
  }

  function B2I(b: bool): (n: nat) {
    if b then 1 else 0
  }

  /** Every started request keeps these books. */
  predicate Books(l: Local) {
    l.plan.limit >= 1 && Slots(l) && Calls(l) && Response(l) && Attempts(l) && Backoffs(l)
  }

  predicate Slots(l: Local) {
    && l.tally.acquires - l.tally.releases == l.tally.carried + B2I(Holding(l.pc))
    && l.tally.entered - l.tally.left == B2I(Waiting(l.pc))
    && (l.stuck.Some? ==> l.pc == Done(BuildFailed))
  }

  predicate Calls(l: Local) {
    && l.tally.started == l.tally.failures + l.tally.successes + B2I(Open(l.pc))
    && l.tally.successes == B2I(Bound(l.pc, Conclude) || l.pc == Done(Succeeded))
  }

  predicate Response(l: Local) {
    && (l.responded <==>
        l.pc == Done(Rejected) || l.pc == Done(Succeeded)
        || l.pc == Releasing(Conclude) || l.pc == Clamping(Conclude))
    && (l.pc == Done(Rejected) ==> l.status == 503 || l.status == 504)
  }

  /** The loop variable against the failures and capacity waits that moved it. */
  predicate Spent(l: Local) {
    var spent := l.tally.failures + l.tally.carried;
    if Failing(l.pc) then l.attempt + 1 == spent <= l.plan.limit
    else if l.attempt == l.plan.limit + 1 then (l.pc == Top || l.pc == Done(Exhausted)) && 0 < spent < l.plan.limit
    else l.attempt == spent <= l.plan.limit
  }

  /** The loop variable against the limit. */
  predicate AttemptRange(l: Local) {
    && (l.pc != Top && l.pc != Done(Exhausted) && !Failing(l.pc) ==> l.attempt < l.plan.limit)
    && (l.pc == Done(Exhausted) ==> l.attempt >= l.plan.limit)
    && (l.pc == Backing ==> l.attempt + 1 < l.plan.limit)
  }

  predicate Attempts(l: Local) {
    Spent(l) && AttemptRange(l)
  }

  /** At most one backoff a failure, none after the last attempt, and an error remembered from the first failure on. */
  predicate Backoffs(l: Local) {
    && l.tally.backoffs <= l.tally.failures
    && (Failing(l.pc) ==> l.tally.backoffs < l.tally.failures)
    && (l.tally.backoffs > 0 ==> l.tally.backoffs < l.plan.limit)
    && (l.lastErr == NoErr <==> l.tally.failures == 0)
    && (l.attempt == l.plan.limit + 1 ==> l.tally.failures > 0)
  }

  lemma AdvanceKeepsSlots(l: Local, a: Action, m: Local)
    requires Slots(l) && NextPc(l, a) == Some(m.pc) && m.tally == NextTally(l, a, m.pc)
    requires m.stuck == if a.BuildError? then l.pc.ref else l.stuck
    ensures Slots(m)
  {
  }

  lemma AdvanceKeepsCalls(l: Local, a: Action, m: Local)
    requires Calls(l) && NextPc(l, a) == Some(m.pc) && m.tally == NextTally(l, a, m.pc)
    ensures Calls(m)
  {
    hide NextPc, NextTally;
    AdvanceKeepsStarted(l, a, m);
    AdvanceKeepsSuccesses(l, a, m);
  }

  lemma AdvanceKeepsStarted(l: Local, a: Action, m: Local)
    requires Calls(l) && NextPc(l, a) == Some(m.pc) && m.tally == NextTally(l, a, m.pc)
    ensures m.tally.started == m.tally.failures + m.tally.successes + B2I(Open(m.pc))
  {
  }

  lemma AdvanceKeepsSuccesses(l: Local, a: Action, m: Local)
    requires Calls(l) && NextPc(l, a) == Some(m.pc) && m.tally == NextTally(l, a, m.pc)
    ensures m.tally.successes == B2I(Bound(m.pc, Conclude) || m.pc == Done(Succeeded))
  {
  }

  lemma AdvanceKeepsResponse(l: Local, a: Action, m: Local)
    requires Response(l) && NextPc(l, a) == Some(m.pc) && m.status == NextStatus(l, a, m.pc)
    requires m.responded <==> l.responded || m.pc == Done(Rejected) || m.pc == Releasing(Conclude)
    ensures Response(m)
  {
  }

  lemma AdvanceKeepsAttempts(l: Local, a: Action, m: Local)
    requires l.plan.limit >= 1 && Attempts(l) && NextPc(l, a) == Some(m.pc) && m.tally == NextTally(l, a, m.pc)
    requires m.attempt == NextAttempt(l, a, m.pc) && m.plan == l.plan
    ensures Attempts(m)
  {
    hide NextPc, NextTally, NextAttempt;
    AdvanceKeepsSpent(l, a, m);
    AdvanceKeepsAttemptRange(l, a, m);
  }

  lemma AdvanceKeepsSpent(l: Local, a: Action, m: Local)
    requires l.plan.limit >= 1 && Attempts(l) && NextPc(l, a) == Some(m.pc) && m.tally == NextTally(l, a, m.pc)
    requires m.attempt == NextAttempt(l, a, m.pc) && m.plan == l.plan
    ensures Spent(m)
  {
  }

  lemma AdvanceKeepsAttemptRange(l: Local, a: Action, m: Local)
    requires l.plan.limit >= 1 && Attempts(l) && NextPc(l, a) == Some(m.pc)
    requires m.attempt == NextAttempt(l, a, m.pc) && m.plan == l.plan
    ensures AttemptRange(m)
  {
  }

  lemma AdvanceKeepsBackoffs(l: Local, a: Action, m: Local)
    requires Attempts(l) && Backoffs(l) && NextPc(l, a) == Some(m.pc) && m.tally == NextTally(l, a, m.pc)
    requires m.lastErr == NextErr(l, a, m.pc) && m.attempt == NextAttempt(l, a, m.pc) && m.plan == l.plan
    ensures Backoffs(m)
  {
  }

  lemma AdvanceBalances(l: Local, a: Action, m: Local)
    requires Books(l) && Advance(l, a) == Some(m)
    ensures Books(m) && m.plan == l.plan
  {
    hide NextPc, NextTally, NextAttempt, NextErr, NextStatus, Slots, Calls, Response, Attempts, Backoffs;
    AdvanceKeepsSlots(l, a, m);
    AdvanceKeepsCalls(l, a, m);
    AdvanceKeepsResponse(l, a, m);
    AdvanceKeepsAttempts(l, a, m);
    AdvanceKeepsBackoffs(l, a, m);
  }

  lemma {:induction false} RunBalances(plan: Plan, acts: seq<Action>)
    requires plan.limit >= 1 && Run(Start(plan), acts).Some?
    ensures Books(Run(Start(plan), acts).value) && Run(Start(plan), acts).value.plan == plan
  {
    if acts != [] {
      RunBalances(plan, acts[..|acts| - 1]);
      AdvanceBalances(Run(Start(plan), acts[..|acts| - 1]).value, acts[|acts| - 1], Run(Start(plan), acts).value);
    }
  }

  // ----- The ledgers of a finished run -----

  /** The two exits that return without releasing the slot they hold. */
  predicate Leaks(exit: Exit) {
    exit == HardPick || exit == BuildFailed
  }

  /** Slots: what a finished run took and did not give back. */
  lemma SlotLedger(plan: Plan, acts: seq<Action>, l: Local, exit: Exit)
    requires plan.limit >= 1 && Run(Start(plan), acts) == Some(l) && l.pc == Done(exit)
    ensures l.tally.acquires - l.tally.releases == l.tally.carried + B2I(Leaks(exit))
    ensures l.tally.entered == l.tally.left
    ensures l.tally.carried <= plan.limit
  {
    RunBalances(plan, acts);
  }

  /** Attempts, outcomes and the response of a finished run. */
  lemma RetryLedger(plan: Plan, acts: seq<Action>, l: Local, exit: Exit)
    requires plan.limit >= 1 && Run(Start(plan), acts) == Some(l) && l.pc == Done(exit)
    ensures l.tally.started <= plan.limit - l.tally.carried
    ensures l.tally.started ==
            l.tally.failures + l.tally.successes + B2I(exit == BuildFailed || exit == WriteFailed)
    ensures l.tally.successes == B2I(exit == Succeeded)
    ensures l.responded <==> exit == Succeeded || exit == Rejected
    ensures exit == Rejected ==> l.status == 503 || l.status == 504
    ensures l.tally.backoffs <= plan.limit - 1
    ensures exit == Exhausted && l.lastErr == NoErr <==> l.tally.carried == plan.limit
  {
    RunBalances(plan, acts);
  }

  /** Total backoff of any run, finished or not. */
  lemma {:induction false} BackoffLedger(plan: Plan, acts: seq<Action>, l: Local)
    requires plan.limit >= 1 && Backoff.Ceiling(plan.backoffMax) < TWO_63
    requires Run(Start(plan), acts) == Some(l)
    ensures l.backedOff <= (plan.limit - 1) * Backoff.Ceiling(plan.backoffMax)
  {
    var c := Backoff.Ceiling(plan.backoffMax);
    RunBalances(plan, acts);
    BackoffPerSleep(plan, acts, l, c);
    assert l.tally.backoffs <= plan.limit - 1 && c >= 0;
    hide *;
    MulMonotone(l.tally.backoffs, plan.limit - 1, c);
  }

  lemma {:induction false} BackoffPerSleep(plan: Plan, acts: seq<Action>, l: Local, c: int)
    requires plan.limit >= 1 && c == Backoff.Ceiling(plan.backoffMax) < TWO_63
    requires Run(Start(plan), acts) == Some(l)
    ensures l.backedOff <= l.tally.backoffs * c
  {
    hide Advance, Slots, Calls, Response, Attempts, Backoffs;
    if acts != [] {
      var before, a := Run(Start(plan), acts[..|acts| - 1]).value, acts[|acts| - 1];
      BackoffPerSleep(plan, acts[..|acts| - 1], before, c);
      RunBalances(plan, acts[..|acts| - 1]);
      OneBackoff(before, a, l, c);
      MulSucc(before.tally.backoffs, c);
    }
  }

  /** A step adds at most the ceiling, and only when it counts a backoff. */
  lemma OneBackoff(l: Local, a: Action, m: Local, c: int)
    requires c == Backoff.Ceiling(l.plan.backoffMax) < TWO_63 && Advance(l, a) == Some(m)
    ensures if m.tally.backoffs == l.tally.backoffs then m.backedOff == l.backedOff
            else m.tally.backoffs == l.tally.backoffs + 1 && m.backedOff <= l.backedOff + c
  {
    if a.Sleep? && m.pc == Top {
      Backoff.DelayBounded(l.plan.backoffBase, l.plan.backoffMax, l.attempt, a.draw);
    }
  }

  lemma MulSucc(x: int, c: int)
    ensures (x + 1) * c == x * c + c
  {
  }

  lemma MulMonotone(x: int, y: int, c: int)
    requires x <= y && c >= 0
    ensures x * c <= y * c
  {
  }
}
