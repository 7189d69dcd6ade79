/**
 The upstream filter (internal/httpcm/upstream.go): policy merge, the attempt loop and the pending wait. Everything the
 outside decides (breaker and queue outcomes, Pick, transport, writes, clocks, the random source) is read from an
 environment. The ghost trace shows that the loops only ever run the step program of module `Program`.
 */
module Upstream {
  import opened Prelude
  import opened Program
  import opened Http
  import Backoff

  // ----- Policy -----

  /** The configured policy, in milliseconds. */
  datatype RetrySpec = RetrySpec(
    requestTimeoutMs: int, perTryTimeoutMs: int, maxRetries: int, idempotentOnly: bool,
    backoffBaseMs: int, backoffMaxMs: int)

  /** The runtime policy, in nanoseconds. */
  datatype RetryCfg = RetryCfg(
    requestTimeout: int, perTryTimeout: int, maxRetries: int, idempotentOnly: bool, backoffBase: int, backoffMax: int)

  function Override(base: int, o: int): (x: int) {
    if o > 0 then o else base
  }

  /** A positive number of milliseconds as a time.Duration, which wraps. */
  function Millis(base: int, ms: int): (d: int)
    ensures ms > 0 ==> (d == ms * 1_000_000 <==> ms <= MAX_MILLIS)
    ensures ms <= 0 ==> d == base
  {
    if ms > 0 then Wrap64(ms * 1_000_000) else base
  }

  /** The most milliseconds a time.Duration holds. */
  const MAX_MILLIS: int := 9_223_372_036_854

  /** What NewUpstreamProxy stores for a cluster. */
  function FromSpec(spec: Option<RetrySpec>): (cfg: RetryCfg) {
    match spec
    case None => RetryCfg(0, 0, 0, true, 50_000_000, 500_000_000)
    case Some(s) =>
      RetryCfg(
        Millis(0, s.requestTimeoutMs), Millis(0, s.perTryTimeoutMs),
        Override(0, s.maxRetries), s.idempotentOnly,
        Millis(50_000_000, s.backoffBaseMs), Millis(500_000_000, s.backoffMaxMs))
  }

  /** A per-route override replaces positive fields and never the idempotency switch. */
  function Merge(base: RetryCfg, route: Option<RetryCfg>): (pol: RetryCfg) {
    match route
    case None => base
    case Some(o) =>
      RetryCfg(
        Override(base.requestTimeout, o.requestTimeout), Override(base.perTryTimeout, o.perTryTimeout),
        Override(base.maxRetries, o.maxRetries), base.idempotentOnly,
        Override(base.backoffBase, o.backoffBase), Override(base.backoffMax, o.backoffMax))
  }

  predicate Idempotent(method_: string) {
    Upper(method_) in ["GET", "HEAD", "OPTIONS"]
  }

  function MaxAttempts(pol: RetryCfg, method_: string): (n: int) {
    if pol.idempotentOnly && !Idempotent(method_) then 1 else 1 + pol.maxRetries
  }

  /** No configured backoff is too long for a time.Duration. */
  predicate Fits(spec: Option<RetrySpec>) {
    spec.Some? ==> spec.value.backoffBaseMs <= MAX_MILLIS && spec.value.backoffMaxMs <= MAX_MILLIS
  }

  /** The merged policy of a configured cluster always allows an attempt, and its limits are the configured ones. */
  lemma PolicyLimits(spec: Option<RetrySpec>, route: Option<RetryCfg>, method_: string)
    ensures var pol := Merge(FromSpec(spec), route);
            && 1 <= MaxAttempts(pol, method_) <= 1 + pol.maxRetries
            && (Fits(spec) ==> pol.backoffBase > 0 && pol.backoffMax > 0)
    // a request that is not idempotent is retried exactly when a policy is present, leaves the switch off, and retries
    ensures !Idempotent(method_) ==>
              (MaxAttempts(Merge(FromSpec(spec), route), method_) > 1 <==>
               && spec.Some? && !spec.value.idempotentOnly
               && (spec.value.maxRetries > 0 || (route.Some? && route.value.maxRetries > 0)))
  {
  }

  /** A merged setting: the route's if positive, else the cluster's in milliseconds if positive, else the default. */
  predicate Setting(v: int, route: Option<int>, ms: Option<int>, default_: int) {
    v == if route.Some? && route.value > 0 then route.value
         else if ms.Some? && ms.value > 0 then Wrap64(ms.value * 1_000_000)
         else default_
  }

  /** The merged policy, field by field, and the number of attempts it allows a method. */
  lemma PolicyExactly(spec: Option<RetrySpec>, route: Option<RetryCfg>, method_: string)
    ensures var retries := if route.Some? && route.value.maxRetries > 0 then route.value.maxRetries
                           else if spec.Some? && spec.value.maxRetries > 0 then spec.value.maxRetries else 0;
            var retried := || Upper(method_) == "GET" || Upper(method_) == "HEAD" || Upper(method_) == "OPTIONS"
                           || (spec.Some? && !spec.value.idempotentOnly);
            MaxAttempts(Merge(FromSpec(spec), route), method_) == if retried then 1 + retries else 1
    ensures var pol := Merge(FromSpec(spec), route);
            match (spec, route)
            case (Some(s), Some(o)) =>
              && Setting(pol.backoffBase, Some(o.backoffBase), Some(s.backoffBaseMs), 50_000_000)
              && Setting(pol.backoffMax, Some(o.backoffMax), Some(s.backoffMaxMs), 500_000_000)
              && Setting(pol.requestTimeout, Some(o.requestTimeout), Some(s.requestTimeoutMs), 0)
              && Setting(pol.perTryTimeout, Some(o.perTryTimeout), Some(s.perTryTimeoutMs), 0)
            case (Some(s), None) =>
              && Setting(pol.backoffBase, None, Some(s.backoffBaseMs), 50_000_000)
              && Setting(pol.backoffMax, None, Some(s.backoffMaxMs), 500_000_000)
              && Setting(pol.requestTimeout, None, Some(s.requestTimeoutMs), 0)
              && Setting(pol.perTryTimeout, None, Some(s.perTryTimeoutMs), 0)
            case (None, Some(o)) =>
              && Setting(pol.backoffBase, Some(o.backoffBase), None, 50_000_000)
              && Setting(pol.backoffMax, Some(o.backoffMax), None, 500_000_000)
              && Setting(pol.requestTimeout, Some(o.requestTimeout), None, 0)
              && Setting(pol.perTryTimeout, Some(o.perTryTimeout), None, 0)
            case (None, None) =>
              && pol.backoffBase == 50_000_000 && pol.backoffMax == 500_000_000
              && pol.requestTimeout == 0 && pol.perTryTimeout == 0
  {
  }

  // ----- The environment -----

  /** A pending wait: is there room, how many polls are refused, and does a slot or the connection's end come next? */
  datatype WaitEnv = WaitEnv(room: bool, refusals: nat, got: bool)

  datatype PickEnv =
    | Empty
    | Full(first: Addr, rest: seq<Addr>)
    | Picked(before: seq<Addr>, ep: Addr, after: seq<Addr>, fallback: bool)

  datatype CallEnv = BuildFails | TransportFails(timeout: bool) | WriteFails | Answers(status: int)

  /** One round of the attempt loop. */
  datatype Round = Round(
    granted: bool, wait: WaitEnv, pick: PickEnv, capWait: WaitEnv, incRef: Option<nat>, decRef: Option<nat>,
    call: CallEnv, epNegative: bool, slotNegative: bool, draw: nat, cancelled: Option<bool>)

  datatype Result =
    | Nil
    | NoEndpoint             // "unknown or empty cluster"
    | BuildErr | WriteErr
    | DeadlineExceeded | UpstreamErr
    | FailedWithoutError     // "upstream failed without error"
    | Panic

  /** What OnRequest returns at each exit of the step program. */
  function ResultOf(l: Local): (res: Result)
    requires l.pc.Done?
  {
    match l.pc.exit
    case Succeeded => Nil
    case Rejected => Nil
    case HardPick => NoEndpoint
    case BuildFailed => BuildErr
    case WriteFailed => WriteErr
    case Panicked => Panic
    case Exhausted =>
      match l.lastErr
      case NoErr => FailedWithoutError
      case TimedOut => DeadlineExceeded
      case Other => UpstreamErr
  }

  // ----- Ghost bookkeeping -----

  /** Everything a request meets: its plan, whether the cluster has a pending channel, and each round's outcomes. */
  datatype Scene = Scene(plan: Plan, queue: bool, env: nat -> Round)

  function WaitOf(round: Round, why: Reason): (w: WaitEnv) {
    if why == BreakerOpen then round.wait else round.capWait
  }

  function Listed(pick: PickEnv): (eps: seq<Addr>) {
    match pick
    case Empty => []
    case Full(first, rest) => [first] + rest
    case Picked(before, ep, after, _) => before + [ep] + after
  }

  function Selected(pick: PickEnv): (a: Action) {
    if !pick.Picked? then NoCapacity else if pick.fallback then ChooseAny(pick.ep) else ChooseUnderCap(pick.ep)
  }

  function Answer(call: CallEnv): (a: Action) {
    match call
    case BuildFails => BuildError
    case TransportFails(timeout) => TransportError(timeout)
    case WriteFails => WriteError
    case Answers(status) => Respond(status)
  }

  /** The action is the one the scene's current round dictates; only the number of refused polls is left open. */
  ghost predicate Obeys(sc: Scene, l: Local, a: Action) {
    var round := sc.env(l.attempt);
    match l.pc
    case Top => a.Exhaust? || (a.AddGranted? <==> round.granted)
    case Enter(why) => a.EnterQueue? <==> sc.queue && WaitOf(round, why).room
    case Poll(why) => a.AddGranted? ==> WaitOf(round, why).got
    case PollWait(why) => a.ContextDone? ==> !WaitOf(round, why).got
    case Snap => a == Snapshot(Listed(round.pick))
    case Scan(_) => a == Selected(round.pick)
    case Chosen(_, _) => a == LookUp(round.incRef)
    case Flying(_, _) => a == Answer(round.call)
    case DecLook(_, _, _) => a == LookUp(round.decRef)
    case DecSub(_, _, _) => a == SubEndpoint(round.epNegative)
    case Releasing(_) => a == SubSlot(round.slotNegative)
    case Backing => a == Sleep(round.draw, round.cancelled)
    case _ => true
  }

  /** A fresh request after `acts`, every one of which the scene dictates. */
  ghost function Played(sc: Scene, acts: seq<Action>): (l: Option<Local>) {
    if acts == [] then Some(Start(sc.plan))
    else
      match Played(sc, acts[..|acts| - 1])
      case None => None
      case Some(m) => if Obeys(sc, m, acts[|acts| - 1]) then Advance(m, acts[|acts| - 1]) else None
  }

  ghost predicate Traced(sc: Scene, acts: seq<Action>, l: Local) {
    Played(sc, acts) == Some(l)
  }

  /** What the scene dictates is a run of the step program. */
  lemma {:induction false} PlayedIsRun(sc: Scene, acts: seq<Action>)
    requires Played(sc, acts).Some?
    ensures Run(Start(sc.plan), acts) == Played(sc, acts)
  {
    if acts != [] {
      PlayedIsRun(sc, acts[..|acts| - 1]);
    }
  }

  lemma Emit(sc: Scene, acts: seq<Action>, l: Local, a: Action, pc: Pc) returns (acts': seq<Action>, l': Local)
    requires Traced(sc, acts, l) && NextPc(l, a) == Some(pc) && Obeys(sc, l, a)
    ensures Traced(sc, acts', l') && l'.pc == pc && l'.plan == l.plan
    ensures l'.attempt == NextAttempt(l, a, pc) && l'.lastErr == NextErr(l, a, pc)
    ensures l'.tally == NextTally(l, a, pc) && l'.reply == (if a.Respond? then a.status else l.reply)
    ensures l'.responded == (l.responded || pc == Done(Rejected) || pc == Releasing(Conclude))
    ensures l'.status == NextStatus(l, a, pc)
  {
    acts', l' := acts + [a], Advance(l, a).value;
    assert acts'[..|acts|] == acts;
  }

  /** Nothing the loop's own code reads has changed. */
  ghost predicate SameLoop(l: Local, m: Local) {
    && m.plan == l.plan && m.attempt == l.attempt && m.lastErr == l.lastErr
    && m.responded == l.responded && m.status == l.status
  }

  // ----- Waiting -----

  lemma EmitRejection(sc: Scene, acts: seq<Action>, l: Local, why: Reason) returns (acts': seq<Action>, l': Local)
    requires Traced(sc, acts, l) && l.pc == Enter(why)
    requires !(sc.queue && WaitOf(sc.env(l.attempt), why).room)
    ensures Traced(sc, acts', l') && l'.pc == Done(Rejected) && l'.responded && l'.status == 503
    ensures l'.plan == l.plan && l'.lastErr == l.lastErr && l'.tally == l.tally
  {
    acts', l' := Emit(sc, acts, l, QueueClosed, Done(Rejected));
  }

  lemma EmitEntry(sc: Scene, acts: seq<Action>, l: Local, why: Reason) returns (acts': seq<Action>, l': Local)
    requires Traced(sc, acts, l) && l.pc == Enter(why)
    requires sc.queue && WaitOf(sc.env(l.attempt), why).room
    ensures Traced(sc, acts', l') && l'.pc == Poll(why) && SameLoop(l, l')
    ensures l'.tally == l.tally.(entered := l.tally.entered + 1)
  {
    acts', l' := Emit(sc, acts, l, EnterQueue, Poll(why));
  }

  lemma EmitRefusal(sc: Scene, acts: seq<Action>, l: Local, why: Reason) returns (acts': seq<Action>, l': Local)
    requires Traced(sc, acts, l) && l.pc == Poll(why)
    ensures Traced(sc, acts', l') && l'.pc == PollWait(why) && SameLoop(l, l') && l'.tally == l.tally
  {
    acts', l' := Emit(sc, acts, l, AddDenied, PollUndo(why));
    acts', l' := Emit(sc, acts', l', RollBack, PollWait(why));
  }

  lemma EmitTick(sc: Scene, acts: seq<Action>, l: Local, why: Reason) returns (acts': seq<Action>, l': Local)
    requires Traced(sc, acts, l) && l.pc == PollWait(why)
    ensures Traced(sc, acts', l') && l'.pc == Poll(why) && SameLoop(l, l') && l'.tally == l.tally
  {
    acts', l' := Emit(sc, acts, l, Tick, Poll(why));
  }

  lemma EmitGrant(sc: Scene, acts: seq<Action>, l: Local, why: Reason) returns (acts': seq<Action>, l': Local)
    requires Traced(sc, acts, l) && l.pc == Poll(why)
    requires WaitOf(sc.env(l.attempt), why).got
    ensures Traced(sc, acts', l') && l'.plan == l.plan && l'.lastErr == l.lastErr
    ensures l'.responded == l.responded && l'.status == l.status
    ensures if why == BreakerOpen then l'.pc == Snap && l'.attempt == l.attempt
            else l'.pc == Top && l'.attempt == l.attempt + 1
    ensures l'.tally.acquires == l.tally.acquires + 1 && l'.tally.releases == l.tally.releases
    ensures l'.tally.entered == l.tally.entered && l'.tally.left == l.tally.left + 1
    ensures l'.tally.failures == l.tally.failures
  {
    acts', l' := Emit(sc, acts, l, AddGranted, Leave(why, true));
    acts', l' := Emit(sc, acts', l', Receive, if why == BreakerOpen then Snap else Top);
  }

  lemma EmitGiveUp(sc: Scene, acts: seq<Action>, l: Local, why: Reason) returns (acts': seq<Action>, l': Local)
    requires Traced(sc, acts, l) && l.pc == PollWait(why)
    requires !WaitOf(sc.env(l.attempt), why).got
    ensures Traced(sc, acts', l') && l'.pc == Done(Rejected) && l'.responded && l'.status == 504
    ensures l'.plan == l.plan && l'.lastErr == l.lastErr && l'.tally == l.tally.(left := l.tally.left + 1)
  {
    acts', l' := Emit(sc, acts, l, ContextDone, Leave(why, false));
    acts', l' := Emit(sc, acts', l', Receive, Done(Rejected));
  }

  /** False exactly when the caller has gained one slot, true exactly when a 503 or 504 has been answered. */
  method WaitForCapacity(queue: bool, env: WaitEnv, rc: RequestCtx, ghost why: Reason,
                         ghost sc: Scene, ghost acts: seq<Action>, ghost l: Local)
      returns (wrote: bool, ghost acts': seq<Action>, ghost l': Local)
    requires Traced(sc, acts, l) && l.pc == Enter(why)
    requires queue == sc.queue && env == WaitOf(sc.env(l.attempt), why)
    modifies rc`responded, rc`statusCode
    ensures Traced(sc, acts', l') && l'.plan == l.plan && l'.lastErr == l.lastErr
    ensures l'.tally.failures == l.tally.failures
    ensures l'.tally.entered - l'.tally.left == l.tally.entered - l.tally.left
    ensures l'.tally.acquires - l'.tally.releases == l.tally.acquires - l.tally.releases + B2I(!wrote)
    ensures wrote <==> !queue || !env.room || !env.got
    ensures wrote ==>
              && l'.pc == Done(Rejected) && l'.responded && rc.responded
              && rc.statusCode == l'.status == if queue && env.room then 504 else 503
    ensures !wrote ==>
              && rc.responded == old(rc.responded) && rc.statusCode == old(rc.statusCode)
              && l'.responded == l.responded && l'.status == l.status
              && (if why == BreakerOpen then l'.pc == Snap && l'.attempt == l.attempt
                  else l'.pc == Top && l'.attempt == l.attempt + 1)
  {
    if !queue || !env.room {
      rc.statusCode, rc.responded := 503, true;
      acts', l' := EmitRejection(sc, acts, l, why);
      return true, acts', l';
    }
    acts', l' := EmitEntry(sc, acts, l, why);
    var polls := 0;
    while true
      invariant polls <= env.refusals && rc.responded == old(rc.responded) && rc.statusCode == old(rc.statusCode)
      invariant Traced(sc, acts', l') && l'.pc == Poll(why) && SameLoop(l, l')
      invariant l'.tally == l.tally.(entered := l.tally.entered + 1)
      decreases env.refusals - polls
    {
      if polls == env.refusals && env.got {
        acts', l' := EmitGrant(sc, acts', l', why);
        return false, acts', l';
      }
      acts', l' := EmitRefusal(sc, acts', l', why);
      if polls == env.refusals {
        acts', l' := EmitGiveUp(sc, acts', l', why);
        rc.statusCode, rc.responded := 504, true;
        return true, acts', l';
      }
      acts', l' := EmitTick(sc, acts', l', why);
      polls := polls + 1;
    }
  }

  // ----- One attempt -----

  lemma EmitAcquire(sc: Scene, acts: seq<Action>, l: Local, granted: bool) returns (acts': seq<Action>, l': Local)
    requires Traced(sc, acts, l) && l.pc == Top && l.attempt < l.plan.limit
    requires granted == sc.env(l.attempt).granted
    ensures Traced(sc, acts', l') && SameLoop(l, l') && l'.tally.failures == l.tally.failures
    ensures l'.pc == if granted then Snap else Enter(BreakerOpen)
  {
    if granted {
      acts', l' := Emit(sc, acts, l, AddGranted, Snap);
    } else {
      acts', l' := Emit(sc, acts, l, AddDenied, Undo);
      acts', l' := Emit(sc, acts', l', RollBack, Enter(BreakerOpen));
    }
  }

  lemma EmitNoEndpoint(sc: Scene, acts: seq<Action>, l: Local) returns (acts': seq<Action>, l': Local)
    requires Traced(sc, acts, l) && l.pc == Snap
    requires sc.env(l.attempt).pick.Empty?
    ensures Traced(sc, acts', l') && SameLoop(l, l') && l'.tally == l.tally && l'.pc == Done(HardPick)
  {
    acts', l' := Emit(sc, acts, l, Snapshot([]), Done(HardPick));
  }

  lemma EmitFull(sc: Scene, acts: seq<Action>, l: Local, eps: seq<Addr>, negative: bool)
      returns (acts': seq<Action>, l': Local)
    requires Traced(sc, acts, l) && l.pc == Snap && eps != []
    requires var round := sc.env(l.attempt); round.pick.Full? && eps == Listed(round.pick) && negative == round.slotNegative
    ensures Traced(sc, acts', l') && SameLoop(l, l') && l'.tally.failures == l.tally.failures
    ensures l'.pc == Enter(EndpointsFull)
  {
    acts', l' := Emit(sc, acts, l, Snapshot(eps), Scan(eps));
    acts', l' := Emit(sc, acts', l', NoCapacity, Releasing(WaitForEndpoint));
    acts', l' := EmitRelease(sc, acts', l', WaitForEndpoint, negative);
  }

  lemma EmitPicked(sc: Scene, acts: seq<Action>, l: Local, pick: PickEnv, ref: Option<nat>)
      returns (acts': seq<Action>, l': Local)
    requires Traced(sc, acts, l) && l.pc == Snap && pick.Picked?
    requires pick == sc.env(l.attempt).pick && ref == sc.env(l.attempt).incRef
    ensures Traced(sc, acts', l') && SameLoop(l, l') && l'.tally.failures == l.tally.failures
    ensures l'.pc == Flying(pick.ep, ref)
  {
    var eps := pick.before + [pick.ep] + pick.after;
    acts', l' := Emit(sc, acts, l, Snapshot(eps), Scan(eps));
    assert eps[|pick.before|] == pick.ep;
    acts', l' := EmitChosen(sc, acts', l', eps, pick.ep, pick.fallback, ref);
  }

  lemma EmitChosen(sc: Scene, acts: seq<Action>, l: Local, eps: seq<Addr>, ep: Addr, fallback: bool, ref: Option<nat>)
      returns (acts': seq<Action>, l': Local)
    requires Traced(sc, acts, l) && l.pc == Scan(eps) && ep in eps
    requires Selected(sc.env(l.attempt).pick) == (if fallback then ChooseAny(ep) else ChooseUnderCap(ep))
    requires ref == sc.env(l.attempt).incRef
    ensures Traced(sc, acts', l') && SameLoop(l, l') && l'.tally.failures == l.tally.failures
    ensures l'.pc == Flying(ep, ref)
  {
    var choice := if fallback then ChooseAny(ep) else ChooseUnderCap(ep);
    acts', l' := Emit(sc, acts, l, choice, Chosen(ep, eps));
    acts', l' := Emit(sc, acts', l', LookUp(ref), Looked(ep, ref));
    acts', l' := Emit(sc, acts', l', IncAdd, Flying(ep, ref));
  }

  /** The release; a negative result passes through the clamp. */
  lemma EmitRelease(sc: Scene, acts: seq<Action>, l: Local, next: Next, negative: bool)
      returns (acts': seq<Action>, l': Local)
    requires Traced(sc, acts, l) && l.pc == Releasing(next)
    requires negative == sc.env(l.attempt).slotNegative
    ensures Traced(sc, acts', l') && l'.pc == Released(l, next) && l'.tally.failures == l.tally.failures
    ensures l'.plan == l.plan && l'.lastErr == l.lastErr && l'.responded == l.responded && l'.status == l.status
    ensures l'.attempt == l.attempt + B2I(l'.pc == Top)
  {
    if negative {
      acts', l' := Emit(sc, acts, l, SubSlot(true), Clamping(next));
      acts', l' := Emit(sc, acts', l', ClampSlot, Released(l, next));
    } else {
      acts', l' := Emit(sc, acts, l, SubSlot(false), Released(l, next));
    }
  }

  /** The endpoint counter is settled: lookup, decrement, and the clamp when it went negative. */
  lemma EmitSettle(sc: Scene, acts: seq<Action>, l: Local, round: Round) returns (acts': seq<Action>, l': Local)
    requires Traced(sc, acts, l) && l.pc.DecLook?
    requires round == sc.env(l.attempt)
    ensures Traced(sc, acts', l') && l'.pc == Releasing(l.pc.next) && l'.tally == l.tally
    ensures l'.plan == l.plan && l'.lastErr == l.lastErr && l'.attempt == l.attempt
    ensures if l.pc.next == Conclude then l'.responded && l'.status == l.reply
            else l'.responded == l.responded && l'.status == l.status
  {
    acts', l' := Emit(sc, acts, l, LookUp(round.decRef), DecSub(l.pc.ref, round.decRef, l.pc.next));
    acts', l' := EmitDecrement(sc, acts', l', round.epNegative);
  }

  lemma EmitDecrement(sc: Scene, acts: seq<Action>, l: Local, negative: bool) returns (acts': seq<Action>, l': Local)
    requires Traced(sc, acts, l) && l.pc.DecSub?
    requires negative == sc.env(l.attempt).epNegative
    ensures Traced(sc, acts', l') && l'.pc == Releasing(l.pc.next) && l'.tally == l.tally
    ensures l'.plan == l.plan && l'.lastErr == l.lastErr && l'.attempt == l.attempt
    ensures if l.pc.next == Conclude then l'.responded && l'.status == l.reply
            else l'.responded == l.responded && l'.status == l.status
  {
    hide Traced;
    var next := l.pc.next;
    if negative {
      acts', l' := Emit(sc, acts, l, SubEndpoint(true), EpClamp(l.pc.found, next));
      acts', l' := Emit(sc, acts', l', ClampEndpoint, Releasing(next));
    } else {
      acts', l' := Emit(sc, acts, l, SubEndpoint(false), Releasing(next));
    }
  }

  /** A failed call up to the end of its release. */
  lemma EmitFailure(sc: Scene, acts: seq<Action>, l: Local, round: Round, timeout: bool)
      returns (acts': seq<Action>, l': Local)
    requires Traced(sc, acts, l) && l.pc.Flying? && l.plan == sc.plan
    requires round == sc.env(l.attempt) && round.call == TransportFails(timeout)
    ensures Traced(sc, acts', l') && l'.tally.failures == l.tally.failures + 1
    ensures l'.plan == l.plan && l'.responded == l.responded && l'.status == l.status
    ensures l'.lastErr == (if timeout then TimedOut else Other)
    ensures if LastAttempt(l) then l'.pc == Top && l'.attempt == l.attempt + 1
            else l'.pc == Backing && l'.attempt == l.attempt
  {
    acts', l' := Emit(sc, acts, l, TransportError(timeout), DecLook(l.pc.ep, l.pc.ref, Retry));
    acts', l' := EmitSettle(sc, acts', l', round);
    acts', l' := EmitRelease(sc, acts', l', Retry, round.slotNegative);
  }

  lemma EmitSleep(sc: Scene, acts: seq<Action>, l: Local, round: Round) returns (acts': seq<Action>, l': Local)
    requires Traced(sc, acts, l) && l.pc == Backing
    requires round == sc.env(l.attempt)
    ensures Traced(sc, acts', l') && l'.tally.failures == l.tally.failures
    ensures l'.plan == l.plan && l'.responded == l.responded && l'.status == l.status
    ensures if DelayFor(l, round.draw).None? then l'.pc == Done(Panicked)
            else
              && l'.pc == Top
              && l'.attempt == (if round.cancelled.Some? then l.plan.limit + 1 else l.attempt + 1)
              && l'.lastErr == (match round.cancelled
                                case None => l.lastErr
                                case Some(deadline) => if deadline then TimedOut else Other)
  {
    var pc := if DelayFor(l, round.draw).None? then Done(Panicked) else Top;
    acts', l' := Emit(sc, acts, l, Sleep(round.draw, round.cancelled), pc);
  }

  lemma EmitBuildFailure(sc: Scene, acts: seq<Action>, l: Local) returns (acts': seq<Action>, l': Local)
    requires Traced(sc, acts, l) && l.pc.Flying?
    requires sc.env(l.attempt).call.BuildFails?
    ensures Traced(sc, acts', l') && SameLoop(l, l') && l'.tally == l.tally && l'.pc == Done(BuildFailed)
  {
    acts', l' := Emit(sc, acts, l, BuildError, Done(BuildFailed));
  }

  lemma EmitWriteFailure(sc: Scene, acts: seq<Action>, l: Local, round: Round) returns (acts': seq<Action>, l': Local)
    requires Traced(sc, acts, l) && l.pc.Flying?
    requires round == sc.env(l.attempt) && round.call.WriteFails?
    ensures Traced(sc, acts', l') && SameLoop(l, l') && l'.tally.failures == l.tally.failures
    ensures l'.pc == Done(WriteFailed)
  {
    acts', l' := Emit(sc, acts, l, WriteError, DecLook(l.pc.ep, l.pc.ref, Abort));
    acts', l' := EmitSettle(sc, acts', l', round);
    acts', l' := EmitRelease(sc, acts', l', Abort, round.slotNegative);
  }

  lemma EmitSuccess(sc: Scene, acts: seq<Action>, l: Local, round: Round, status: int)
      returns (acts': seq<Action>, l': Local)
    requires Traced(sc, acts, l) && l.pc.Flying?
    requires round == sc.env(l.attempt) && round.call == Answers(status)
    ensures Traced(sc, acts', l') && l'.plan == l.plan && l'.tally.failures == l.tally.failures
    ensures l'.pc == Done(Succeeded) && l'.responded && l'.status == status
  {
    acts', l' := Emit(sc, acts, l, Respond(status), DecLook(l.pc.ep, l.pc.ref, Conclude));
    acts', l' := EmitSettle(sc, acts', l', round);
    acts', l' := EmitRelease(sc, acts', l', Conclude, round.slotNegative);
  }

  /** A failed call: settle, release, back off unless this was the last attempt. True when the backoff panics. */
  method Fail(pol: RetryCfg, limit: nat, at: nat, timeout: bool, round: Round,
              ghost sc: Scene, ghost acts: seq<Action>, ghost l: Local)
      returns (panicked: bool, attempt: nat, err: LastErr, ghost acts': seq<Action>, ghost l': Local)
    requires Traced(sc, acts, l) && l.pc.Flying? && l.plan == sc.plan == Plan(limit, pol.backoffBase, pol.backoffMax)
    requires round == sc.env(at) && round.call == TransportFails(timeout)
    requires l.attempt == at < limit && !l.responded
    ensures Traced(sc, acts', l') && l'.plan == sc.plan && !l'.responded && l'.tally.failures == l.tally.failures + 1
    ensures panicked ==> l'.pc == Done(Panicked)
    ensures !panicked ==> l'.pc == Top && l'.attempt == attempt && at < attempt <= limit + 1 && l'.lastErr == err
  {
    attempt, err := at, if timeout then TimedOut else Other;
    acts', l' := EmitFailure(sc, acts, l, round, timeout);
    if attempt + 1 < limit {
      var back := Backoff.Delay(pol.backoffBase, pol.backoffMax, attempt, round.draw);
      acts', l' := EmitSleep(sc, acts', l', round);
      if back.None? {
        return true, attempt, err, acts', l';
      }
      if round.cancelled.Some? {
        attempt, err := limit, if round.cancelled.value then TimedOut else Other;
      }
    }
    panicked, attempt := false, attempt + 1;
  }

  /** The upstream call and what follows it, up to a return or the loop's `continue`. */
  method Call(pol: RetryCfg, limit: nat, at: nat, lastErr: LastErr, round: Round, rc: RequestCtx,
              ghost sc: Scene, ghost acts: seq<Action>, ghost l: Local)
      returns (done: bool, attempt: nat, err: LastErr, res: Result, called: nat, ghost acts': seq<Action>, ghost l': Local)
    requires Traced(sc, acts, l) && l.pc.Flying? && l.plan == sc.plan == Plan(limit, pol.backoffBase, pol.backoffMax)
    requires round == sc.env(at)
    requires l.attempt == at < limit && l.lastErr == lastErr && !l.responded
    modifies rc`responded, rc`statusCode
    ensures Traced(sc, acts', l') && l'.plan == sc.plan
    ensures if l'.responded then rc.responded && rc.statusCode == l'.status
            else rc.responded == old(rc.responded) && rc.statusCode == old(rc.statusCode)
    ensures done ==> l'.pc.Done? && res == ResultOf(l')
    ensures done ==> called == B2I(l'.pc.exit != BuildFailed)
    ensures done ==> l'.tally.failures == l.tally.failures + B2I(l'.pc.exit == Panicked)
    ensures done ==> l'.pc.exit in {Succeeded, BuildFailed, WriteFailed, Panicked}
    ensures !done ==> l'.pc == Top && l'.attempt == attempt > at && l'.lastErr == err && !l'.responded && called == 1
    ensures !done ==> l'.tally.failures == l.tally.failures + 1 && attempt <= limit + 1
  {
    done, attempt, err, res, called := true, at, lastErr, Nil, 1;
    match round.call
    case BuildFails =>
      acts', l' := EmitBuildFailure(sc, acts, l);
      res, called := BuildErr, 0;
    case WriteFails =>
      acts', l' := EmitWriteFailure(sc, acts, l, round);
      res := WriteErr;
    case Answers(status) =>
      acts', l' := EmitSuccess(sc, acts, l, round, status);
      rc.statusCode, rc.responded := status, true;
    case TransportFails(timeout) =>
      done, attempt, err, acts', l' := Fail(pol, limit, at, timeout, round, sc, acts, l);
      res := if done then Panic else Nil;
  }

  lemma EmitExhaust(sc: Scene, acts: seq<Action>, l: Local) returns (acts': seq<Action>, l': Local)
    requires Traced(sc, acts, l) && l.pc == Top && l.attempt >= l.plan.limit
    ensures Traced(sc, acts', l') && SameLoop(l, l') && l'.tally == l.tally && l'.pc == Done(Exhausted)
  {
    acts', l' := Emit(sc, acts, l, Exhaust, Done(Exhausted));
  }

  /** Gets the attempt past the breaker, waiting if need be; true when it was answered instead. */
  method Admit(queue: bool, round: Round, rc: RequestCtx, ghost sc: Scene, ghost acts: seq<Action>, ghost l: Local)
      returns (wrote: bool, ghost acts': seq<Action>, ghost l': Local)
    requires Traced(sc, acts, l) && l.pc == Top && l.attempt < l.plan.limit && !l.responded
    requires queue == sc.queue && round == sc.env(l.attempt)
    modifies rc`responded, rc`statusCode
    ensures Traced(sc, acts', l') && l'.plan == l.plan && l'.tally.failures == l.tally.failures
    ensures wrote ==> l'.pc == Done(Rejected) && SameReply(rc, true, l'.status)
    ensures !wrote ==> l'.pc == Snap && SameLoop(l, l') && SameReply(rc, old(rc.responded), old(rc.statusCode))
  {
    wrote := false;
    acts', l' := EmitAcquire(sc, acts, l, round.granted);
    if !round.granted {
      wrote, acts', l' := WaitForCapacity(queue, round.wait, rc, BreakerOpen, sc, acts', l');
    }
  }

  // ----- The filter -----

  ghost predicate SameReply(rc: RequestCtx, responded: bool, statusCode: int)
    reads rc
  {
    rc.responded == responded && rc.statusCode == statusCode
  }

  /** The run is over, with the result and the ledgers of its exit. */
  ghost predicate Concluded(sc: Scene, acts: seq<Action>, l: Local, res: Result, calls: nat) {
    && Traced(sc, acts, l) && l.pc.Done? && res == ResultOf(l)
    && l.tally.acquires - l.tally.releases == l.tally.carried + B2I(Leaks(l.pc.exit))
    && calls == l.tally.started - B2I(res == BuildErr) <= sc.plan.limit
    && (res == Nil <==> l.responded)
  }

  lemma CloseBooks(sc: Scene, acts: seq<Action>, l: Local, calls: nat)
    requires sc.plan.limit >= 1 && Traced(sc, acts, l) && l.pc.Done?
    requires calls == l.tally.failures + B2I(l.pc.exit == Succeeded || l.pc.exit == WriteFailed)
    ensures Concluded(sc, acts, l, ResultOf(l), calls)
  {
    PlayedIsRun(sc, acts);
    SlotLedger(sc.plan, acts, l, l.pc.exit);
    RetryLedger(sc.plan, acts, l, l.pc.exit);
  }

  /** The attempt loop. */
  method RunAttempts(pol: RetryCfg, limit: nat, queue: bool, env: nat -> Round, rc: RequestCtx)
      returns (res: Result, calls: nat, ghost acts: seq<Action>, ghost end: Local)
    requires limit >= 1
    modifies rc`responded, rc`statusCode, rc`upstreamAddr
    ensures Concluded(Scene(Plan(limit, pol.backoffBase, pol.backoffMax), queue, env), acts, end, res, calls)
    ensures if res == Nil then SameReply(rc, true, end.status)
            else SameReply(rc, old(rc.responded), old(rc.statusCode))
  {
    ghost var sc := Scene(Plan(limit, pol.backoffBase, pol.backoffMax), queue, env);
    calls, acts, end := 0, [], Start(sc.plan);
    var attempt: nat, lastErr := 0, NoErr;
    while attempt < limit
      invariant Traced(sc, acts, end) && end.pc == Top && end.plan == sc.plan
      invariant end.attempt == attempt <= limit + 1 && end.lastErr == lastErr && !end.responded
      invariant SameReply(rc, old(rc.responded), old(rc.statusCode)) && calls == end.tally.failures
      decreases limit + 1 - attempt
    {
      var round := env(attempt);
      var done;
      done, acts, end := Admit(queue, round, rc, sc, acts, end);
      res := Nil;
      if !done {
        match round.pick
        case Empty =>
          acts, end := EmitNoEndpoint(sc, acts, end);
          done, res := true, NoEndpoint;
        case Full(first, rest) =>
          acts, end := EmitFull(sc, acts, end, [first] + rest, round.slotNegative);
          done, acts, end := WaitForCapacity(queue, round.capWait, rc, EndpointsFull, sc, acts, end);
          attempt := attempt + 1;
        case Picked(_, ep, _, _) =>
          rc.upstreamAddr := ep;
          acts, end := EmitPicked(sc, acts, end, round.pick, round.incRef);
          var called;
          done, attempt, lastErr, res, called, acts, end := Call(pol, limit, attempt, lastErr, round, rc, sc, acts, end);
          calls := calls + called;
      }
      if done {
        CloseBooks(sc, acts, end, calls);
        return;
      }
    }
    acts, end := EmitExhaust(sc, acts, end);
    CloseBooks(sc, acts, end, calls);
    res := match lastErr
           case NoErr => FailedWithoutError
           case TimedOut => DeadlineExceeded
           case Other => UpstreamErr;
  }

  /**
   The upstream filter. `base` is the cluster's policy, absent when the cluster is unknown; `queue` says whether the
   cluster has a pending channel; `env(i)` is what the outside decides in round `i`.
   */
  method OnRequest(base: Option<RetryCfg>, route: Option<RetryCfg>, method_: string, queue: bool,
                   env: nat -> Round, rc: RequestCtx)
      returns (res: Result, calls: nat, ghost acts: seq<Action>, ghost end: Local)
    requires base.Some? ==> base.value.maxRetries >= 0
    modifies rc`responded, rc`statusCode, rc`upstreamAddr
    ensures rc.upstreamCluster == "" || base.None? ==>
              && calls == 0 && SameReply(rc, old(rc.responded), old(rc.statusCode))
              && res == if rc.upstreamCluster == "" then Nil else NoEndpoint
    ensures rc.upstreamCluster != "" && base.Some? ==>
              var pol := Merge(base.value, route);
              && MaxAttempts(pol, method_) >= 1
              && Concluded(Scene(Plan(MaxAttempts(pol, method_), pol.backoffBase, pol.backoffMax), queue, env),
                           acts, end, res, calls)
              && (if res == Nil then SameReply(rc, true, end.status)
                  else SameReply(rc, old(rc.responded), old(rc.statusCode)))
  {
    calls, acts, end := 0, [], Start(Plan(1, 0, 0));
    if rc.upstreamCluster == "" {
      return Nil, calls, acts, end;
    }
    if base.None? {  // TryAcquire counts nothing for an unknown cluster, and Pick fails
      return NoEndpoint, calls, acts, end;
    }
    var pol := Merge(base.value, route);
    res, calls, acts, end := RunAttempts(pol, MaxAttempts(pol, method_), queue, env, rc);
  }

  // ----- The scene decides the outcome -----

  /** The action the scene dictates. */
  ghost function Dictate(sc: Scene, l: Local): (a: Action) {
    var round := sc.env(l.attempt);
    match l.pc
    case Top => if l.attempt >= l.plan.limit then Exhaust else if round.granted then AddGranted else AddDenied
    case Undo | PollUndo(_) => RollBack
    case Enter(why) => if sc.queue && WaitOf(round, why).room then EnterQueue else QueueClosed
    case Poll(_) => AddGranted
    case PollWait(_) => ContextDone
    case Leave(_, _) => Receive
    case Snap => Snapshot(Listed(round.pick))
    case Scan(_) => Selected(round.pick)
    case Chosen(_, _) => LookUp(round.incRef)
    case Looked(_, _) => IncAdd
    case Flying(_, _) => Answer(round.call)
    case DecLook(_, _, _) => LookUp(round.decRef)
    case DecSub(_, _, _) => SubEndpoint(round.epNegative)
    case EpClamp(_, _) => ClampEndpoint
    case Releasing(_) => SubSlot(round.slotNegative)
    case Clamping(_) => ClampSlot
    case Backing => Sleep(round.draw, round.cancelled)
    case Done(_) => Exhaust
  }

  /** One step that takes a whole pending wait at once. */
  ghost function Hop(sc: Scene, l: Local): (m: Option<Local>) {
    if l.pc.Poll? && !WaitOf(sc.env(l.attempt), l.pc.why).got then Some(l.(pc := Leave(l.pc.why, false)))
    else Advance(l, Dictate(sc, l))
  }

  ghost function Orbit(sc: Scene, n: nat): (l: Option<Local>) {
    if n == 0 then Some(Start(sc.plan))
    else
      match Orbit(sc, n - 1)
      case None => None
      case Some(l) => Hop(sc, l)
  }

  /** Polling leaves no mark. */
  function Skim(l: Local): (m: Local) {
    if l.pc.Poll? || l.pc.PollUndo? || l.pc.PollWait? then l.(pc := Poll(l.pc.why)) else l
  }

  lemma Dictated(sc: Scene, l: Local, a: Action, m: Local)
    requires Obeys(sc, l, a) && Advance(l, a) == Some(m)
    ensures Skim(m) == Skim(l) || Hop(sc, Skim(l)) == Some(Skim(m))
  {
    if l.pc.Poll? || l.pc.PollUndo? || l.pc.PollWait? {
    } else {
      assert a == Dictate(sc, l);
    }
  }

  lemma {:induction false} OnOrbit(sc: Scene, acts: seq<Action>) returns (n: nat)
    requires Played(sc, acts).Some?
    ensures Orbit(sc, n) == Some(Skim(Played(sc, acts).value))
  {
    n := 0;
    if acts != [] {
      hide Hop, Obeys, Skim;
      n := OnOrbit(sc, acts[..|acts| - 1]);
      var l := Played(sc, acts[..|acts| - 1]).value;
      Dictated(sc, l, acts[|acts| - 1], Played(sc, acts).value);
      if Skim(Played(sc, acts).value) != Skim(l) {
        n := n + 1;
      }
    }
  }

  lemma DoneStops(sc: Scene, l: Local)
    requires l.pc.Done?
    ensures Hop(sc, l).None?
  {
  }

  lemma {:induction false} OrbitEnds(sc: Scene, n: nat, k: nat)
    requires n < k && Orbit(sc, n).Some? && Orbit(sc, n).value.pc.Done?
    ensures Orbit(sc, k).None?
  {
    hide Hop;
    DoneStops(sc, Orbit(sc, n).value);
    if n + 1 < k {
      OrbitEnds(sc, n, k - 1);
    }
  }

  /** However often its polls are refused, a request's final state (response, error, every tally) is the scene's alone. */
  lemma OneOutcome(sc: Scene, acts: seq<Action>, l: Local, bcts: seq<Action>, m: Local)
    requires Traced(sc, acts, l) && l.pc.Done? && Traced(sc, bcts, m) && m.pc.Done?
    ensures l == m
  {
    hide Orbit, Played;
    var i := OnOrbit(sc, acts);
    var j := OnOrbit(sc, bcts);
    if i < j {
      OrbitEnds(sc, i, j);
    } else if j < i {
      OrbitEnds(sc, j, i);
    }
  }
}
