/** What a request comes to, said of its rounds alone: the first round that does not pass decides. */
module Outcomes {
  import opened Prelude
  import opened Program
  import opened Upstream
  import Backoff

  // ----- What the surroundings make of round `k` -----

  /** The round gets past the breaker, at once or after a wait. */
  predicate Admitted(sc: Scene, k: nat) {
    var r := sc.env(k);
    r.granted || (sc.queue && r.wait.room && r.wait.got)
  }

  /** The round reaches an endpoint. */
  predicate Called(sc: Scene, k: nat) {
    Admitted(sc, k) && sc.env(k).pick.Picked?
  }

  /** The call fails and nothing keeps the loop from going on. */
  predicate Survives(sc: Scene, k: nat) {
    var r := sc.env(k);
    && r.call.TransportFails?
    && (k + 1 < sc.plan.limit ==>
          DelayAfter(sc, k).Some? && r.cancelled.None?)
  }

  /** The round neither answers nor ends the request. */
  predicate Passes(sc: Scene, k: nat) {
    var r := sc.env(k);
    && Admitted(sc, k)
    && match r.pick
       case Empty => false
       case Full(_, _) => sc.queue && r.capWait.room && r.capWait.got
       case Picked(_, _, _, _) => Survives(sc, k)
  }

  function CallsBefore(sc: Scene, k: nat): (n: nat) {
    if k == 0 then 0 else CallsBefore(sc, k - 1) + B2I(Called(sc, k - 1))
  }

  /** The delay that follows the failed call of round `k`. */
  function DelayAfter(sc: Scene, k: nat): (delay: Option<int>) {
    Backoff.Delay(sc.plan.backoffBase, sc.plan.backoffMax, k, sc.env(k).draw)
  }

  /** The delays that follow the failed calls before round `k`; the last attempt has none. */
  function SleptBefore(sc: Scene, k: nat): (t: int) {
    if k == 0 then 0
    else
      SleptBefore(sc, k - 1) +
      if Called(sc, k - 1) && k < sc.plan.limit && DelayAfter(sc, k - 1).Some? then DelayAfter(sc, k - 1).value else 0
  }

  function TimedOr(timeout: bool): (e: LastErr) {
    if timeout then TimedOut else Other
  }

  /** `e` is what the last call before round `k` failed with. */
  predicate LastFailure(sc: Scene, k: nat, e: LastErr) {
    if k == 0 then e == NoErr
    else if !Called(sc, k - 1) then LastFailure(sc, k - 1, e)
    else sc.env(k - 1).call.TransportFails? && e == TimedOr(sc.env(k - 1).call.timeout)
  }

  // ----- Where a request can stand in a round -----

  /** What the program point says about the current round. */
  ghost predicate Stage(sc: Scene, l: Local) {
    var k, r := l.attempt, sc.env(l.attempt);
    match l.pc
    case Top => true
    case Undo => !r.granted
    case Enter(why) => if why == BreakerOpen then !r.granted else Admitted(sc, k) && r.pick.Full?
    case Poll(why) => Queued(sc, k, why)
    case PollUndo(why) => Queued(sc, k, why)
    case PollWait(why) => Queued(sc, k, why)
    case Leave(why, got) => Queued(sc, k, why) && (got <==> WaitOf(r, why).got)
    case Snap => Admitted(sc, k)
    case Scan(eps) => Admitted(sc, k) && !r.pick.Empty? && eps == Listed(r.pick)
    case Chosen(_, _) => Called(sc, k)
    case Looked(_, _) => Called(sc, k)
    case Flying(_, _) => Called(sc, k)
    case DecLook(_, _, next) => Bounded(sc, l, next)
    case DecSub(_, _, next) => Bounded(sc, l, next)
    case EpClamp(_, next) => Bounded(sc, l, next)
    case Releasing(next) => Bounded(sc, l, next) && (next == Conclude ==> l.status == l.reply)
    case Clamping(next) => Bounded(sc, l, next) && (next == Conclude ==> l.status == l.reply)
    case Backing => Bounded(sc, l, Retry) && k + 1 < sc.plan.limit
    case Done(_) => true
  }

  predicate Queued(sc: Scene, k: nat, why: Reason) {
    var r := sc.env(k);
    && sc.queue && WaitOf(r, why).room
    && if why == BreakerOpen then !r.granted else Admitted(sc, k) && r.pick.Full?
  }

  predicate Bounded(sc: Scene, l: Local, next: Next) {
    var k, r := l.attempt, sc.env(l.attempt);
    match next
    case WaitForEndpoint => Admitted(sc, k) && r.pick.Full?
    case Retry => Called(sc, k) && r.call.TransportFails? && l.lastErr == TimedOr(r.call.timeout)
    case Conclude => Called(sc, k) && r.call == Answers(l.reply)
    case Abort => Called(sc, k) && r.call.WriteFails?
  }

  /** The attempt of the current round is counted. */
  predicate Underway(pc: Pc) {
    pc.Looked? || pc.Flying? || Failing(pc) || Bound(pc, Conclude) || Bound(pc, Abort)
  }

  /** The rounds so far have passed, and are counted. */
  ghost predicate Standing(sc: Scene, l: Local) {
    && l.attempt <= sc.plan.limit && (l.pc != Top ==> l.attempt < sc.plan.limit)
    && (forall i :: 0 <= i < l.attempt ==> Passes(sc, i))
    && l.tally.started == CallsBefore(sc, l.attempt) + B2I(Underway(l.pc))
    && l.backedOff == SleptBefore(sc, l.attempt)
    && (!Failing(l.pc) ==> LastFailure(sc, l.attempt, l.lastErr))
    && Stage(sc, l)
  }

  /** A backoff was cut short in round `c`. */
  ghost predicate CutShort(sc: Scene, l: Local, c: nat) {
    && l.pc == Top && l.attempt == sc.plan.limit + 1 && c + 1 < sc.plan.limit
    && (forall i :: 0 <= i < c ==> Passes(sc, i))
    && Called(sc, c) && sc.env(c).call.TransportFails? && sc.env(c).cancelled.Some?
    && DelayAfter(sc, c).Some? && l.backedOff == SleptBefore(sc, c) + DelayAfter(sc, c).value
    && l.lastErr == TimedOr(sc.env(c).cancelled.value)
    && l.tally.started == CallsBefore(sc, c) + 1
  }

  /** The backoff after round `j` is cut short. */
  predicate CutAt(sc: Scene, j: nat) {
    && j + 1 < sc.plan.limit && Called(sc, j) && sc.env(j).call.TransportFails? && sc.env(j).cancelled.Some?
    && DelayAfter(sc, j).Some?
  }

  /** The request is done, decided by round `j`, or by none of them when `j` is the limit. */
  ghost predicate Decided(sc: Scene, l: Local, j: nat) {
    && j <= sc.plan.limit && (forall i :: 0 <= i < j ==> Passes(sc, i))
    && l.backedOff == SleptBefore(sc, j) + (if CutAt(sc, j) then DelayAfter(sc, j).value else 0)
    && if j == sc.plan.limit then
         l.pc == Done(Exhausted) && LastFailure(sc, j, l.lastErr) && l.tally.started == CallsBefore(sc, j)
       else
         var r := sc.env(j);
         && l.tally.started == CallsBefore(sc, j) + B2I(Called(sc, j))
         && if !Admitted(sc, j) then
              l.pc == Done(Rejected) && l.status == if sc.queue && r.wait.room then 504 else 503
            else
              match r.pick
              case Empty => l.pc == Done(HardPick)
              case Full(_, _) =>
                && !(sc.queue && r.capWait.room && r.capWait.got)
                && l.pc == Done(Rejected) && l.status == if sc.queue && r.capWait.room then 504 else 503
              case Picked(_, _, _, _) =>
                match r.call
                case BuildFails => l.pc == Done(BuildFailed)
                case WriteFails => l.pc == Done(WriteFailed)
                case Answers(status) => l.pc == Done(Succeeded) && l.status == status
                case TransportFails(_) =>
                  && j + 1 < sc.plan.limit
                  && if DelayAfter(sc, j).None? then
                       l.pc == Done(Panicked)
                     else
                       && r.cancelled.Some? && l.pc == Done(Exhausted)
                       && l.lastErr == TimedOr(r.cancelled.value)
  }

  ghost predicate OnCourse(sc: Scene, l: Local) {
    && l.plan == sc.plan
    && if l.pc.Done? then exists j: nat :: Decided(sc, l, j)
       else Standing(sc, l) || exists c: nat :: CutShort(sc, l, c)
  }

  // ----- Every step stays on course -----

  /** The part of a round that waits. */
  predicate Waits(pc: Pc) {
    pc.Top? || pc.Undo? || pc.Enter? || Waiting(pc)
  }

  lemma WaitStage(sc: Scene, l: Local, a: Action, m: Local)
    requires l.plan == sc.plan && Standing(sc, l) && Obeys(sc, l, a) && Advance(l, a) == Some(m)
    requires !m.pc.Done? && m.pc != Top && Waits(l.pc)
    ensures m.attempt == l.attempt < sc.plan.limit && Stage(sc, m)
  {
    hide CallsBefore, LastFailure, SleptBefore, Passes, NextTally;
  }

  lemma CallStage(sc: Scene, l: Local, a: Action, m: Local)
    requires l.plan == sc.plan && Standing(sc, l) && Obeys(sc, l, a) && Advance(l, a) == Some(m)
    requires !m.pc.Done? && m.pc != Top && !Waits(l.pc)
    ensures m.attempt == l.attempt < sc.plan.limit && Stage(sc, m)
  {
    hide CallsBefore, LastFailure, SleptBefore, Passes, NextTally;
  }

  /** A step within a round. */
  lemma StageStep(sc: Scene, l: Local, a: Action, m: Local)
    requires l.plan == sc.plan && Standing(sc, l) && Obeys(sc, l, a) && Advance(l, a) == Some(m)
    requires !m.pc.Done? && m.pc != Top
    ensures m.attempt == l.attempt < sc.plan.limit && Stage(sc, m)
  {
    hide *;
    if Waits(l.pc) {
      WaitStage(sc, l, a, m);
    } else {
      CallStage(sc, l, a, m);
    }
  }

  lemma CountStep(sc: Scene, l: Local, a: Action, m: Local)
    requires l.plan == sc.plan && Standing(sc, l) && Obeys(sc, l, a) && Advance(l, a) == Some(m)
    requires !m.pc.Done? && m.pc != Top
    ensures m.tally.started == CallsBefore(sc, m.attempt) + B2I(Underway(m.pc))
    ensures m.backedOff == SleptBefore(sc, m.attempt)
    ensures !Failing(m.pc) ==> LastFailure(sc, m.attempt, m.lastErr)
  {
    hide CallsBefore, LastFailure, SleptBefore, Passes, Stage;
  }

  /** The round a request leaves for the next one, or for good when a backoff was cut short. */
  lemma LeaveRound(sc: Scene, l: Local, a: Action, m: Local)
    requires l.plan == sc.plan && Standing(sc, l) && Obeys(sc, l, a) && Advance(l, a) == Some(m) && m.pc == Top
    ensures l.attempt < sc.plan.limit && m.tally.started == l.tally.started == CallsBefore(sc, l.attempt) + B2I(Called(sc, l.attempt))
    ensures if l.pc == Backing && sc.env(l.attempt).cancelled.Some? then
              && CutAt(sc, l.attempt) && m.attempt == sc.plan.limit + 1
              && m.backedOff == l.backedOff + DelayAfter(sc, l.attempt).value
              && m.lastErr == TimedOr(sc.env(l.attempt).cancelled.value)
            else
              && m.attempt == l.attempt + 1 && Passes(sc, l.attempt) && m.lastErr == l.lastErr
              && (!Called(sc, l.attempt) ==> LastFailure(sc, l.attempt, m.lastErr))
              && (Called(sc, l.attempt) ==>
                    sc.env(l.attempt).call.TransportFails? && m.lastErr == TimedOr(sc.env(l.attempt).call.timeout))
              && (Called(sc, l.attempt) && m.attempt < sc.plan.limit ==> DelayAfter(sc, l.attempt).Some?)
              && m.backedOff == l.backedOff +
                 if Called(sc, l.attempt) && m.attempt < sc.plan.limit then DelayAfter(sc, l.attempt).value else 0
  {
    hide CallsBefore, LastFailure, SleptBefore;
  }

  lemma NextStanding(sc: Scene, l: Local, m: Local)
    requires Standing(sc, l) && l.attempt < sc.plan.limit && m.pc == Top && m.attempt == l.attempt + 1
    requires m.tally.started == CallsBefore(sc, l.attempt) + B2I(Called(sc, l.attempt)) && Passes(sc, l.attempt)
    requires m.backedOff == l.backedOff +
             if Called(sc, l.attempt) && m.attempt < sc.plan.limit then DelayAfter(sc, l.attempt).value else 0
    requires !Called(sc, l.attempt) ==> LastFailure(sc, l.attempt, m.lastErr)
    requires Called(sc, l.attempt) ==>
               sc.env(l.attempt).call.TransportFails? && m.lastErr == TimedOr(sc.env(l.attempt).call.timeout)
    requires Called(sc, l.attempt) && m.attempt < sc.plan.limit ==> DelayAfter(sc, l.attempt).Some?
    ensures Standing(sc, m)
  {
    hide Passes, Called, DelayAfter, TimedOr;
  }

  /** The step to the next round. */
  lemma RoundStep(sc: Scene, l: Local, a: Action, m: Local)
    requires l.plan == sc.plan && Standing(sc, l) && Obeys(sc, l, a) && Advance(l, a) == Some(m) && m.pc == Top
    ensures Standing(sc, m) || CutShort(sc, m, l.attempt)
  {
    hide Stage, Obeys, Advance, Called, DelayAfter, TimedOr, LastFailure, CallsBefore, SleptBefore, Admitted;
    LeaveRound(sc, l, a, m);
    if !(l.pc == Backing && sc.env(l.attempt).cancelled.Some?) {
      NextStanding(sc, l, m);
    }
  }

  /** The last step. */
  lemma FinalStep(sc: Scene, l: Local, a: Action, m: Local)
    requires l.plan == sc.plan && Standing(sc, l) && Obeys(sc, l, a) && Advance(l, a) == Some(m) && m.pc.Done?
    ensures Decided(sc, m, l.attempt)
  {
    hide CallsBefore, LastFailure, SleptBefore, Passes;
  }

  lemma CutStep(sc: Scene, l: Local, c: nat, a: Action, m: Local)
    requires l.plan == sc.plan && CutShort(sc, l, c) && Advance(l, a) == Some(m)
    ensures m.pc.Done? && Decided(sc, m, c)
  {
    hide CallsBefore, SleptBefore, Passes;
  }

  lemma CourseStep(sc: Scene, l: Local, a: Action, m: Local)
    requires OnCourse(sc, l) && Obeys(sc, l, a) && Advance(l, a) == Some(m)
    ensures OnCourse(sc, m)
  {
    hide Obeys, Stage, Decided, CutShort, CallsBefore, LastFailure, SleptBefore, Passes, NextPc, NextTally, NextErr, NextStatus;
    assert !l.pc.Done? by { NotDone(l, a, m); }
    if c: nat :| CutShort(sc, l, c) {
      CutStep(sc, l, c, a, m);
    } else if m.pc.Done? {
      FinalStep(sc, l, a, m);
    } else if m.pc == Top {
      RoundStep(sc, l, a, m);
    } else {
      StageStep(sc, l, a, m);
      CountStep(sc, l, a, m);
    }
  }

  lemma NotDone(l: Local, a: Action, m: Local)
    requires Advance(l, a) == Some(m)
    ensures !l.pc.Done?
  {
  }

  lemma {:induction false} AlwaysOnCourse(sc: Scene, acts: seq<Action>, l: Local)
    requires sc.plan.limit >= 1 && Traced(sc, acts, l)
    ensures OnCourse(sc, l)
  {
    if acts == [] {
      hide CutShort;
      assert Standing(sc, l);
    } else {
      hide OnCourse, Obeys, Advance;
      var before := Played(sc, acts[..|acts| - 1]).value;
      AlwaysOnCourse(sc, acts[..|acts| - 1], before);
      CourseStep(sc, before, acts[|acts| - 1], l);
    }
  }

  /** The first round that does not pass decides the response, the error and the number of calls; when all pass, the
      last failed call does. */
  lemma FirstRoundDecides(sc: Scene, acts: seq<Action>, l: Local, j: nat)
    requires sc.plan.limit >= 1 && Traced(sc, acts, l) && l.pc.Done?
    requires j <= sc.plan.limit && (forall i :: 0 <= i < j ==> Passes(sc, i)) && (j < sc.plan.limit ==> !Passes(sc, j))
    ensures Decided(sc, l, j)
  {
    AlwaysOnCourse(sc, acts, l);
    var i: nat :| Decided(sc, l, i);
    if i < sc.plan.limit {
      DecidingStops(sc, l, i);
    }
    hide Decided;
    assert i == j;
  }

  lemma DecidingStops(sc: Scene, l: Local, j: nat)
    requires Decided(sc, l, j) && j < sc.plan.limit
    ensures !Passes(sc, j)
  {
  }

  // ----- The same, said of OnRequest's result -----

  /** The error a request ends with when all its rounds pass: that of the last call, if there was one. */
  lemma LastCallsError(sc: Scene, acts: seq<Action>, l: Local, f: nat)
    requires sc.plan.limit >= 1 && Traced(sc, acts, l) && l.pc.Done?
    requires forall i :: 0 <= i < sc.plan.limit ==> Passes(sc, i)
    ensures (forall i :: 0 <= i < sc.plan.limit ==> !Called(sc, i)) ==> ResultOf(l) == FailedWithoutError
    ensures f < sc.plan.limit && Called(sc, f) && (forall i :: f < i < sc.plan.limit ==> !Called(sc, i)) ==>
              && sc.env(f).call.TransportFails?
              && ResultOf(l) == if sc.env(f).call.timeout then DeadlineExceeded else UpstreamErr
  {
    FirstRoundDecides(sc, acts, l, sc.plan.limit);
    hide Passes, Called;
    FailureBefore(sc, sc.plan.limit, l.lastErr, f);
  }

  lemma {:induction false} FailureBefore(sc: Scene, k: nat, e: LastErr, f: nat)
    requires LastFailure(sc, k, e)
    ensures (forall i :: 0 <= i < k ==> !Called(sc, i)) ==> e == NoErr
    ensures f < k && Called(sc, f) && (forall i :: f < i < k ==> !Called(sc, i)) ==>
              sc.env(f).call.TransportFails? && e == if sc.env(f).call.timeout then TimedOut else Other
  {
    hide Called;
    if k > 0 && !Called(sc, k - 1) {
      FailureBefore(sc, k - 1, e, f);
    }
  }

  /** What the first round that does not pass makes OnRequest return. */
  lemma DecidingRoundsResult(sc: Scene, acts: seq<Action>, l: Local, j: nat)
    requires sc.plan.limit >= 1 && Traced(sc, acts, l) && l.pc.Done?
    requires j < sc.plan.limit && (forall i :: 0 <= i < j ==> Passes(sc, i)) && !Passes(sc, j)
    ensures var r := sc.env(j);
            ResultOf(l) ==
            if !Admitted(sc, j) || r.pick.Full? then Nil
            else if r.pick.Empty? then NoEndpoint
            else
              match r.call
              case BuildFails => BuildErr
              case WriteFails => WriteErr
              case Answers(_) => Nil
              case TransportFails(_) =>
                if DelayAfter(sc, j).None? then Panic
                else if r.cancelled == Some(true) then DeadlineExceeded else UpstreamErr
  {
    FirstRoundDecides(sc, acts, l, j);
    hide CallsBefore, SleptBefore, LastFailure;
  }
}
