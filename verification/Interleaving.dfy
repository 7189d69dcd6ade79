/**
 Any number of requests on one cluster, interleaved at atomic-operation granularity with each other, with endpoint
 refreshes and with health reports (internal/cluster/manager.go, internal/httpcm/upstream.go).
 */
module Interleaving {
  import opened Prelude
  import opened Program

  /** Breaker limit, pending-queue bound and per-endpoint cap; zero or less switches each off. */
  datatype Config = Config(maxRequests: int, maxPending: int, epMax: int)

  /** What the requests share. `state` maps an address to its entry, `cells` holds each entry's in-flight counter. */
  datatype Shared = Shared(inflight: int, pending: int, eps: seq<Addr>, state: map<Addr, nat>, cells: seq<int>)

  datatype World = World(sh: Shared, reqs: seq<Local>)

  datatype Label =
    | Act(id: nat, action: Action)  // one request takes one step
    | Arrive(plan: Plan)            // a new request
    | Relist(eps: seq<Addr>)        // applyEndpointSet installs a list and makes the missing entries
    | Report(addr: Addr)            // markFailure, markSuccess or updateActiveHealth makes a missing entry

  function CellAt(sh: Shared, r: nat): (n: int) {
    if r < |sh.cells| then sh.cells[r] else 0
  }

  function Entry(sh: Shared, ep: Addr): (r: Option<nat>) {
    if ep in sh.state then Some(sh.state[ep]) else None
  }

  /** Some endpoint of the snapshot is at its cap: the scan's last failed cap check sees it. */
  predicate SomeFull(cfg: Config, sh: Shared, eps: seq<Addr>) {
    exists ep :: ep in eps && ep in sh.state && CellAt(sh, sh.state[ep]) >= cfg.epMax
  }

  /** The shared state allows the request at `pc` to see the outcome `a`. */
  predicate Enabled(cfg: Config, sh: Shared, pc: Pc, a: Action) {
    match a
    case AddGranted => cfg.maxRequests <= 0 || sh.inflight + 1 <= cfg.maxRequests
    case AddDenied => cfg.maxRequests > 0 && sh.inflight + 1 > cfg.maxRequests
    case EnterQueue => sh.pending < cfg.maxPending
    case QueueClosed => sh.pending >= cfg.maxPending
    case Receive => sh.pending > 0
    case Snapshot(eps) => eps == sh.eps
    case ChooseUnderCap(ep) => cfg.epMax <= 0 || ep !in sh.state || CellAt(sh, sh.state[ep]) < cfg.epMax
    case NoCapacity => cfg.epMax > 0 && pc.Scan? && SomeFull(cfg, sh, pc.eps)
    case LookUp(ref) => (pc.Chosen? || pc.DecLook?) && ref == Entry(sh, pc.ep)
    case SubEndpoint(negative) =>
      pc.DecSub? && (negative <==> pc.found.Some? && CellAt(sh, pc.found.value) - 1 < 0)
    case SubSlot(negative) => negative <==> sh.inflight - 1 < 0
    case _ => true
  }

  function Bump(sh: Shared, ref: Option<nat>, d: int): (after: Shared) {
    if ref.Some? && ref.value < |sh.cells|
    then sh.(cells := sh.cells[ref.value := sh.cells[ref.value] + d])
    else sh
  }

  function Effect(sh: Shared, pc: Pc, a: Action): (after: Shared) {
    match a
    case AddGranted => sh.(inflight := sh.inflight + 1)
    case AddDenied => sh.(inflight := sh.inflight + 1)
    case RollBack => sh.(inflight := sh.inflight - 1)
    case SubSlot(_) => sh.(inflight := sh.inflight - 1)
    case ClampSlot => sh.(inflight := 0)
    case EnterQueue => sh.(pending := sh.pending + 1)
    case Receive => sh.(pending := sh.pending - 1)
    case IncAdd => if pc.Looked? then Bump(sh, pc.ref, 1) else sh
    case SubEndpoint(_) => if pc.DecSub? then Bump(sh, pc.found, -1) else sh
    case ClampEndpoint =>
      if pc.EpClamp? && pc.found.Some? && pc.found.value < |sh.cells|
      then sh.(cells := sh.cells[pc.found.value := 0]) else sh
    case _ => sh
  }

  function AddEntry(sh: Shared, addr: Addr): (after: Shared) {
    if addr in sh.state then sh
    else sh.(state := sh.state[addr := |sh.cells|], cells := sh.cells + [0])
  }

  function AddEntries(sh: Shared, addrs: seq<Addr>): (after: Shared) {
    if addrs == [] then sh else AddEntry(AddEntries(sh, addrs[..|addrs| - 1]), addrs[|addrs| - 1])
  }

  /** One step of the whole system; `None` when the label is not enabled. */
  function Step(cfg: Config, w: World, lab: Label): (after: Option<World>) {
    match lab
    case Act(id, a) =>
      if id >= |w.reqs| || !Enabled(cfg, w.sh, w.reqs[id].pc, a) then None
      else
        (match Advance(w.reqs[id], a)
         case None => None
         case Some(m) => Some(World(Effect(w.sh, w.reqs[id].pc, a), w.reqs[id := m])))
    case Arrive(plan) => if plan.limit >= 1 then Some(w.(reqs := w.reqs + [Start(plan)])) else None
    case Relist(eps) => Some(w.(sh := AddEntries(w.sh, eps).(eps := eps)))
    case Report(addr) => Some(w.(sh := AddEntry(w.sh, addr)))
  }

  /** A freshly built cluster: NewManager gives every listed endpoint an entry. */
  function Boot(eps: seq<Addr>): (start: World) {
    World(AddEntries(Shared(0, 0, [], map[], []), eps).(eps := eps), [])
  }

  function Exec(cfg: Config, w: World, labs: seq<Label>): (after: Option<World>) {
    if labs == [] then Some(w)
    else
      match Exec(cfg, w, labs[..|labs| - 1])
      case None => None
      case Some(v) => Step(cfg, v, labs[|labs| - 1])
  }

  /** `w` is reached from a cluster booted with `eps` by the interleaving `labs`. */
  predicate Reaches(cfg: Config, eps: seq<Addr>, labs: seq<Label>, w: World) {
    Exec(cfg, Boot(eps), labs) == Some(w)
  }

  // ----- Counting requests -----

  datatype Weight =
    | Slots           // breaker slots granted and not released
    | Over            // between an over-limit add and its rollback
    | Waiter          // in the pending queue
    | Cell(r: nat)    // counted on state entry `r`
    | Aloft           // counted on some entry
    | Window(a: Addr) // between Pick's cap check of `a` and the increment of its counter

  function Carried(l: Local): (r: Option<nat>) {
    match l.pc
    case Flying(_, ref) => ref
    case DecLook(_, ref, _) => ref
    case DecSub(ref, _, _) => ref
    case _ => l.stuck
  }

  function W(k: Weight, l: Local): (n: nat) {
    match k
    case Slots => l.tally.carried + B2I(Holding(l.pc))
    case Over => B2I(l.pc.Undo? || l.pc.PollUndo?)
    case Waiter => B2I(Waiting(l.pc))
    case Cell(r) => B2I(Carried(l) == Some(r))
    case Aloft => B2I(Carried(l).Some?)
    case Window(a) => B2I((l.pc.Chosen? || l.pc.Looked?) && l.pc.ep == a)
  }

  function Total(k: Weight, ls: seq<Local>): (n: nat) {
    if ls == [] then 0 else Total(k, ls[..|ls| - 1]) + W(k, ls[|ls| - 1])
  }

  lemma {:induction false} TotalUpdate(k: Weight, ls: seq<Local>, i: nat, m: Local)
    requires i < |ls|
    ensures Total(k, ls[i := m]) == Total(k, ls) - W(k, ls[i]) + W(k, m)
    ensures Total(k, ls) >= W(k, ls[i])
  {
    var n := |ls| - 1;
    if i == n {
      assert ls[i := m][..n] == ls[..n];
    } else {
      assert ls[i := m][..n] == ls[..n][i := m];
      TotalUpdate(k, ls[..n], i, m);
    }
  }

  lemma TotalSnoc(k: Weight, ls: seq<Local>, m: Local)
    ensures Total(k, ls + [m]) == Total(k, ls) + W(k, m)
  {
    assert (ls + [m])[..|ls|] == ls;
  }

  lemma {:induction false} TotalLe(j: Weight, k: Weight, ls: seq<Local>)
    requires forall l :: l in ls ==> W(j, l) <= W(k, l)
    ensures Total(j, ls) <= Total(k, ls)
  {
    if ls != [] {
      TotalLe(j, k, ls[..|ls| - 1]);
    }
  }

  function Sum(s: seq<int>): (n: int) {
    if s == [] then 0 else Sum(s[..|s| - 1]) + s[|s| - 1]
  }

  lemma {:induction false} SumUpdate(s: seq<int>, i: nat, x: int)
    requires i < |s|
    ensures Sum(s[i := x]) == Sum(s) - s[i] + x
  {
    var n := |s| - 1;
    if i == n {
      assert s[i := x][..n] == s[..n];
    } else {
      assert s[i := x][..n] == s[..n][i := x];
      SumUpdate(s[..n], i, x);
    }
  }

  lemma {:induction false} TotalZero(k: Weight, ls: seq<Local>)
    requires forall l :: l in ls ==> W(k, l) == 0
    ensures Total(k, ls) == 0
  {
    if ls != [] {
      TotalZero(k, ls[..|ls| - 1]);
    }
  }

  // ----- The invariant -----

  /** Entries are distinct, and every listed endpoint has one. */
  predicate Tidy(sh: Shared) {
    && (forall a :: a in sh.state ==> sh.state[a] < |sh.cells|)
    && (forall a, b :: a in sh.state && b in sh.state && sh.state[a] == sh.state[b] ==> a == b)
    && (forall a :: a in sh.eps ==> a in sh.state)
  }

  /** Entries are never deleted or replaced. */
  predicate Grows(sh: Shared, sh': Shared) {
    && |sh.cells| <= |sh'.cells|
    && (forall a :: a in sh.state ==> a in sh'.state && sh'.state[a] == sh.state[a])
  }

  /** What a request remembers of the shared entries is still true, and it is in neither clamp. */
  predicate Refs(sh: Shared, l: Local) {
    && (l.stuck.Some? ==> l.stuck.value < |sh.cells|)
    && match l.pc
       case Scan(eps) => eps != [] && forall a :: a in eps ==> a in sh.state
       case Chosen(ep, eps) => ep in sh.state && forall a :: a in eps ==> a in sh.state
       case Looked(ep, ref) => ref.Some? && ref == Entry(sh, ep)
       case Flying(ep, ref) => ref.Some? && ref == Entry(sh, ep)
       case DecLook(ep, ref, _) => ref.Some? && ref == Entry(sh, ep)
       case DecSub(ref, found, _) => ref.Some? && ref == found && ref.value < |sh.cells|
       case EpClamp(_, _) => false
       case Clamping(_) => false
       case _ => true
  }

  predicate RequestsOk(w: World) {
    forall l :: l in w.reqs ==> Books(l) && Refs(w.sh, l)
  }

  predicate SlotsOk(cfg: Config, w: World) {
    && w.sh.inflight == Total(Slots, w.reqs) + Total(Over, w.reqs)
    && (cfg.maxRequests > 0 ==> Total(Slots, w.reqs) <= cfg.maxRequests)
  }

  predicate QueueOk(cfg: Config, w: World) {
    && w.sh.pending == Total(Waiter, w.reqs)
    && (w.sh.pending > 0 ==> w.sh.pending <= cfg.maxPending)
  }

  predicate CellsOk(w: World) {
    && (forall r: nat :: r < |w.sh.cells| ==> w.sh.cells[r] == Total(Cell(r), w.reqs))
    && Sum(w.sh.cells) == Total(Aloft, w.reqs)
  }

  predicate Inv(cfg: Config, w: World) {
    Tidy(w.sh) && RequestsOk(w) && SlotsOk(cfg, w) && QueueOk(cfg, w) && CellsOk(w)
  }

  // ----- One request's step against the shared counters -----

  /** `m` is `l` after the enabled action `a`, as far as the shared counters care. */
  predicate Moves(cfg: Config, sh: Shared, l: Local, a: Action, m: Local) {
    && Enabled(cfg, sh, l.pc, a) && NextPc(l, a) == Some(m.pc) && m.tally == NextTally(l, a, m.pc)
    && m.stuck == if a.BuildError? then l.pc.ref else l.stuck
  }

  lemma SlotDelta(cfg: Config, sh: Shared, l: Local, a: Action, m: Local)
    requires Moves(cfg, sh, l, a, m) && !l.pc.Clamping?
    ensures Effect(sh, l.pc, a).inflight - sh.inflight == W(Slots, m) + W(Over, m) - W(Slots, l) - W(Over, l)
    ensures W(Slots, m) > W(Slots, l) ==> a.AddGranted? && W(Slots, m) == W(Slots, l) + 1
  {
  }

  lemma QueueDelta(cfg: Config, sh: Shared, l: Local, a: Action, m: Local)
    requires Moves(cfg, sh, l, a, m)
    ensures Effect(sh, l.pc, a).pending - sh.pending == W(Waiter, m) - W(Waiter, l)
    ensures W(Waiter, m) > W(Waiter, l) ==> a.EnterQueue?
  {
  }

  lemma CellDelta(cfg: Config, sh: Shared, l: Local, a: Action, m: Local, r: nat)
    requires Tidy(sh) && Refs(sh, l) && Program.Slots(l) && Moves(cfg, sh, l, a, m)
    ensures |Effect(sh, l.pc, a).cells| == |sh.cells|
    ensures CellAt(Effect(sh, l.pc, a), r) - CellAt(sh, r) ==
            if r < |sh.cells| then W(Cell(r), m) - W(Cell(r), l) else 0
  {
    if Counts(a) {
      CellMoves(cfg, sh, l, a, m, r);
    } else {
      CellStays(cfg, sh, l, a, m, r);
    }
  }

  predicate Counts(a: Action) {
    a.IncAdd? || a.SubEndpoint? || a.ClampEndpoint?
  }

  lemma CellMoves(cfg: Config, sh: Shared, l: Local, a: Action, m: Local, r: nat)
    requires Tidy(sh) && Refs(sh, l) && Program.Slots(l) && Moves(cfg, sh, l, a, m) && Counts(a)
    ensures |Effect(sh, l.pc, a).cells| == |sh.cells|
    ensures CellAt(Effect(sh, l.pc, a), r) - CellAt(sh, r) ==
            if r < |sh.cells| then W(Cell(r), m) - W(Cell(r), l) else 0
  {
  }

  lemma CellStays(cfg: Config, sh: Shared, l: Local, a: Action, m: Local, r: nat)
    requires Tidy(sh) && Refs(sh, l) && Program.Slots(l) && Moves(cfg, sh, l, a, m) && !Counts(a)
    ensures Effect(sh, l.pc, a).cells == sh.cells && (r < |sh.cells| ==> W(Cell(r), m) == W(Cell(r), l))
  {
  }

  function Counted(a: Action): (d: int) {
    if a.IncAdd? then 1 else if a.SubEndpoint? then -1 else 0
  }

  lemma AloftDelta(cfg: Config, sh: Shared, l: Local, a: Action, m: Local)
    requires Tidy(sh) && Refs(sh, l) && Program.Slots(l) && Moves(cfg, sh, l, a, m)
    ensures W(Aloft, m) - W(Aloft, l) == Counted(a)
    ensures a.IncAdd? ==> l.pc.Looked?
    ensures a.SubEndpoint? ==> l.pc.DecSub?
    ensures !a.ClampEndpoint?
  {
  }

  lemma SumDelta(sh: Shared, l: Local, a: Action)
    requires Tidy(sh) && Refs(sh, l) && !a.ClampEndpoint?
    requires (a.IncAdd? ==> l.pc.Looked?) && (a.SubEndpoint? ==> l.pc.DecSub?)
    ensures Sum(Effect(sh, l.pc, a).cells) - Sum(sh.cells) == Counted(a)
  {
    if a.IncAdd? || a.SubEndpoint? {
      var r := l.pc.ref.value;
      SumUpdate(sh.cells, r, sh.cells[r] + Counted(a));
    }
  }

  /** The acting request keeps true references: the entry it decrements is the one it incremented. */
  lemma RefsStep(cfg: Config, sh: Shared, l: Local, a: Action, m: Local)
    requires Tidy(sh) && Refs(sh, l) && Moves(cfg, sh, l, a, m)
    requires l.pc.Releasing? ==> sh.inflight >= 1
    requires l.pc.DecSub? ==> CellAt(sh, l.pc.ref.value) >= 1
    ensures Refs(sh, m)
  {
    hide NextTally;
    if Calling(l.pc) {
      RefsCalling(cfg, sh, l, a, m);
    }
  }

  /** From the lookup before the increment to the release. */
  predicate Calling(pc: Pc) {
    pc.Chosen? || pc.Looked? || pc.Flying? || pc.DecLook? || pc.DecSub? || pc.Releasing?
  }

  lemma RefsCalling(cfg: Config, sh: Shared, l: Local, a: Action, m: Local)
    requires Tidy(sh) && Refs(sh, l) && Moves(cfg, sh, l, a, m) && Calling(l.pc)
    requires l.pc.Releasing? ==> sh.inflight >= 1
    requires l.pc.DecSub? ==> CellAt(sh, l.pc.ref.value) >= 1
    ensures Refs(sh, m)
  {
    hide NextTally;
  }

  /** A request's step leaves the entries themselves alone. */
  lemma EffectGrows(sh: Shared, pc: Pc, a: Action)
    requires Tidy(sh)
    ensures Grows(sh, Effect(sh, pc, a)) && Tidy(Effect(sh, pc, a))
  {
  }

  lemma RefsGrow(sh: Shared, sh': Shared, l: Local)
    requires Tidy(sh) && Refs(sh, l) && Grows(sh, sh')
    ensures Refs(sh', l)
  {
  }

  // ----- Every step keeps the invariant -----

  function After(w: World, id: nat, a: Action, m: Local): (v: World)
    requires id < |w.reqs|
  {
    World(Effect(w.sh, w.reqs[id].pc, a), w.reqs[id := m])
  }

  lemma ActMoves(cfg: Config, w: World, id: nat, a: Action, v: World)
    requires Step(cfg, w, Act(id, a)) == Some(v)
    ensures id < |w.reqs| == |v.reqs| && Moves(cfg, w.sh, w.reqs[id], a, v.reqs[id])
    ensures Advance(w.reqs[id], a) == Some(v.reqs[id]) && v == After(w, id, a, v.reqs[id])
  {
  }

  lemma ActKeepsSlots(cfg: Config, w: World, id: nat, a: Action, m: Local)
    requires id < |w.reqs| && Moves(cfg, w.sh, w.reqs[id], a, m) && !w.reqs[id].pc.Clamping? && SlotsOk(cfg, w)
    ensures SlotsOk(cfg, After(w, id, a, m))
  {
    TotalUpdate(Slots, w.reqs, id, m);
    TotalUpdate(Over, w.reqs, id, m);
    SlotDelta(cfg, w.sh, w.reqs[id], a, m);
  }

  lemma ActKeepsQueue(cfg: Config, w: World, id: nat, a: Action, m: Local)
    requires id < |w.reqs| && Moves(cfg, w.sh, w.reqs[id], a, m) && QueueOk(cfg, w)
    ensures QueueOk(cfg, After(w, id, a, m))
  {
    TotalUpdate(Waiter, w.reqs, id, m);
    QueueDelta(cfg, w.sh, w.reqs[id], a, m);
  }

  lemma ActKeepsCells(cfg: Config, w: World, id: nat, a: Action, m: Local)
    requires id < |w.reqs| && Moves(cfg, w.sh, w.reqs[id], a, m)
    requires Tidy(w.sh) && Program.Slots(w.reqs[id]) && Refs(w.sh, w.reqs[id]) && CellsOk(w)
    ensures CellsOk(After(w, id, a, m))
  {
    var l, v := w.reqs[id], After(w, id, a, m);
    TotalUpdate(Aloft, w.reqs, id, m);
    AloftDelta(cfg, w.sh, l, a, m);
    SumDelta(w.sh, l, a);
    forall r: nat | r < |v.sh.cells| ensures v.sh.cells[r] == Total(Cell(r), v.reqs) {
      TotalUpdate(Cell(r), w.reqs, id, m);
      CellDelta(cfg, w.sh, l, a, m, r);
    }
  }

  lemma ActKeepsRequests(cfg: Config, w: World, id: nat, a: Action, m: Local)
    requires id < |w.reqs| && Moves(cfg, w.sh, w.reqs[id], a, m) && Books(m) && Inv(cfg, w)
    ensures RequestsOk(After(w, id, a, m))
  {
    var l, v := w.reqs[id], After(w, id, a, m);
    assert Refs(w.sh, l);
    EffectGrows(w.sh, l.pc, a);
    TotalUpdate(Slots, w.reqs, id, m);
    if l.pc.DecSub? {
      TotalUpdate(Cell(l.pc.ref.value), w.reqs, id, m);
    }
    RefsStep(cfg, w.sh, l, a, m);
    forall k | k in v.reqs ensures Books(k) && Refs(v.sh, k) {
      RefsGrow(w.sh, v.sh, k);
    }
  }

  lemma ActKeepsInv(cfg: Config, w: World, id: nat, a: Action, v: World)
    requires Inv(cfg, w) && Step(cfg, w, Act(id, a)) == Some(v)
    ensures Inv(cfg, v)
  {
    ActMoves(cfg, w, id, a, v);
    var l, m := w.reqs[id], v.reqs[id];
    assert Books(l) && Refs(w.sh, l);
    AdvanceBalances(l, a, m);
    EffectGrows(w.sh, l.pc, a);
    ActKeepsSlots(cfg, w, id, a, m);
    ActKeepsQueue(cfg, w, id, a, m);
    ActKeepsCells(cfg, w, id, a, m);
    ActKeepsRequests(cfg, w, id, a, m);
  }

  lemma ArriveKeepsInv(cfg: Config, w: World, plan: Plan, v: World)
    requires Inv(cfg, w) && Step(cfg, w, Arrive(plan)) == Some(v)
    ensures Inv(cfg, v)
  {
    forall k ensures Total(k, v.reqs) == Total(k, w.reqs) {
      TotalSnoc(k, w.reqs, Start(plan));
      assert W(k, Start(plan)) == 0;
    }
    assert Books(Start(plan)) && Refs(v.sh, Start(plan));
  }

  lemma EntryKeepsInv(cfg: Config, w: World, addr: Addr)
    requires Inv(cfg, w)
    ensures Inv(cfg, w.(sh := AddEntry(w.sh, addr))) && Grows(w.sh, AddEntry(w.sh, addr))
    ensures addr in AddEntry(w.sh, addr).state && AddEntry(w.sh, addr).eps == w.sh.eps
  {
    var sh := AddEntry(w.sh, addr);
    if addr !in w.sh.state {
      var n := |w.sh.cells|;
      assert sh.cells[..n] == w.sh.cells;
      forall l | l in w.reqs ensures W(Cell(n), l) == 0 && Refs(sh, l) {
        RefsGrow(w.sh, sh, l);
      }
      TotalZero(Cell(n), w.reqs);
    }
  }

  lemma {:induction false} EntriesKeepInv(cfg: Config, w: World, addrs: seq<Addr>)
    requires Inv(cfg, w)
    ensures Inv(cfg, w.(sh := AddEntries(w.sh, addrs)))
    ensures forall a :: a in addrs ==> a in AddEntries(w.sh, addrs).state
    ensures Grows(w.sh, AddEntries(w.sh, addrs)) && AddEntries(w.sh, addrs).eps == w.sh.eps
  {
    if addrs != [] {
      EntriesKeepInv(cfg, w, addrs[..|addrs| - 1]);
      var mid := w.(sh := AddEntries(w.sh, addrs[..|addrs| - 1]));
      EntryKeepsInv(cfg, mid, addrs[|addrs| - 1]);
      assert w.(sh := AddEntries(w.sh, addrs)) == mid.(sh := AddEntry(mid.sh, addrs[|addrs| - 1]));
    }
  }

  lemma RelistKeepsInv(cfg: Config, w: World, eps: seq<Addr>)
    requires Inv(cfg, w)
    ensures Inv(cfg, w.(sh := AddEntries(w.sh, eps).(eps := eps)))
  {
    EntriesKeepInv(cfg, w, eps);
    var mid := w.(sh := AddEntries(w.sh, eps));
    var sh := mid.sh.(eps := eps);
    forall l | l in w.reqs ensures Refs(sh, l) {
      RefsGrow(mid.sh, sh, l);
    }
  }

  lemma BootInv(cfg: Config, eps: seq<Addr>)
    ensures Inv(cfg, Boot(eps))
  {
    RelistKeepsInv(cfg, World(Shared(0, 0, [], map[], []), []), eps);
  }

  lemma StepKeepsInv(cfg: Config, w: World, lab: Label, v: World)
    requires Inv(cfg, w) && Step(cfg, w, lab) == Some(v)
    ensures Inv(cfg, v)
  {
    match lab
    case Act(id, a) => ActKeepsInv(cfg, w, id, a, v);
    case Arrive(plan) => ArriveKeepsInv(cfg, w, plan, v);
    case Relist(eps) => RelistKeepsInv(cfg, w, eps);
    case Report(addr) => EntryKeepsInv(cfg, w, addr);
  }

  /** The invariant holds in every state of every interleaving. */
  lemma {:induction false} Always(cfg: Config, eps: seq<Addr>, labs: seq<Label>, w: World)
    requires Reaches(cfg, eps, labs, w)
    ensures Inv(cfg, w)
  {
    if labs == [] {
      BootInv(cfg, eps);
    } else {
      var before := Exec(cfg, Boot(eps), labs[..|labs| - 1]).value;
      Always(cfg, eps, labs[..|labs| - 1], before);
      StepKeepsInv(cfg, before, labs[|labs| - 1], w);
    }
  }
}
