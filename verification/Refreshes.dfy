/**
 Strict-DNS refreshes of several seeds, interleaved at lock-section granularity (internal/cluster/manager.go).
 `resolveOnce` drops the lock between computing a union and applying it, checks are started and stopped one lock
 section each, and a stopped check is cancelled only after its section ends.
 */
module Refreshes {
  import opened Prelude
  import opened Discovery

  datatype Checker = Checker(addr: Addr, cancelled: bool)

  datatype Job =
    | Idle
    | Computed(union: set<Addr>)                             // between the two lock sections of a refresh
    | Adjusting(toAdd: set<Addr>, toRemove: set<Addr>)       // list installed, checks to start, then to stop
    | Cancelling(id: nat, toRemove: set<Addr>)               // unregistered, about to call its cancel function

  datatype Sys = Sys(
    listed: set<Addr>, entries: set<Addr>, resolved: map<string, set<Addr>>,
    cancel: map<Addr, nat>, checkers: seq<Checker>, jobs: seq<Job>, unions: seq<set<Addr>>)

  datatype Label =
    | Look(j: nat, seed: string, ips: set<Addr>)
    | Apply(j: nat)
    | Begin(j: nat, a: Addr)
    | End(j: nat, a: Addr)
    | Cancel(j: nat)
    | Rest(j: nat)
    | Report(a: Addr)  // a health report makes a missing entry

  /** startHealthCheck's lock section. */
  function Register(cfg: Setup, s: Sys, a: Addr): (t: Sys) {
    if !cfg.healthCheck || a in s.cancel then s
    else s.(cancel := s.cancel[a := |s.checkers|], checkers := s.checkers + [Checker(a, false)])
  }

  function RegisterAll(cfg: Setup, s: Sys, list: seq<Addr>): (t: Sys) {
    if list == [] then s else Register(cfg, RegisterAll(cfg, s, list[..|list| - 1]), list[|list| - 1])
  }

  /** The hostname seeds, in order. */
  function Hosts(seeds: seq<Seed>): (hosts: seq<string>) {
    if seeds == [] then []
    else
      var rest := Hosts(seeds[..|seeds| - 1]);
      if seeds[|seeds| - 1].Host? then rest + [seeds[|seeds| - 1].text] else rest
  }

  /** startDiscovery: one refresh loop a hostname seed, listed twice or not, and none without strict DNS. */
  function Loops(cfg: Setup): (hosts: seq<string>) {
    if cfg.strictDns then Hosts(cfg.seeds) else []
  }

  /** Before any check is started. */
  function Unchecked(cfg: Setup): (s: Sys) {
    var list := SetOf(Listing(cfg.seeds, cfg.strictDns));
    Sys(list, list, map[], map[], [], seq(|Loops(cfg)|, _ => Idle), [])
  }

  /** After Manager.Start: the configured list, its checks running, every refresh loop about to look up its seed. */
  function Begun(cfg: Setup): (s: Sys) {
    RegisterAll(cfg, Unchecked(cfg), Listing(cfg.seeds, cfg.strictDns))
  }

  function Step(cfg: Setup, s: Sys, lab: Label): (after: Option<Sys>) {
    if lab.Report? then Some(s.(entries := s.entries + {lab.a}))
    else if lab.j >= |s.jobs| then None
    else
      var job := s.jobs[lab.j];
      match lab
      case Look(j, seed, ips) =>
        if !job.Idle? || j >= |Loops(cfg)| || seed != Loops(cfg)[j] || !Answer(seed, ips) then None
        else
          var resolved := s.resolved[seed := ips];
          var union := Effective(cfg, resolved);
          Some(s.(resolved := resolved, unions := s.unions + [union], jobs := s.jobs[j := Computed(union)]))
      case Apply(j) =>
        if !job.Computed? then None
        else
          Some(s.(listed := job.union, entries := s.entries + (job.union - s.listed),
                  jobs := s.jobs[j := Adjusting(job.union - s.listed, s.listed - job.union)]))
      case Begin(j, a) =>
        if !job.Adjusting? || a !in job.toAdd then None
        else Some(Register(cfg, s, a).(jobs := s.jobs[j := job.(toAdd := job.toAdd - {a})]))
      case End(j, a) =>
        if !job.Adjusting? || job.toAdd != {} || a !in job.toRemove then None
        else if a in s.cancel then
          Some(s.(cancel := s.cancel - {a}, jobs := s.jobs[j := Cancelling(s.cancel[a], job.toRemove - {a})]))
        else Some(s.(jobs := s.jobs[j := Adjusting({}, job.toRemove - {a})]))
      case Cancel(j) =>
        if !job.Cancelling? || job.id >= |s.checkers| then None
        else
          Some(s.(checkers := s.checkers[job.id := s.checkers[job.id].(cancelled := true)],
                  jobs := s.jobs[j := Adjusting({}, job.toRemove)]))
      case Rest(j) =>
        if !job.Adjusting? || job.toAdd != {} || job.toRemove != {} then None
        else Some(s.(jobs := s.jobs[j := Idle]))
  }

  function Exec(cfg: Setup, s: Sys, labs: seq<Label>): (after: Option<Sys>) {
    if labs == [] then Some(s)
    else
      match Exec(cfg, s, labs[..|labs| - 1])
      case None => None
      case Some(t) => Step(cfg, t, labs[|labs| - 1])
  }

  predicate Reaches(cfg: Setup, labs: seq<Label>, s: Sys) {
    Exec(cfg, Begun(cfg), labs) == Some(s)
  }

  // ----- Lists and entries -----

  function InitialList(cfg: Setup): (addrs: set<Addr>) {
    SetOf(Listing(cfg.seeds, cfg.strictDns))
  }

  predicate ListsOk(cfg: Setup, s: Sys) {
    && (s.listed == InitialList(cfg) || s.listed in s.unions)
    && s.listed <= s.entries && StaticSeeds(cfg.seeds) <= s.listed
    && (forall u :: u in s.unions ==> StaticSeeds(cfg.seeds) <= u)
    && (forall k :: 0 <= k < |s.jobs| && s.jobs[k].Computed? ==> s.jobs[k].union in s.unions)
  }

  lemma {:induction false} RegisterAllFrame(cfg: Setup, s: Sys, list: seq<Addr>)
    ensures var t := RegisterAll(cfg, s, list);
            && t.listed == s.listed && t.entries == s.entries && t.resolved == s.resolved
            && t.unions == s.unions && t.jobs == s.jobs
  {
    if list != [] {
      RegisterAllFrame(cfg, s, list[..|list| - 1]);
    }
  }

  lemma {:induction false} ListingHasStatic(seeds: seq<Seed>, strictDns: bool)
    ensures StaticSeeds(seeds) <= SetOf(Listing(seeds, strictDns))
  {
    if seeds != [] {
      var n := |seeds| - 1;
      ListingHasStatic(seeds[..n], strictDns);
      SeedStep(seeds, n, strictDns);
      assert seeds[..n + 1] == seeds;
    }
  }

  lemma ListsStep(cfg: Setup, s: Sys, lab: Label, t: Sys)
    requires ListsOk(cfg, s) && Step(cfg, s, lab) == Some(t)
    ensures ListsOk(cfg, t)
  {
    hide AllResolved;
    hide StaticSeeds;
    match lab
    case Look(j, seed, ips) =>
      assert t.unions[|s.unions|] == t.jobs[j].union;
    case Apply(j) =>
    case Begin(j, a) =>
    case End(j, a) =>
    case Cancel(j) =>
    case Rest(j) =>
    case Report(a) =>
  }

  /** However refreshes interleave, the list is the configured one or a union some refresh computed, never less than
      the static seeds, and every listed endpoint has its state entry. */
  lemma {:induction false} ListsAlways(cfg: Setup, labs: seq<Label>, s: Sys)
    requires Reaches(cfg, labs, s)
    ensures ListsOk(cfg, s)
  {
    if labs == [] {
      RegisterAllFrame(cfg, Unchecked(cfg), Listing(cfg.seeds, cfg.strictDns));
      ListingHasStatic(cfg.seeds, cfg.strictDns);
    } else {
      var before := Exec(cfg, Begun(cfg), labs[..|labs| - 1]).value;
      ListsAlways(cfg, labs[..|labs| - 1], before);
      ListsStep(cfg, before, labs[|labs| - 1], s);
    }
  }

  // ----- Health checkers -----

  predicate Uncancelled(s: Sys, id: nat) {
    id < |s.checkers| && !s.checkers[id].cancelled
  }

  predicate Registered(s: Sys, id: nat) {
    id < |s.checkers| && s.checkers[id].addr in s.cancel && s.cancel[s.checkers[id].addr] == id
  }

  /** Job `k` has unregistered checker `id` and is about to cancel it. */
  predicate Doomed(s: Sys, id: nat, k: nat) {
    k < |s.jobs| && s.jobs[k].Cancelling? && s.jobs[k].id == id
  }

  ghost predicate CheckersOk(s: Sys) {
    && (forall a :: a in s.cancel ==> Uncancelled(s, s.cancel[a]) && s.checkers[s.cancel[a]].addr == a)
    && (forall k: nat :: k < |s.jobs| && s.jobs[k].Cancelling? ==>
          Uncancelled(s, s.jobs[k].id) && !Registered(s, s.jobs[k].id))
    && (forall j: nat, k: nat :: j < k < |s.jobs| && s.jobs[j].Cancelling? && s.jobs[k].Cancelling? ==>
          s.jobs[j].id != s.jobs[k].id)
    && (forall id: nat :: Uncancelled(s, id) ==> Registered(s, id) || exists k: nat :: Doomed(s, id, k))
  }

  lemma RegisterKeeps(cfg: Setup, s: Sys, a: Addr)
    requires CheckersOk(s)
    ensures CheckersOk(Register(cfg, s, a))
  {
    var t := Register(cfg, s, a);
    forall id: nat | Uncancelled(t, id) ensures Registered(t, id) || exists k: nat :: Doomed(t, id, k) {
      if id < |s.checkers| {
        assert Uncancelled(s, id);
        if !Registered(s, id) {
          var k: nat :| Doomed(s, id, k);
          assert Doomed(t, id, k);
        }
      }
    }
  }

  /** A job that was not cancelling and still is not changes nothing for the checkers. */
  lemma JobKeeps(s: Sys, j: nat, job: Job)
    requires CheckersOk(s) && j < |s.jobs| && !s.jobs[j].Cancelling? && !job.Cancelling?
    ensures CheckersOk(s.(jobs := s.jobs[j := job]))
  {
    var t := s.(jobs := s.jobs[j := job]);
    forall id: nat | Uncancelled(t, id) ensures Registered(t, id) || exists k: nat :: Doomed(t, id, k) {
      assert Uncancelled(s, id);
      if !Registered(s, id) {
        var k: nat :| Doomed(s, id, k);
        assert Doomed(t, id, k);
      }
    }
  }

  lemma EndKeeps(s: Sys, j: nat, a: Addr, rest: set<Addr>)
    requires CheckersOk(s) && j < |s.jobs| && !s.jobs[j].Cancelling? && a in s.cancel
    ensures CheckersOk(s.(cancel := s.cancel - {a}, jobs := s.jobs[j := Cancelling(s.cancel[a], rest)]))
  {
    var t := s.(cancel := s.cancel - {a}, jobs := s.jobs[j := Cancelling(s.cancel[a], rest)]);
    assert Registered(s, s.cancel[a]);
    forall id: nat | Uncancelled(t, id) ensures Registered(t, id) || exists k: nat :: Doomed(t, id, k) {
      assert Uncancelled(s, id);
      if id == s.cancel[a] {
        assert Doomed(t, id, j);
      } else if !Registered(s, id) {
        var k: nat :| Doomed(s, id, k);
        assert Doomed(t, id, k);
      }
    }
  }

  lemma CancelKeeps(s: Sys, j: nat, job: Job)
    requires CheckersOk(s) && j < |s.jobs| && s.jobs[j].Cancelling? && !job.Cancelling?
    ensures s.jobs[j].id < |s.checkers|
    ensures var id := s.jobs[j].id;
            CheckersOk(s.(checkers := s.checkers[id := s.checkers[id].(cancelled := true)], jobs := s.jobs[j := job]))
  {
    var gone := s.jobs[j].id;
    assert Uncancelled(s, gone) && !Registered(s, gone);
    var t := s.(checkers := s.checkers[gone := s.checkers[gone].(cancelled := true)], jobs := s.jobs[j := job]);
    forall id: nat | Uncancelled(t, id) ensures Registered(t, id) || exists k: nat :: Doomed(t, id, k) {
      assert id != gone && Uncancelled(s, id);
      if !Registered(s, id) {
        var k: nat :| Doomed(s, id, k);
        assert Doomed(t, id, k);
      }
    }
  }

  lemma CheckersStep(cfg: Setup, s: Sys, lab: Label, t: Sys)
    requires CheckersOk(s) && Step(cfg, s, lab) == Some(t)
    ensures CheckersOk(t)
  {
    match lab
    case Look(j, _, _) =>
      JobKeeps(s, j, t.jobs[j]);
      SameChecks(s.(jobs := t.jobs), t);
    case Apply(j) =>
      JobKeeps(s, j, t.jobs[j]);
      SameChecks(s.(jobs := t.jobs), t);
    case Begin(j, a) =>
      RegisterKeeps(cfg, s, a);
      JobKeeps(Register(cfg, s, a), j, t.jobs[j]);
    case End(j, a) =>
      if a in s.cancel {
        EndKeeps(s, j, a, t.jobs[j].toRemove);
      } else {
        JobKeeps(s, j, t.jobs[j]);
      }
    case Cancel(j) =>
      CancelKeeps(s, j, t.jobs[j]);
    case Rest(j) =>
      JobKeeps(s, j, Idle);
    case Report(a) =>
      SameChecks(s, t);
  }

  lemma SameChecks(s: Sys, t: Sys)
    requires CheckersOk(s) && t.cancel == s.cancel && t.checkers == s.checkers && t.jobs == s.jobs
    ensures CheckersOk(t)
  {
    forall id: nat | Uncancelled(t, id) ensures Registered(t, id) || exists k: nat :: Doomed(t, id, k) {
      assert Uncancelled(s, id);
      if !Registered(s, id) {
        var k: nat :| Doomed(s, id, k);
        assert Doomed(t, id, k);
      }
    }
  }

  lemma {:induction false} RegisterAllKeeps(cfg: Setup, s: Sys, list: seq<Addr>)
    requires CheckersOk(s)
    ensures CheckersOk(RegisterAll(cfg, s, list))
  {
    if list != [] {
      RegisterAllKeeps(cfg, s, list[..|list| - 1]);
      RegisterKeeps(cfg, RegisterAll(cfg, s, list[..|list| - 1]), list[|list| - 1]);
    }
  }

  lemma {:induction false} CheckersAlways(cfg: Setup, labs: seq<Label>, s: Sys)
    requires Reaches(cfg, labs, s)
    ensures CheckersOk(s)
  {
    if labs == [] {
      RegisterAllKeeps(cfg, Unchecked(cfg), Listing(cfg.seeds, cfg.strictDns));
    } else {
      var before := Exec(cfg, Begun(cfg), labs[..|labs| - 1]).value;
      CheckersAlways(cfg, labs[..|labs| - 1], before);
      CheckersStep(cfg, before, labs[|labs| - 1], s);
    }
  }

  /** Two uncancelled checkers of one address. */
  ghost predicate Doubled(s: Sys, a: Addr) {
    exists i: nat, j: nat :: i < j && Uncancelled(s, i) && Uncancelled(s, j)
                             && s.checkers[i].addr == a && s.checkers[j].addr == a
  }

  /** Job `k` stands between unregistering a checker of `a` and cancelling it. */
  predicate Stopping(s: Sys, a: Addr, k: nat) {
    k < |s.jobs| && s.jobs[k].Cancelling? && s.jobs[k].id < |s.checkers| && s.checkers[s.jobs[k].id].addr == a
  }

  /** An address has two uncancelled checkers exactly while a stopped one awaits its cancel call beside another. */
  lemma DoubledExactly(cfg: Setup, labs: seq<Label>, s: Sys, a: Addr)
    requires Reaches(cfg, labs, s)
    ensures Doubled(s, a) <==>
            || (a in s.cancel && exists k: nat :: Stopping(s, a, k))
            || (exists j: nat, k: nat :: j < k && Stopping(s, a, j) && Stopping(s, a, k))
  {
    CheckersAlways(cfg, labs, s);
    if Doubled(s, a) {
      var i: nat, j: nat :| i < j && Uncancelled(s, i) && Uncancelled(s, j)
                            && s.checkers[i].addr == a && s.checkers[j].addr == a;
      var ki := Keeper(s, i);
      var kj := Keeper(s, j);
      if ki.Some? && kj.Some? {
        assert Stopping(s, a, ki.value) && Stopping(s, a, kj.value) && ki.value != kj.value;
      } else if ki.Some? {
        assert Stopping(s, a, ki.value);
      } else if kj.Some? {
        assert Stopping(s, a, kj.value);
      }
    }
    if a in s.cancel && exists k: nat :: Stopping(s, a, k) {
      var k: nat :| Stopping(s, a, k);
      Pair(s, a, s.cancel[a], s.jobs[k].id);
    }
    if exists j: nat, k: nat :: j < k && Stopping(s, a, j) && Stopping(s, a, k) {
      var j: nat, k: nat :| j < k && Stopping(s, a, j) && Stopping(s, a, k);
      Pair(s, a, s.jobs[j].id, s.jobs[k].id);
    }
  }

  /** Who answers for an uncancelled checker: the table, or the job about to cancel it. */
  lemma Keeper(s: Sys, id: nat) returns (k: Option<nat>)
    requires CheckersOk(s) && Uncancelled(s, id)
    ensures k.Some? ==> Doomed(s, id, k.value)
    ensures k.None? ==> Registered(s, id)
  {
    if Registered(s, id) {
      k := None;
    } else {
      var j: nat :| Doomed(s, id, j);
      k := Some(j);
    }
  }

  lemma Pair(s: Sys, a: Addr, i: nat, j: nat)
    requires i != j && Uncancelled(s, i) && Uncancelled(s, j) && s.checkers[i].addr == a && s.checkers[j].addr == a
    ensures Doubled(s, a)
  {
    var lo, hi := if i < j then i else j, if i < j then j else i;
    assert lo < hi && Uncancelled(s, lo) && Uncancelled(s, hi);
  }

  // ----- Which configurations keep the list current -----

  lemma Extend(cfg: Setup, labs: seq<Label>, s: Sys, lab: Label) returns (labs': seq<Label>, t: Sys)
    requires Reaches(cfg, labs, s) && Step(cfg, s, lab).Some?
    ensures Reaches(cfg, labs', t) && Step(cfg, s, lab) == Some(t)
  {
    labs', t := labs + [lab], Step(cfg, s, lab).value;
    assert labs'[..|labs|] == labs;
  }

  predicate AllIdle(s: Sys) {
    forall k :: 0 <= k < |s.jobs| ==> s.jobs[k].Idle?
  }

  /** The list is what the static seeds and the latest lookups make it. */
  predicate Current(cfg: Setup, s: Sys) {
    s.listed == Effective(cfg, s.resolved)
  }

  lemma BegunFrame(cfg: Setup)
    ensures var s := Begun(cfg);
            && s.listed == InitialList(cfg) && s.resolved == map[]
            && |s.jobs| == |Loops(cfg)| && AllIdle(s) && Reaches(cfg, [], s)
  {
    RegisterAllFrame(cfg, Unchecked(cfg), Listing(cfg.seeds, cfg.strictDns));
  }

  lemma {:induction false} JobsAlways(cfg: Setup, labs: seq<Label>, s: Sys)
    requires Reaches(cfg, labs, s)
    ensures |s.jobs| == |Loops(cfg)|
  {
    if labs == [] {
      BegunFrame(cfg);
    } else {
      JobsAlways(cfg, labs[..|labs| - 1], Exec(cfg, Begun(cfg), labs[..|labs| - 1]).value);
    }
  }

  /** One refresh as far as the installed list: both lock sections, nothing in between. */
  lemma Install(cfg: Setup, labs: seq<Label>, s: Sys, j: nat, ips: set<Addr>, union: set<Addr>)
      returns (labs': seq<Label>, t: Sys)
    requires Reaches(cfg, labs, s) && j < |s.jobs| == |Loops(cfg)| && s.jobs[j].Idle?
    requires Answer(Loops(cfg)[j], ips) && union == Effective(cfg, s.resolved[Loops(cfg)[j] := ips])
    ensures Reaches(cfg, labs', t)
    ensures t.listed == union && t.resolved == s.resolved[Loops(cfg)[j] := ips]
    ensures t.cancel == s.cancel && t.checkers == s.checkers
    ensures t.jobs == s.jobs[j := Adjusting(union - s.listed, s.listed - union)]
  {
    hide Effective, Reaches;
    labs', t := Extend(cfg, labs, s, Look(j, Loops(cfg)[j], ips));
    labs', t := Extend(cfg, labs', t, Apply(j));
  }

  /** A job that has installed its list runs to its end while the others stand still. */
  lemma {:induction false} Settle(cfg: Setup, labs: seq<Label>, s: Sys, j: nat) returns (labs': seq<Label>, t: Sys)
    requires Reaches(cfg, labs, s) && j < |s.jobs| && s.jobs[j].Adjusting?
    ensures Reaches(cfg, labs', t) && t.jobs == s.jobs[j := Idle]
    ensures t.listed == s.listed && t.resolved == s.resolved
    ensures forall a :: a !in s.jobs[j].toRemove && cfg.healthCheck && (a in s.cancel || a in s.jobs[j].toAdd) ==>
                          a in t.cancel
    decreases s.jobs[j].toAdd, s.jobs[j].toRemove
  {
    hide Reaches;
    var job := s.jobs[j];
    if job.toAdd != {} {
      var a :| a in job.toAdd;
      labs', t := Extend(cfg, labs, s, Begin(j, a));
      labs', t := Settle(cfg, labs', t, j);
    } else if job.toRemove != {} {
      var a :| a in job.toRemove;
      labs', t := EndOne(cfg, labs, s, j, a);
      labs', t := Settle(cfg, labs', t, j);
    } else {
      labs', t := Extend(cfg, labs, s, Rest(j));
    }
  }

  /** One check is stopped and cancelled. */
  lemma EndOne(cfg: Setup, labs: seq<Label>, s: Sys, j: nat, a: Addr) returns (labs': seq<Label>, t: Sys)
    requires Reaches(cfg, labs, s) && j < |s.jobs|
    requires s.jobs[j].Adjusting? && s.jobs[j].toAdd == {} && a in s.jobs[j].toRemove
    ensures Reaches(cfg, labs', t) && t.jobs == s.jobs[j := Adjusting({}, s.jobs[j].toRemove - {a})]
    ensures t.listed == s.listed && t.resolved == s.resolved && t.cancel == s.cancel - {a}
  {
    CheckersAlways(cfg, labs, s);
    hide Reaches;
    labs', t := Extend(cfg, labs, s, End(j, a));
    if a in s.cancel {
      labs', t := Extend(cfg, labs', t, Cancel(j));
    }
  }

  lemma {:induction false} PortAfter(k: nat, seed: string)
    ensures PortPart(seq(k, _ => 'a') + PortPart(seed)) == PortPart(seed)
  {
    var p, text := PortPart(seed), seq(k, _ => 'a') + PortPart(seed);
    if k == 0 {
      assert text == p;
    } else {
      PortAfter(k - 1, seed);
      assert text[1..] == seq(k - 1, _ => 'a') + p;
    }
  }

  /** Outside any finite set there is an address a lookup of the seed can yield. */
  lemma FreshAddr(known: set<Addr>, seed: string) returns (a: Addr)
    ensures a !in known && Answer(seed, {a})
  {
    var n := Longest(known);
    a := seq(n + 1, _ => 'a') + PortPart(seed);
    PortAfter(n + 1, seed);
  }

  lemma {:induction false} Longest(known: set<Addr>) returns (n: nat)
    ensures forall a :: a in known ==> |a| <= n
  {
    n := 0;
    if known != {} {
      var a :| a in known;
      n := Longest(known - {a});
      if n < |a| {
        n := |a|;
      }
    }
  }

  lemma EffectiveAtFirst(cfg: Setup)
    ensures Effective(cfg, map[]) == StaticSeeds(cfg.seeds)
  {
    NothingResolved();
  }

  lemma UnionOfOne(cfg: Setup, h: string, xs: set<Addr>)
    ensures Effective(cfg, map[h := xs]) == StaticSeeds(cfg.seeds) + xs
  {
    ResolvedOnce(h, xs);
  }

  /** Two lookups in turn; the second replaces the first when they are of the same seed. */
  lemma UnionOfTwo(cfg: Setup, h: string, g: string, xs: set<Addr>, ys: set<Addr>)
    ensures Effective(cfg, map[h := xs][g := ys]) == StaticSeeds(cfg.seeds) + ys + if h == g then {} else xs
  {
    hide StaticSeeds;
    var m := map[h := xs][g := ys];
    assert m[g] == ys && h in m && m[h] == if h == g then ys else xs;
    var both := ys + if h == g then {} else xs;
    forall a ensures a in AllResolved(m) <==> a in both {
      assert a in ys ==> a in m[g];
      assert h != g && a in xs ==> a in m[h];
    }
    assert AllResolved(m) == both;
  }

  /** The lock is dropped between union and apply: with two loops a stale union can be the last one installed. */
  lemma StaleUnionWins(cfg: Setup) returns (labs: seq<Label>, s: Sys)
    requires |Loops(cfg)| >= 2 && InitialList(cfg) == StaticSeeds(cfg.seeds)
    ensures Reaches(cfg, labs, s) && AllIdle(s) && !Current(cfg, s)
  {
    hide Reaches, Effective, StaticSeeds, Loops, Answer;
    var fixed, h, g := StaticSeeds(cfg.seeds), Loops(cfg)[0], Loops(cfg)[1];
    var x := FreshAddr(fixed, h);
    var y := FreshAddr(fixed + {x}, g);
    UnionOfOne(cfg, h, {x});
    UnionOfTwo(cfg, h, g, {x}, {y});
    BegunFrame(cfg);
    labs, s := Extend(cfg, [], Begun(cfg), Look(0, h, {x}));
    assert s.resolved == map[h := {x}] && s.jobs[0] == Computed(fixed + {x});
    labs, s := Install(cfg, labs, s, 1, {y}, Effective(cfg, map[h := {x}][g := {y}]));
    labs, s := Settle(cfg, labs, s, 1);
    labs, s := Extend(cfg, labs, s, Apply(0));
    labs, s := Settle(cfg, labs, s, 0);
    assert s.listed == fixed + {x} && y in Effective(cfg, s.resolved);
  }

  /** The only loop is never overtaken. */
  predicate InOrder(cfg: Setup, s: Sys) {
    && |s.jobs| <= 1
    && if s.jobs != [] && s.jobs[0].Computed? then s.jobs[0].union == Effective(cfg, s.resolved) else Current(cfg, s)
  }

  lemma {:induction false} OneLoopInOrder(cfg: Setup, labs: seq<Label>, s: Sys)
    requires |Loops(cfg)| <= 1 && InitialList(cfg) == StaticSeeds(cfg.seeds) && Reaches(cfg, labs, s)
    ensures InOrder(cfg, s)
  {
    JobsAlways(cfg, labs, s);
    hide Effective, StaticSeeds, Loops;
    if labs == [] {
      BegunFrame(cfg);
      EffectiveAtFirst(cfg);
    } else {
      OneLoopInOrder(cfg, labs[..|labs| - 1], Exec(cfg, Begun(cfg), labs[..|labs| - 1]).value);
    }
  }

  ghost predicate AlwaysCurrent(cfg: Setup) {
    forall labs, s :: Reaches(cfg, labs, s) && AllIdle(s) ==> Current(cfg, s)
  }

  /** Whenever no refresh is under way the list is current: exactly for configurations whose first list holds the
      static seeds only and that have at most one hostname seed. */
  lemma CurrentExactly(cfg: Setup)
    ensures AlwaysCurrent(cfg) <==> InitialList(cfg) == StaticSeeds(cfg.seeds) && |Loops(cfg)| <= 1
  {
    hide Effective, StaticSeeds, Loops;
    if InitialList(cfg) == StaticSeeds(cfg.seeds) && |Loops(cfg)| <= 1 {
      forall labs, s | Reaches(cfg, labs, s) && AllIdle(s) ensures Current(cfg, s) {
        OneLoopInOrder(cfg, labs, s);
      }
    } else if InitialList(cfg) == StaticSeeds(cfg.seeds) {
      var labs, s := StaleUnionWins(cfg);
    } else {
      BegunFrame(cfg);
      EffectiveAtFirst(cfg);
      assert !Current(cfg, Begun(cfg));
    }
  }

  /** On a validated strict-DNS cluster that is a count of the hostname seeds. */
  lemma ValidatedCurrentExactly(cfg: Setup)
    requires Validated(cfg)
    ensures AlwaysCurrent(cfg) <==> AtMostOneHost(cfg.seeds)
  {
    hide AlwaysCurrent;
    CurrentExactly(cfg);
    HostsExactly(cfg.seeds);
    ListingIsStatic(cfg.seeds);
  }

  // ----- Which configurations never check an address twice -----

  /** One loop drops an address while another still holds a union with it: the new check starts before the old one is
      cancelled. */
  lemma DoublingHappens(cfg: Setup) returns (labs: seq<Label>, s: Sys, x: Addr)
    requires cfg.healthCheck && |Loops(cfg)| >= 2
    ensures Reaches(cfg, labs, s) && Doubled(s, x)
  {
    hide Reaches, Effective, StaticSeeds, Loops, Doubled, Answer;
    var fixed, h, g := StaticSeeds(cfg.seeds), Loops(cfg)[0], Loops(cfg)[1];
    x := FreshAddr(InitialList(cfg) + fixed, h);
    labs, s := FirstCheck(cfg, x);
    var w := FreshAddr(fixed + {x}, g);
    var z := FreshAddr(fixed + {x}, h);
    var found := if h == g then {x} else {w};
    UnionOfTwo(cfg, h, g, {x}, found);
    labs, s := Extend(cfg, labs, s, Look(1, g, found));
    assert s.jobs[1].Computed? && x in s.jobs[1].union;
    assert s.resolved[h := {z}] == map[g := found][h := {z}];
    UnionOfTwo(cfg, g, h, found, {z});
    labs, s := Unregister(cfg, labs, s, x, {z});
    labs, s := Extend(cfg, labs, s, Apply(1));
    assert Stopping(s, x, 0) && x in s.jobs[1].toAdd;
    labs, s := Extend(cfg, labs, s, Begin(1, x));
    assert Stopping(s, x, 0) && x in s.cancel;
    DoubledExactly(cfg, labs, s, x);
  }

  /** The first loop finds `x` and settles. */
  lemma FirstCheck(cfg: Setup, x: Addr) returns (labs: seq<Label>, s: Sys)
    requires cfg.healthCheck && |Loops(cfg)| >= 2 && x !in InitialList(cfg) && Answer(Loops(cfg)[0], {x})
    ensures Reaches(cfg, labs, s) && |s.jobs| == |Loops(cfg)| && AllIdle(s)
    ensures s.listed == StaticSeeds(cfg.seeds) + {x} && s.resolved == map[Loops(cfg)[0] := {x}] && x in s.cancel
  {
    hide Reaches, Effective, StaticSeeds, Loops, Answer;
    BegunFrame(cfg);
    UnionOfOne(cfg, Loops(cfg)[0], {x});
    labs, s := Install(cfg, [], Begun(cfg), 0, {x}, StaticSeeds(cfg.seeds) + {x});
    labs, s := Settle(cfg, labs, s, 0);
  }

  /** All checks of an installed list are started; none that runs is touched. */
  lemma {:induction false} BeginAll(cfg: Setup, labs: seq<Label>, s: Sys, j: nat) returns (labs': seq<Label>, t: Sys)
    requires Reaches(cfg, labs, s) && j < |s.jobs| && s.jobs[j].Adjusting?
    ensures Reaches(cfg, labs', t) && t.jobs == s.jobs[j := Adjusting({}, s.jobs[j].toRemove)]
    ensures t.listed == s.listed && forall a :: a in s.cancel ==> a in t.cancel
    decreases s.jobs[j].toAdd
  {
    hide Reaches;
    labs', t := labs, s;
    if s.jobs[j].toAdd != {} {
      var a :| a in s.jobs[j].toAdd;
      labs', t := Extend(cfg, labs, s, Begin(j, a));
      labs', t := BeginAll(cfg, labs', t, j);
    }
  }

  /** The first loop loses `x` and stands before the call of its cancel function. */
  lemma Unregister(cfg: Setup, labs: seq<Label>, s: Sys, x: Addr, found: set<Addr>)
      returns (labs': seq<Label>, t: Sys)
    requires Reaches(cfg, labs, s) && |s.jobs| == |Loops(cfg)| >= 2 && s.jobs[0].Idle?
    requires Answer(Loops(cfg)[0], found) && x !in Effective(cfg, s.resolved[Loops(cfg)[0] := found])
    requires x in s.listed && x in s.cancel
    ensures Reaches(cfg, labs', t) && |t.jobs| == |s.jobs| && Stopping(t, x, 0) && t.jobs[1] == s.jobs[1]
    ensures x !in t.listed && x !in t.cancel
  {
    hide Reaches, Effective, Loops, Answer;
    labs', t := Install(cfg, labs, s, 0, found, Effective(cfg, s.resolved[Loops(cfg)[0] := found]));
    labs', t := BeginAll(cfg, labs', t, 0);
    CheckersAlways(cfg, labs', t);
    labs', t := Extend(cfg, labs', t, End(0, x));
  }

  /** While the only loop is about to cancel a check, nothing has replaced it in the table. */
  predicate Unreplaced(s: Sys) {
    forall k :: 0 <= k < |s.jobs| && s.jobs[k].Cancelling? && s.jobs[k].id < |s.checkers| ==>
      s.checkers[s.jobs[k].id].addr !in s.cancel
  }

  lemma {:induction false} OneLoopUnreplaced(cfg: Setup, labs: seq<Label>, s: Sys)
    requires |Loops(cfg)| <= 1 && Reaches(cfg, labs, s)
    ensures Unreplaced(s)
  {
    JobsAlways(cfg, labs, s);
    if labs == [] {
      BegunFrame(cfg);
    } else {
      var before := Exec(cfg, Begun(cfg), labs[..|labs| - 1]).value;
      OneLoopUnreplaced(cfg, labs[..|labs| - 1], before);
      CheckersAlways(cfg, labs[..|labs| - 1], before);
    }
  }

  lemma {:induction false} NoneRegistered(cfg: Setup, s: Sys, list: seq<Addr>)
    requires !cfg.healthCheck
    ensures RegisterAll(cfg, s, list) == s
  {
    if list != [] {
      NoneRegistered(cfg, s, list[..|list| - 1]);
    }
  }

  lemma {:induction false} NoneChecked(cfg: Setup, labs: seq<Label>, s: Sys)
    requires !cfg.healthCheck && Reaches(cfg, labs, s)
    ensures s.checkers == []
  {
    if labs == [] {
      NoneRegistered(cfg, Unchecked(cfg), Listing(cfg.seeds, cfg.strictDns));
    } else {
      NoneChecked(cfg, labs[..|labs| - 1], Exec(cfg, Begun(cfg), labs[..|labs| - 1]).value);
    }
  }

  ghost predicate NeverDoubled(cfg: Setup) {
    forall labs, s, a :: Reaches(cfg, labs, s) ==> !Doubled(s, a)
  }

  /** No address ever has two uncancelled checkers: exactly without health checks or with at most one hostname seed. */
  lemma NeverDoubledExactly(cfg: Setup)
    ensures NeverDoubled(cfg) <==> !cfg.healthCheck || |Loops(cfg)| <= 1
  {
    hide Loops;
    if !cfg.healthCheck {
      forall labs, s, a | Reaches(cfg, labs, s) ensures !Doubled(s, a) {
        NoneChecked(cfg, labs, s);
      }
    } else if |Loops(cfg)| <= 1 {
      forall labs, s, a | Reaches(cfg, labs, s) ensures !Doubled(s, a) {
        OneLoopUnreplaced(cfg, labs, s);
        JobsAlways(cfg, labs, s);
        DoubledExactly(cfg, labs, s, a);
      }
    } else {
      var labs, s, x := DoublingHappens(cfg);
    }
  }

  // ----- What the lookups of a run come to -----

  /** The successful lookups of a run, in order. */
  function Looks(labs: seq<Label>): (h: seq<Lookup>) {
    if labs == [] then []
    else
      var lab := labs[|labs| - 1];
      if lab.Look? then Looks(labs[..|labs| - 1]) + [Lookup(lab.seed, Some(lab.ips))] else Looks(labs[..|labs| - 1])
  }

  lemma LookStores(cfg: Setup, s: Sys, lab: Label, t: Sys)
    requires Step(cfg, s, lab) == Some(t)
    ensures t.resolved == if lab.Look? then s.resolved[lab.seed := lab.ips] else s.resolved
  {
    hide Effective, Answer, Loops;
  }

  lemma LatestSnoc(h: seq<Lookup>, seed: string, ips: set<Addr>)
    ensures Latest(h + [Lookup(seed, Some(ips))]) == Latest(h)[seed := ips]
  {
    assert (h + [Lookup(seed, Some(ips))])[..|h|] == h;
  }

  lemma {:induction false} ResolvedIsLatest(cfg: Setup, labs: seq<Label>, s: Sys)
    requires Reaches(cfg, labs, s)
    ensures s.resolved == Latest(Looks(labs))
  {
    hide Step, Latest, Begun;
    if labs == [] {
      BegunFrame(cfg);
      LatestNothing();
    } else {
      var n := |labs| - 1;
      var before := Exec(cfg, Begun(cfg), labs[..n]).value;
      ResolvedIsLatest(cfg, labs[..n], before);
      LookStores(cfg, before, labs[n], s);
      if labs[n].Look? {
        LatestSnoc(Looks(labs[..n]), labs[n].seed, labs[n].ips);
      }
    }
  }

  lemma LatestNothing()
    ensures Latest([]) == map[]
  {
  }

  /** The union of static seeds and latest results after the first `k` steps. */
  function UnionAfter(cfg: Setup, labs: seq<Label>, k: nat): (u: set<Addr>)
    requires k <= |labs|
  {
    Effective(cfg, Latest(Looks(labs[..k])))
  }

  /** Every union ever computed was current at its time. */
  lemma {:induction false} UnionsWereCurrent(cfg: Setup, labs: seq<Label>, s: Sys)
    requires Reaches(cfg, labs, s)
    ensures forall u :: u in s.unions ==> exists k :: 0 <= k <= |labs| && u == UnionAfter(cfg, labs, k)
  {
    assert labs[..|labs|] == labs;
    if labs == [] {
      RegisterAllFrame(cfg, Unchecked(cfg), Listing(cfg.seeds, cfg.strictDns));
    } else {
      var n := |labs| - 1;
      var before := Exec(cfg, Begun(cfg), labs[..n]).value;
      UnionsWereCurrent(cfg, labs[..n], before);
      ResolvedIsLatest(cfg, labs, s);
      hide Effective, Looks;
      forall u | u in s.unions ensures exists k :: 0 <= k <= |labs| && u == UnionAfter(cfg, labs, k) {
        if u in before.unions {
          var k :| 0 <= k <= n && u == UnionAfter(cfg, labs[..n], k);
          assert labs[..n][..k] == labs[..k];
          assert u == UnionAfter(cfg, labs, k);
        } else {
          assert u == UnionAfter(cfg, labs, |labs|);
        }
      }
    }
  }

  /** However refreshes interleave, the list is the first one or what was current at some moment of the run. */
  lemma ListWasCurrent(cfg: Setup, labs: seq<Label>, s: Sys)
    requires Reaches(cfg, labs, s)
    ensures s.listed == InitialList(cfg) || exists k :: 0 <= k <= |labs| && s.listed == UnionAfter(cfg, labs, k)
  {
    ListsAlways(cfg, labs, s);
    UnionsWereCurrent(cfg, labs, s);
  }

  /** An address belongs to that union exactly when it is a static seed or the newest lookup of some seed found it. */
  lemma UnionExactly(cfg: Setup, labs: seq<Label>, k: nat, a: Addr)
    requires k <= |labs|
    ensures a in UnionAfter(cfg, labs, k) <==> Known(cfg.seeds, Looks(labs[..k]), a)
  {
    hide Effective, Known;
    EffectiveExactly(cfg, Looks(labs[..k]), a);
  }

  // ----- What never stops a refresh, and what it never takes away -----

  /** An idle loop takes any answer to its lookup, and what it computes can be applied at once. */
  lemma LooksNeverBlock(cfg: Setup, labs: seq<Label>, s: Sys, j: nat, ips: set<Addr>)
    requires Reaches(cfg, labs, s) && j < |Loops(cfg)|
    requires ips != {} && forall a :: a in ips ==> PortPart(a) == PortPart(Loops(cfg)[j])
    ensures j < |s.jobs|
    ensures s.jobs[j].Idle? ==> Step(cfg, s, Look(j, Loops(cfg)[j], ips)).Some?
    ensures s.jobs[j].Computed? ==> Step(cfg, s, Apply(j)).Some?
  {
    JobsAlways(cfg, labs, s);
  }

  /** No step takes an entry away or brings a cancelled check back. */
  lemma NothingIsForgotten(cfg: Setup, s: Sys, lab: Label, t: Sys)
    requires Step(cfg, s, lab) == Some(t)
    ensures s.entries <= t.entries && |s.checkers| <= |t.checkers|
    ensures forall id :: 0 <= id < |s.checkers| ==>
              t.checkers[id].addr == s.checkers[id].addr && (s.checkers[id].cancelled ==> t.checkers[id].cancelled)
  {
  }

  // ----- The refresh loops and the first checks -----

  /** There is at most one loop exactly when no two seeds are hostnames. */
  lemma {:induction false} HostsExactly(seeds: seq<Seed>)
    ensures |Hosts(seeds)| <= 1 <==> AtMostOneHost(seeds)
    ensures Hosts(seeds) == [] <==> NoHost(seeds)
    ensures forall h :: h in Hosts(seeds) <==> Host(h) in seeds
  {
    if seeds != [] {
      var n := |seeds| - 1;
      HostsExactly(seeds[..n]);
      HostsSplit(seeds);
      hide AtMostOneHost, NoHost;
      forall h ensures h in Hosts(seeds) <==> Host(h) in seeds {
        assert Host(h) in seeds <==> Host(h) in seeds[..n] || seeds[n] == Host(h);
      }
    }
  }

  /** The two quantified conditions, one seed at a time. */
  lemma HostsSplit(seeds: seq<Seed>)
    requires seeds != []
    ensures var n := |seeds| - 1;
            && (AtMostOneHost(seeds) <==>
                AtMostOneHost(seeds[..n]) && (seeds[n].Host? ==> NoHost(seeds[..n])))
            && (NoHost(seeds) <==> NoHost(seeds[..n]) && !seeds[n].Host?)
            && seeds == seeds[..n] + [seeds[n]]
  {
    var n := |seeds| - 1;
    var g := seeds[..n];
    if NoHost(g) && !seeds[n].Host? {
      forall i | 0 <= i < |seeds| ensures !seeds[i].Host? {
        assert i < n ==> g[i] == seeds[i];
      }
    }
    if AtMostOneHost(g) && (seeds[n].Host? ==> NoHost(g)) {
      forall i, j | 0 <= i < |seeds| && 0 <= j < |seeds| && seeds[i].Host? && seeds[j].Host? ensures i == j {
        assert i < n ==> g[i] == seeds[i];
        assert j < n ==> g[j] == seeds[j];
      }
    }
    if AtMostOneHost(seeds) && seeds[n].Host? {
      forall i | 0 <= i < n ensures !g[i].Host? {
        assert g[i] == seeds[i];
      }
    }
  }

  predicate AtMostOneHost(seeds: seq<Seed>) {
    forall i, j :: 0 <= i < |seeds| && 0 <= j < |seeds| && seeds[i].Host? && seeds[j].Host? ==> i == j
  }

  predicate NoHost(seeds: seq<Seed>) {
    forall i :: 0 <= i < |seeds| ==> !seeds[i].Host?
  }

  lemma {:induction false} RegisterAllExactly(cfg: Setup, s: Sys, list: seq<Addr>)
    requires cfg.healthCheck
    ensures RegisterAll(cfg, s, list).cancel.Keys == s.cancel.Keys + SetOf(list)
  {
    if list != [] {
      var n := |list| - 1;
      RegisterAllExactly(cfg, s, list[..n]);
      assert list == list[..n] + [list[n]];
      assert SetOf(list) == SetOf(list[..n]) + {list[n]};
    }
  }

  /** At first every listed endpoint has a check registered, when they are configured, and nothing else has. */
  lemma BegunChecks(cfg: Setup)
    ensures Begun(cfg).cancel.Keys == if cfg.healthCheck then Begun(cfg).listed else {}
  {
    var list := Listing(cfg.seeds, cfg.strictDns);
    RegisterAllFrame(cfg, Unchecked(cfg), list);
    if cfg.healthCheck {
      RegisterAllExactly(cfg, Unchecked(cfg), list);
    } else {
      NoneRegistered(cfg, Unchecked(cfg), list);
    }
  }

  /** The table of a cluster with at most one loop: the list, but for what the loop has still to start and to stop. */
  function Expected(cfg: Setup, s: Sys): (addrs: set<Addr>) {
    if !cfg.healthCheck then {}
    else if s.jobs == [] then s.listed
    else
      match s.jobs[0]
      case Idle => s.listed
      case Computed(_) => s.listed
      case Adjusting(toAdd, toRemove) => s.listed - toAdd + toRemove
      case Cancelling(_, toRemove) => s.listed + toRemove
  }

  predicate Matching(cfg: Setup, s: Sys) {
    && |s.jobs| <= 1 && s.cancel.Keys == Expected(cfg, s)
    && (s.jobs != [] && s.jobs[0].Adjusting? ==> s.jobs[0].toAdd <= s.listed && s.jobs[0].toRemove !! s.listed)
    && (s.jobs != [] && s.jobs[0].Cancelling? ==> s.jobs[0].toRemove !! s.listed)
  }

  lemma MatchingStep(cfg: Setup, s: Sys, lab: Label, t: Sys)
    requires Matching(cfg, s) && Step(cfg, s, lab) == Some(t)
    ensures Matching(cfg, t)
  {
    hide Effective, Answer, Loops;
  }

  lemma {:induction false} AlwaysMatching(cfg: Setup, labs: seq<Label>, s: Sys)
    requires |Loops(cfg)| <= 1 && Reaches(cfg, labs, s)
    ensures Matching(cfg, s)
  {
    if labs == [] {
      BegunFrame(cfg);
      BegunChecks(cfg);
    } else {
      hide Matching, Step;
      var before := Exec(cfg, Begun(cfg), labs[..|labs| - 1]).value;
      AlwaysMatching(cfg, labs[..|labs| - 1], before);
      MatchingStep(cfg, before, labs[|labs| - 1], s);
    }
  }

  /** With at most one hostname seed the checks of an idle cluster match its list one for one, when configured. */
  lemma ChecksMatchList(cfg: Setup, labs: seq<Label>, s: Sys)
    requires |Loops(cfg)| <= 1 && Reaches(cfg, labs, s) && AllIdle(s)
    ensures s.cancel.Keys == if cfg.healthCheck then s.listed else {}
    ensures forall id: nat :: Uncancelled(s, id) <==> Registered(s, id)
  {
    AlwaysMatching(cfg, labs, s);
    CheckersAlways(cfg, labs, s);
  }
}
