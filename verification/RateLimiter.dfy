/** The rate-limit filter's decision (internal/httpcm/ratelimit.go): one shared bucket, or one a client address. */
module RateLimiter {
  import opened Prelude
  import opened TokenBucket
  import opened Http

  datatype Spec = Spec(rps: int, burst: int, scope: string)

  /** A limited request: the client key, and the two clock readings taken while the lock is held. */
  datatype Req = Req(ip: string, created: real, now: real)

  /** The limiter's value. */
  datatype Limits = Limits(perClient: bool, cap: real, rate: real, shared: State, clients: map<string, State>)

  function BucketFor(s: Limits, r: Req): (b: State) {
    if !s.perClient then s.shared
    else if r.ip in s.clients then s.clients[r.ip]
    else Fresh(s.cap, s.rate, r.created)
  }

  function Decide(s: Limits, r: Req): (d: (Limits, bool)) {
    var (b, ok) := Allow(BucketFor(s, r), r.now);
    (if s.perClient then s.(clients := s.clients[r.ip := b]) else s.(shared := b), ok)
  }

  function Burst(spec: Spec): (n: int) {
    if spec.burst <= 0 then spec.rps else spec.burst
  }

  /** A limiter as NewRateLimiter builds it at time `now`. */
  function Configured(spec: Spec, now: real): (s: Limits) {
    var cap, rate := Burst(spec) as real, spec.rps as real;
    Limits(Http.Lower(spec.scope) == "ip", cap, rate, Fresh(cap, rate, now), map[])
  }

  class Limiter {
    const perClient: bool
    const cap: real
    const rate: real
    const shared: Bucket
    var clients: map<string, Bucket>

    ghost function Buckets(): (bs: set<Bucket>)
      reads this
    {
      {shared} + clients.Values
    }

    /** No two keys share a bucket. */
    ghost predicate Valid()
      reads this
    {
      && (forall k :: k in clients ==> clients[k] != shared)
      && (forall j, k :: j in clients && k in clients && clients[j] == clients[k] ==> j == k)
    }

    ghost function View(): (v: Limits)
      reads this, Buckets()
    {
      Limits(perClient, cap, rate, shared.View(), map k | k in clients :: clients[k].View())
    }

    constructor (spec: Spec, now: real)
      ensures Valid() && View() == Configured(spec, now) && fresh(Buckets())
    {
      var c, r := Burst(spec) as real, spec.rps as real;
      perClient, cap, rate, clients := Http.Lower(spec.scope) == "ip", c, r, map[];
      shared := new Bucket(c, r, now);
    }

    /** The bucket of a request; a client's first request creates it. */
    method GetBucket(r: Req) returns (b: Bucket)
      requires Valid()
      modifies this`clients
      ensures Valid() && b in Buckets() && b.View() == old(BucketFor(View(), r))
      ensures Buckets() == old(Buckets()) + {b} && (b in old(Buckets()) || fresh(b))
      ensures clients == if perClient then old(clients)[r.ip := b] else old(clients)
      ensures !perClient ==> b == shared
    {
      if !perClient {
        return shared;
      }
      if r.ip in clients {
        b := clients[r.ip];
        assert clients[r.ip := b] == clients;
        return;
      }
      b := new Bucket(cap, rate, r.created);
      clients := clients[r.ip := b];
      assert clients[r.ip] == b;
      forall x | x in old(clients).Values ensures x in clients.Values {
        var k :| k in old(clients) && old(clients)[k] == x;
        assert clients[k] == x;
      }
    }

    /** What OnRequest does under the lock. */
    method Admit(r: Req) returns (ok: bool)
      requires Valid()
      modifies this`clients, Buckets()
      ensures Valid() && fresh(Buckets() - old(Buckets()))
      ensures View() == Decide(old(View()), r).0 && ok == Decide(old(View()), r).1
    {
      hide Allow;
      var b := GetBucket(r);
      assert perClient ==> clients[r.ip] == b && forall k :: k in clients && k != r.ip ==> clients[k] != b;
      ok := b.Take(r.now);
      if perClient {
        assert forall k :: k in clients && k != r.ip ==> k in old(clients) && clients[k].View() == old(clients[k].View());
        assert View().clients == old(View().clients)[r.ip := b.View()];
      } else {
        assert View().clients == old(View().clients);
      }
    }
  }

  /** No limiter without a positive rate. */
  method NewRateLimiter(spec: Option<Spec>, now: real) returns (rl: Limiter?)
    ensures rl == null <==> spec.None? || spec.value.rps <= 0
    ensures rl != null ==>
              && fresh(rl) && fresh(rl.Buckets()) && rl.Valid()
              && rl.View() == Configured(spec.value, now) && rl.cap >= 1.0 && rl.rate > 0.0
  {
    if spec.None? || spec.value.rps <= 0 {
      return null;
    }
    rl := new Limiter(spec.value, now);
  }

  /** The filter: without a limiter everything passes, and what is denied is answered with 429. */
  method OnRequest(rl: Limiter?, r: Req, rc: RequestCtx)
    requires rl != null ==> rl.Valid()
    modifies if rl != null then {rl as object, rc} + rl.Buckets() else {rc}
    ensures rl != null ==>
              rl.Valid() && fresh(rl.Buckets() - old(rl.Buckets())) && rl.View() == Decide(old(rl.View()), r).0
    ensures var denied := rl != null && !Decide(old(rl.View()), r).1;
            && rc.responded == (old(rc.responded) || denied)
            && rc.statusCode == if denied then 429 else old(rc.statusCode)
  {
    if rl == null {
      return;
    }
    hide Allow;
    var ok := rl.Admit(r);
    if !ok {
      rc.statusCode, rc.responded := 429, true;
    }
  }

  // ----- Isolation -----

  /** A run of requests and their verdicts. */
  function Serve(s: Limits, reqs: seq<Req>): (r: (Limits, seq<bool>))
    ensures |r.1| == |reqs|
  {
    if reqs == [] then (s, [])
    else
      var (before, verdicts) := Serve(s, reqs[..|reqs| - 1]);
      var (after, ok) := Decide(before, reqs[|reqs| - 1]);
      (after, verdicts + [ok])
  }

  /** One client's requests, in order. */
  function Own(reqs: seq<Req>, ip: string): (own: seq<Req>) {
    if reqs == [] then []
    else
      var rest := Own(reqs[..|reqs| - 1], ip);
      if reqs[|reqs| - 1].ip == ip then rest + [reqs[|reqs| - 1]] else rest
  }

  /** The verdicts on one client's requests, in order. */
  function OwnVerdicts(reqs: seq<Req>, verdicts: seq<bool>, ip: string): (own: seq<bool>)
    requires |reqs| == |verdicts|
  {
    if reqs == [] then []
    else
      var n := |reqs| - 1;
      var rest := OwnVerdicts(reqs[..n], verdicts[..n], ip);
      if reqs[n].ip == ip then rest + [verdicts[n]] else rest
  }

  function CallTimes(reqs: seq<Req>): (t: seq<real>)
    ensures |t| == |reqs|
  {
    seq(|reqs|, i requires 0 <= i < |reqs| => reqs[i].now)
  }

  /** The state of a bucket of one's own, opened at the first request. */
  function LoneBucket(cap: real, rate: real, own: seq<Req>): (b: State)
    requires own != []
  {
    Replay(Fresh(cap, rate, own[0].created), CallTimes(own)).0
  }

  function LoneVerdicts(cap: real, rate: real, own: seq<Req>): (v: seq<bool>) {
    if own == [] then [] else Verdicts(cap, rate, own[0].created, CallTimes(own))
  }

  lemma LoneSnoc(cap: real, rate: real, own: seq<Req>, r: Req)
    ensures var b := if own == [] then Fresh(cap, rate, r.created) else LoneBucket(cap, rate, own);
            && LoneBucket(cap, rate, own + [r]) == Allow(b, r.now).0
            && LoneVerdicts(cap, rate, own + [r]) == LoneVerdicts(cap, rate, own) + [Allow(b, r.now).1]
  {
    hide Tokens, Allow;
    var times := CallTimes(own + [r]);
    assert times[..|own|] == CallTimes(own) && times[|own|] == r.now;
    var b := Fresh(cap, rate, (own + [r])[0].created);
    assert own == [] ==> Replay(b, times[..0]) == (b, []);
  }

  /** Per client address, a run of the limiter is a run of a bucket that never sees anyone else. */
  lemma {:induction false} ClientsAreIsolated(s: Limits, reqs: seq<Req>, ip: string)
    requires s.perClient && s.clients == map[]
    ensures var (after, verdicts) := Serve(s, reqs);
            var own := Own(reqs, ip);
            && after.perClient && after.cap == s.cap && after.rate == s.rate
            && OwnVerdicts(reqs, verdicts, ip) == LoneVerdicts(s.cap, s.rate, own)
            && (ip in after.clients <==> own != [])
            && (own != [] ==> after.clients[ip] == LoneBucket(s.cap, s.rate, own))
  {
    if reqs != [] {
      hide Tokens, Allow, LoneBucket, LoneVerdicts;
      var n := |reqs| - 1;
      ClientsAreIsolated(s, reqs[..n], ip);
      assert Serve(s, reqs).1[..n] == Serve(s, reqs[..n]).1;
      LoneSnoc(s.cap, s.rate, Own(reqs[..n], ip), reqs[n]);
    } else {
      assert LoneVerdicts(s.cap, s.rate, []) == [];
    }
  }

  /** So every verdict follows from the client's own history alone. */
  lemma EachClientFollowsItsHistory(spec: Spec, built: real, reqs: seq<Req>, r: Req)
    requires spec.rps > 0 && Http.Lower(spec.scope) == "ip"
    ensures var cap, rate := (if spec.burst > 0 then spec.burst else spec.rps) as real, spec.rps as real;
            var own := Own(reqs, r.ip) + [r];
            Decide(Serve(Configured(spec, built), reqs).0, r).1 <==>
            HistoryAdmits(cap, rate, own[0].created, CallTimes(own), LoneVerdicts(cap, rate, Own(reqs, r.ip)))
  {
    hide Tokens, Room;
    var s := Configured(spec, built);
    var own := Own(reqs, r.ip);
    ClientsAreIsolated(s, reqs, r.ip);
    assert CallTimes(own + [r]) == CallTimes(own) + [r.now];
    AllowRefinesHistory(s.cap, s.rate, (own + [r])[0].created, CallTimes(own), r.now);
  }

  // ----- The global scope -----

  /** Outside "ip" scope every request draws on one bucket, opened with the limiter. */
  lemma {:induction false} OneBucketForAll(s: Limits, origin: real, reqs: seq<Req>)
    requires !s.perClient && s.shared == Fresh(s.cap, s.rate, origin)
    ensures var (after, verdicts) := Serve(s, reqs);
            && verdicts == Verdicts(s.cap, s.rate, origin, CallTimes(reqs))
            && after == s.(shared := Replay(s.shared, CallTimes(reqs)).0)
  {
    hide Tokens, Allow;
    var times := CallTimes(reqs);
    if reqs == [] {
      assert times == [];
    } else {
      var n := |reqs| - 1;
      OneBucketForAll(s, origin, reqs[..n]);
      assert times[..n] == CallTimes(reqs[..n]) && times[n] == reqs[n].now;
    }
  }

  /** So a request is admitted exactly when the history of all requests leaves room, at the configured rate and burst. */
  lemma AllFollowOneHistory(spec: Spec, built: real, reqs: seq<Req>, r: Req)
    requires spec.rps > 0 && Http.Lower(spec.scope) != "ip"
    ensures var cap, rate := (if spec.burst > 0 then spec.burst else spec.rps) as real, spec.rps as real;
            Decide(Serve(Configured(spec, built), reqs).0, r).1 <==>
            HistoryAdmits(cap, rate, built, CallTimes(reqs + [r]), Verdicts(cap, rate, built, CallTimes(reqs)))
  {
    hide Tokens, Room;
    var s := Configured(spec, built);
    OneBucketForAll(s, built, reqs);
    assert CallTimes(reqs + [r]) == CallTimes(reqs) + [r.now];
    AllowRefinesHistory(s.cap, s.rate, built, CallTimes(reqs), r.now);
  }
}
