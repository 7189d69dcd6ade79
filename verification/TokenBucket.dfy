/** The token bucket (internal/httpcm/ratelimit.go). Times are seconds; floats are reals. */
module TokenBucket {

  datatype State = State(cap: real, rate: real, tok: real, last: real)

  /** A bucket starts full. */
  function Fresh(cap: real, rate: real, now: real): (b: State) {
    State(cap, rate, cap, now)
  }

  /** Tokens that flow in between two instants. */
  function Tokens(rate: real, since: real, now: real): (x: real) {
    (now - since) * rate
  }

  function Refill(b: State, now: real): (after: State) {
    if now > b.last then
      var tok := b.tok + Tokens(b.rate, b.last, now);
      b.(tok := if tok > b.cap then b.cap else tok, last := now)
    else b
  }

  function Spend(b: State): (after: State) {
    if b.tok >= 1.0 then b.(tok := b.tok - 1.0) else b
  }

  /** State and verdict after one call. */
  function Allow(b: State, now: real): (r: (State, bool)) {
    var r := Refill(b, now);
    (Spend(r), r.tok >= 1.0)
  }

  /** The bucket as the source keeps it: two fields updated in place. */
  class Bucket {
    const cap: real
    const rate: real
    var tok: real
    var last: real

    function View(): (v: State)
      reads this
    {
      State(cap, rate, tok, last)
    }

    constructor (cap: real, rate: real, now: real)
      ensures View() == Fresh(cap, rate, now)
    {
      this.cap, this.rate, tok, last := cap, rate, cap, now;
    }

    method Take(now: real) returns (ok: bool)
      modifies this
      ensures View() == Allow(old(View()), now).0 && ok == Allow(old(View()), now).1
    {
      if now > last {
        tok := tok + (now - last) * rate;
        if tok > cap {
          tok := cap;
        }
        last := now;
      }
      if tok >= 1.0 {
        tok := tok - 1.0;
        return true;
      }
      return false;
    }
  }

  // ----- The history rule -----

  /** The bucket after a list of calls, and their verdicts. */
  function Replay(b: State, calls: seq<real>): (r: (State, seq<bool>))
    ensures |r.1| == |calls|
  {
    if calls == [] then (b, [])
    else
      var (before, verdicts) := Replay(b, calls[..|calls| - 1]);
      var (after, ok) := Allow(before, calls[|calls| - 1]);
      (after, verdicts + [ok])
  }

  /** The clock as the bucket believes it at call `j`: it never runs backward. */
  function Stamp(origin: real, calls: seq<real>, j: nat): (t: real)
    requires j < |calls|
  {
    var before := if j == 0 then origin else Stamp(origin, calls, j - 1);
    if calls[j] > before then calls[j] else before
  }

  function Grants(verdicts: seq<bool>): (n: nat) {
    if verdicts == [] then 0
    else Grants(verdicts[..|verdicts| - 1]) + if verdicts[|verdicts| - 1] then 1 else 0
  }

  /** What the window that origin at call `j` still allows at the last call of `calls`, whose verdict is not in yet. */
  function Room(cap: real, rate: real, origin: real, calls: seq<real>, verdicts: seq<bool>, j: nat): (x: real)
    requires |calls| == |verdicts| + 1 && j < |calls|
  {
    cap + Tokens(rate, Stamp(origin, calls, j), Stamp(origin, calls, |verdicts|)) - Grants(verdicts[j..]) as real
  }

  /** What flows in between two instants, in numbers. */
  lemma InflowIs(rate: real, since: real, now: real)
    ensures Tokens(rate, since, now) == (now - since) * rate
  {
  }

  /** The full-history rule: every window that ends now has room for one more. */
  predicate HistoryAdmits(cap: real, rate: real, origin: real, calls: seq<real>, verdicts: seq<bool>)
    requires |calls| == |verdicts| + 1
  {
    forall j :: 0 <= j < |calls| ==> Room(cap, rate, origin, calls, verdicts, j) >= 1.0
  }

  /** The verdicts a fresh bucket gives. */
  function Verdicts(cap: real, rate: real, origin: real, calls: seq<real>): (v: seq<bool>)
    ensures |v| == |calls|
  {
    Replay(Fresh(cap, rate, origin), calls).1
  }

  // ----- The bucket against its history -----

  lemma TokensAdd(rate: real, x: real, y: real, z: real)
    ensures Tokens(rate, x, z) == Tokens(rate, x, y) + Tokens(rate, y, z)
  {
  }

  lemma TokensSign(rate: real, x: real, y: real)
    requires rate > 0.0
    ensures Tokens(rate, x, x) == 0.0
    ensures y > x ==> Tokens(rate, x, y) > 0.0
  {
  }

  lemma {:induction false} StampPrefix(origin: real, calls: seq<real>, now: real, j: nat)
    requires j < |calls|
    ensures Stamp(origin, calls + [now], j) == Stamp(origin, calls, j)
  {
    if j > 0 {
      StampPrefix(origin, calls, now, j - 1);
    }
  }

  /** The bucket's clock is the latest instant seen so far. */
  lemma {:induction false} StampIsLatest(origin: real, calls: seq<real>, j: nat)
    requires j < |calls|
    ensures Stamp(origin, calls, j) >= origin && forall i :: 0 <= i <= j ==> Stamp(origin, calls, j) >= calls[i]
    ensures Stamp(origin, calls, j) == origin || exists i :: 0 <= i <= j && Stamp(origin, calls, j) == calls[i]
  {
    if j > 0 {
      StampIsLatest(origin, calls, j - 1);
    }
  }

  /** Grants counts every admitted call and nothing else. */
  lemma {:induction false} GrantsExactly(verdicts: seq<bool>)
    ensures Grants(verdicts) == |set i | 0 <= i < |verdicts| && verdicts[i]|
  {
    var n := |verdicts| - 1;
    var all := set i | 0 <= i < |verdicts| && verdicts[i];
    if verdicts == [] {
      assert all == {};
    } else {
      GrantsExactly(verdicts[..n]);
      var rest := set i | 0 <= i < n && verdicts[..n][i];
      assert all == rest + if verdicts[n] then {n} else {};
    }
  }

  function One(ok: bool): (x: real) {
    if ok then 1.0 else 0.0
  }

  lemma GrantsSnoc(verdicts: seq<bool>, ok: bool, j: nat)
    requires j <= |verdicts|
    ensures Grants((verdicts + [ok])[j..]) as real == Grants(verdicts[j..]) as real + One(ok)
  {
    assert (verdicts + [ok])[j..] == verdicts[j..] + [ok];
    assert (verdicts[j..] + [ok])[..|verdicts| - j] == verdicts[j..];
  }

  /** One more call shifts every open window alike: by the tokens that flow in and the token that is spent. */
  lemma RoomShifts(cap: real, rate: real, origin: real, calls: seq<real>, verdicts: seq<bool>, ok: bool, now: real, j: nat)
    requires |calls| == |verdicts| + 1 && j < |calls|
    ensures Room(cap, rate, origin, calls + [now], verdicts + [ok], j) ==
            Room(cap, rate, origin, calls, verdicts, j) - One(ok)
            + Tokens(rate, Stamp(origin, calls, |verdicts|), Stamp(origin, calls + [now], |calls|))
  {
    hide Tokens;
    StampPrefix(origin, calls, now, j);
    GrantsSnoc(verdicts, ok, j);
    TokensAdd(rate, Stamp(origin, calls, j), Stamp(origin, calls, |verdicts|), Stamp(origin, calls + [now], |calls|));
  }

  /** After the refill, `tok` is the least room over all windows that opened at an earlier call or open now. */
  lemma {:induction false} LevelIsTightestWindow(cap: real, rate: real, origin: real, calls: seq<real>, now: real)
      returns (w: nat)
    requires cap >= 1.0 && rate > 0.0
    ensures var b := Refill(Replay(Fresh(cap, rate, origin), calls).0, now);
            var verdicts := Verdicts(cap, rate, origin, calls);
            && b.cap == cap && b.rate == rate && 0.0 <= b.tok <= cap
            && b.last == Stamp(origin, calls + [now], |calls|)
            && (forall j :: 0 <= j <= |calls| ==> b.tok <= Room(cap, rate, origin, calls + [now], verdicts, j))
            && w <= |calls| && b.tok == Room(cap, rate, origin, calls + [now], verdicts, w)
  {
    hide Tokens;
    if calls == [] {
      w := 0;
      TokensSign(rate, origin, now);
      TokensSign(rate, now, now);
    } else {
      var n := |calls| - 1;
      var prior, t := calls[..n], calls[n];
      assert prior + [t] == calls;
      w := LevelIsTightestWindow(cap, rate, origin, prior, t);
      var (before, verdicts) := Replay(Fresh(cap, rate, origin), prior);
      var (b, ok) := Allow(before, t);
      StampPrefix(origin, calls, now, n);
      TokensSign(rate, b.last, now);
      forall j | 0 <= j <= n
        ensures Room(cap, rate, origin, calls + [now], verdicts + [ok], j) ==
                Room(cap, rate, origin, calls, verdicts, j) - One(ok)
                + Tokens(rate, b.last, Stamp(origin, calls + [now], |calls|))
      {
        RoomShifts(cap, rate, origin, calls, verdicts, ok, now, j);
      }
      TokensSign(rate, Stamp(origin, calls + [now], |calls|), now);
      assert Room(cap, rate, origin, calls + [now], verdicts + [ok], |calls|) == cap;
      if Refill(b, now).tok == cap {
        w := |calls|;
      }
    }
  }

  /** A call is admitted exactly when the full history leaves room in every window. */
  lemma AllowRefinesHistory(cap: real, rate: real, origin: real, calls: seq<real>, now: real)
    requires cap >= 1.0 && rate > 0.0
    ensures Allow(Replay(Fresh(cap, rate, origin), calls).0, now).1 <==>
            HistoryAdmits(cap, rate, origin, calls + [now], Verdicts(cap, rate, origin, calls))
  {
    hide Tokens;
    var w := LevelIsTightestWindow(cap, rate, origin, calls, now);
  }

  /** No window ever admits more than its burst and its inflow, whatever the clock does. */
  lemma {:induction false} WindowsNeverOverfill(cap: real, rate: real, origin: real, calls: seq<real>, i: nat, j: nat)
    requires cap >= 1.0 && rate > 0.0 && i <= j < |calls|
    ensures Grants(Verdicts(cap, rate, origin, calls)[i..j + 1]) as real
            <= cap + Tokens(rate, Stamp(origin, calls, i), Stamp(origin, calls, j))
    decreases |calls|
  {
    hide Tokens;
    var n := |calls| - 1;
    var prior, now := calls[..n], calls[n];
    assert prior + [now] == calls;
    var (b, before) := Replay(Fresh(cap, rate, origin), prior);
    var verdicts := Verdicts(cap, rate, origin, calls);
    assert verdicts == before + [Allow(b, now).1];
    if j < n {
      WindowsNeverOverfill(cap, rate, origin, prior, i, j);
      StampPrefix(origin, prior, now, i);
      StampPrefix(origin, prior, now, j);
      assert verdicts[i..j + 1] == before[i..j + 1];
    } else {
      var w := LevelIsTightestWindow(cap, rate, origin, prior, now);
      assert Refill(b, now).tok <= Room(cap, rate, origin, prior + [now], before, i);
      assert verdicts[i..j + 1] == (before + [Allow(b, now).1])[i..];
      GrantsSnoc(before, Allow(b, now).1, i);
    }
  }
}
