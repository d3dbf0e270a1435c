/** Booking estimates and adjustments in the shared store, and what keeps the estimates admitted in any
    minute within a cap and what was adjusted downward in it. */
module StoreVelocity {
  import opened WindowLog
  import opened SharedSpec
  import opened SameMinute
  import opened Keys
  import V = VelocityBound

  // ---- what the store books --------------------------------------------------------------------------------------

  /** The log of k has gained at least amount at sec, if here. */
  ghost predicate Gained(s: Shared, s': Shared, d: Dim, k: string, here: bool, sec: int, amount: real) {
    forall lo, hi {:trigger Signed(LogAt(s', d, k), lo, hi)} ::
      Signed(LogAt(s', d, k), lo, hi) >= Signed(LogAt(s, d, k), lo, hi) + if here && lo <= sec <= hi then amount else 0.0
  }

  lemma AppendedGains(s: Shared, s': Shared, d: Dim, k: string, booked: bool, here: bool, sec: int, a: real)
    requires LogAt(s', d, k) == Appended(LogAt(s, d, k), booked, sec, a) && (booked ==> here) && (here && !booked ==> a == 0.0)
    ensures Gained(s, s', d, k, here, sec, a)
  {
    hide LogAt, Signed;
    forall lo, hi {:trigger Signed(LogAt(s', d, k), lo, hi)}
      ensures Signed(LogAt(s', d, k), lo, hi) >= Signed(LogAt(s, d, k), lo, hi) + if here && lo <= sec <= hi then a else 0.0
    {
      SignedAppend(LogAt(s, d, k), Entry(sec, a), lo, hi);
    }
  }

  lemma ReserveOneGains(s: Shared, c: Cap, usd: real, tok: int, id: string, now: int, ttl: int, k: string, d: Dim)
    ensures Gained(s, SharedSpec.ReserveOne(s, c, usd, tok, id, now, ttl), d, k, c.key == k && CapIn(c, d) > 0.0, now, V.Amount(usd, tok, d))
  {
    hide Gained;
    var here := c.key == k && CapIn(c, d) > 0.0;
    AppendedGains(s, SharedSpec.ReserveOne(s, c, usd, tok, id, now, ttl), d, k, here, here, now, V.Amount(usd, tok, d));
  }

  /** A chain may name k more than once. */
  lemma {:induction false} ReserveAllGains(s: Shared, caps: seq<Cap>, usd: real, tok: int, id: string, now: int, ttl: int, k: string, d: Dim)
    requires usd >= 0.0 && tok >= 0
    ensures Gained(s, SharedSpec.ReserveAll(s, caps, usd, tok, id, now, ttl), d, k, Bounds(caps, k, d), now, V.Amount(usd, tok, d))
    decreases |caps|
  {
    if caps != [] {
      hide Gained, SharedSpec.ReserveOne, CapIn;
      var s1 := SharedSpec.ReserveOne(s, caps[0], usd, tok, id, now, ttl);
      ReserveOneGains(s, caps[0], usd, tok, id, now, ttl, k, d);
      ReserveAllGains(s1, caps[1..], usd, tok, id, now, ttl, k, d);
      assert forall x :: x in caps <==> x == caps[0] || x in caps[1..];
      GainsAdd(s, s1, SharedSpec.ReserveAll(s, caps, usd, tok, id, now, ttl), d, k, caps[0].key == k && CapIn(caps[0], d) > 0.0,
               Bounds(caps[1..], k, d), Bounds(caps, k, d), now, V.Amount(usd, tok, d));
    } else {
      assert SharedSpec.ReserveAll(s, caps, usd, tok, id, now, ttl) == s;
    }
  }

  lemma GainsAdd(s: Shared, s1: Shared, s2: Shared, d: Dim, k: string, first: bool, rest: bool, here: bool, now: int, a: real)
    requires Gained(s, s1, d, k, first, now, a) && Gained(s1, s2, d, k, rest, now, a)
    requires a >= 0.0 && (here ==> first || rest)
    ensures Gained(s, s2, d, k, here, now, a)
  {
    hide LogAt, Signed;
  }

  lemma AdjustOneGains(s: Shared, j: string, usd: real, tok: int, now: int, k: string, d: Dim)
    ensures Gained(s, AdjustOne(s, j, usd, tok, now), d, k, j == k, now, V.Amount(usd, tok, d))
  {
    hide Gained;
    AppendedGains(s, AdjustOne(s, j, usd, tok, now), d, k, j == k && V.Amount(usd, tok, d) != 0.0, j == k, now, V.Amount(usd, tok, d));
  }

  /** An adjustment takes its fall out of k at most once for each time it lists k. */
  lemma {:induction false} AdjustGains(s: Shared, ks: seq<string>, usd: real, tok: int, now: int, k: string, d: Dim)
    ensures Gained(s, Adjust(s, ks, usd, tok, now), d, k, true, now, -Falls(ks, k, Floor0(-V.Amount(usd, tok, d))))
    decreases |ks|
  {
    if ks != [] {
      hide Gained, AdjustOne, V.Amount, Falls, Floor0;
      var s1 := AdjustOne(s, ks[0], usd, tok, now);
      AdjustOneGains(s, ks[0], usd, tok, now, k, d);
      AdjustGains(s1, ks[1..], usd, tok, now, k, d);
      FallsAdd(s, s1, Adjust(s, ks, usd, tok, now), d, k, ks, now, V.Amount(usd, tok, d));
    } else {
      assert Falls(ks, k, Floor0(-V.Amount(usd, tok, d))) == 0.0;
    }
  }

  lemma FallsAdd(s: Shared, s1: Shared, s2: Shared, d: Dim, k: string, ks: seq<string>, now: int, a: real)
    requires ks != [] && Gained(s, s1, d, k, ks[0] == k, now, a)
    requires Gained(s1, s2, d, k, true, now, -Falls(ks[1..], k, Floor0(-a)))
    ensures Gained(s, s2, d, k, true, now, -Falls(ks, k, Floor0(-a)))
  {
    hide LogAt, Signed;
  }

  // ---- within a cap -------------------------------------------------------------------------------------------

  /** Everything admitted is booked, but for what was adjusted downward in the same seconds. */
  ghost predicate AllBooked(s: Shared, adm: Log, down: Log, k: string, d: Dim) {
    forall lo, hi {:trigger Signed(LogAt(s, d, k), lo, hi)} {:trigger Signed(adm, lo, hi)} ::
      Signed(adm, lo, hi) <= Signed(LogAt(s, d, k), lo, hi) + Signed(down, lo, hi)
  }

  function InMinute(log: Log, lo: int): real {
    Signed(log, lo, lo + WINDOW - 1)
  }

  ghost predicate MinutesCapped(adm: Log, down: Log, top: real) {
    forall lo {:trigger InMinute(adm, lo)} :: InMinute(adm, lo) <= top + InMinute(down, lo)
  }

  ghost predicate VInv(s: Shared, adm: Log, down: Log, k: string, d: Dim, top: real, sec: int) {
    AllBooked(s, adm, down, k, d) && MinutesCapped(adm, down, top) && NonNegativeLog(down) && StampedUpTo(adm, sec)
  }

  lemma {:induction false} NothingAfter(log: Log, lo: int, hi: int, last: int)
    requires StampedUpTo(log, last) && last <= hi
    ensures Signed(log, lo, hi) == Signed(log, lo, last)
  {
    if log != [] {
      NothingAfter(log[..|log| - 1], lo, hi, last);
    }
  }

  /** The store gains at least what is admitted, less what is adjusted downward; what is admitted
      fits on top of what it reads. */
  lemma LogsMove(s: Shared, s': Shared, adm: Log, down: Log, k: string, d: Dim, top: real, sec: int, est: real, fall: real)
    requires VInv(s, adm, down, k, d, top, sec) && est >= 0.0 && fall >= 0.0
    requires Gained(s, s', d, k, true, sec, est - fall)
    requires est == 0.0 || Used(s, d, k, sec) + est <= top
    ensures VInv(s', adm + [Entry(sec, est)], down + [Entry(sec, fall)], k, d, top, sec)
  {
    hide LogAt, Signed, Used;
    var adm', down' := adm + [Entry(sec, est)], down + [Entry(sec, fall)];
    forall lo, hi {:trigger Signed(LogAt(s', d, k), lo, hi)} {:trigger Signed(adm', lo, hi)}
      ensures Signed(adm', lo, hi) <= Signed(LogAt(s', d, k), lo, hi) + Signed(down', lo, hi)
    {
      SignedAppend(adm, Entry(sec, est), lo, hi);
      SignedAppend(down, Entry(sec, fall), lo, hi);
      assert Signed(adm, lo, hi) <= Signed(LogAt(s, d, k), lo, hi) + Signed(down, lo, hi);
    }
    forall lo {:trigger InMinute(adm', lo)}
      ensures InMinute(adm', lo) <= top + InMinute(down', lo)
    {
      var hi := lo + WINDOW - 1;
      SignedAppend(adm, Entry(sec, est), lo, hi);
      SignedAppend(down, Entry(sec, fall), lo, hi);
      assert InMinute(adm, lo) <= top + InMinute(down, lo);
      if est > 0.0 && lo <= sec <= hi {
        NothingAfter(adm, lo, hi, sec);
        ReadsBooked(s, d, k, lo, sec);
        SignedWithin(down, lo, sec, hi);
        assert Signed(adm, lo, sec) <= Signed(LogAt(s, d, k), lo, sec) + Signed(down, lo, sec);
      }
    }
  }

  lemma ReadsBooked(s: Shared, d: Dim, k: string, lo: int, sec: int)
    requires sec - WINDOW < lo <= sec
    ensures Signed(LogAt(s, d, k), lo, sec) <= Used(s, d, k, sec)
  {
    SignedWithinWindow(LogAt(s, d, k), lo, sec);
  }

  lemma VInvLater(s: Shared, adm: Log, down: Log, k: string, d: Dim, top: real, sec: int, later: int)
    requires VInv(s, adm, down, k, d, top, sec) && sec <= later
    ensures VInv(s, adm, down, k, d, top, later)
  {
    hide AllBooked, MinutesCapped;
  }
}
