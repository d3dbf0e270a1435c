/** Admission when a shared store is configured: loop detection and the per-run budget stay
    on the instance, velocity and concurrency go to the store. */
module SharedMode {
  import opened WindowLog
  import opened FirewallSpec
  import opened SharedSpec

  predicate StoreCapped(l: Limits) {
    l.usdPerMin > 0.0 || l.tokPerMin > 0 || l.concurrent > 0
  }

  /** Only scopes with a velocity or concurrency cap go to the store. */
  function SharedCaps(scopes: seq<Scope>): (caps: seq<Cap>)
    ensures forall c :: c in caps <==> exists sc :: sc in scopes && StoreCapped(sc.limits) && c == CapFor(sc)
  {
    if scopes == [] then []
    else
      var rest := SharedCaps(scopes[1..]);
      assert forall sc :: sc in scopes <==> sc == scopes[0] || sc in scopes[1..];
      if StoreCapped(scopes[0].limits) then [CapFor(scopes[0])] + rest else rest
  }

  function CapFor(sc: Scope): Cap {
    Cap(sc.key, sc.name, sc.limits.usdPerMin, sc.limits.tokPerMin, sc.limits.concurrent)
  }

  function CapKeys(caps: seq<Cap>): (ks: seq<string>)
    ensures |ks| == |caps| && forall i :: 0 <= i < |ks| ==> ks[i] == caps[i].key
  {
    seq(|caps|, i requires 0 <= i < |caps| => caps[i].key)
  }

  // ---- one admission, run without interruption ------------------------------------------------------------

  /** An instance, the store, and the count of calls that fell back. */
  datatype Gate = Gate(fw: Fw, shared: Shared, degraded: nat)

  /** Where an admitted request's velocity and concurrency are held. */
  datatype Backing = ByStore(keys: seq<string>, id: string) | ByInstance(keys: seq<string>) | Unheld

  datatype Answered = Granted(backing: Backing, budgetKey: string) | Rejected(why: Denial)

  /** What is left of an admission once the instance's own checks have passed. */
  function StorePart(g: Gate, scopes: seq<Scope>, caps: seq<Cap>, b: string, usd: real, tok: int,
                     id: string, fault: Fault, now: nat, ttl: int): (Gate, Answered)
  {
    var (s, a) := SharedSpec.Reserve(g.shared, caps, usd, tok, id, Unix(now), ttl);
    if !fault.NoFault? then
      var (h, denied) := CheckReserve(g.fw, scopes, usd, tok, now);
      (Gate(if denied.Some? then Unreserved(h, b, usd) else h, if fault.LostBefore? then g.shared else s, g.degraded + 1),
       if denied.Some? then Rejected(denied.value) else Granted(ByInstance(ScopeKeys(scopes)), b))
    else if a.Breach? then
      (Gate(Unreserved(g.fw, b, usd), s, g.degraded),
       Rejected(if a.concurrency then Concurrency(a.scope) else Velocity(a.scope, WINDOW)))
    else (g.(shared := s), Granted(ByStore(CapKeys(caps), id), b))
  }

  /** Admission of a request that is not killed, its estimate already floored at zero. */
  function EnterShared(g: Gate, cfg: Config, scopes: seq<Scope>, runKey: string, hash: string, runMax: real, usd: real, tok: int,
                       id: string, fault: Fault, now: nat, ttl: int): (Gate, Answered)
  {
    var (f, tripped, b) := CheckLoopBudget(FirewallSpec.GC(g.fw, cfg, now), cfg, runKey, hash, usd, runMax, now);
    if tripped then (g.(fw := DoKill(f, cfg, runKey, now)), Rejected(Killed))
    else if SharedCaps(scopes) == [] then (g.(fw := f), Granted(Unheld, b))
    else StorePart(g.(fw := f), scopes, SharedCaps(scopes), b, usd, tok, id, fault, now, ttl)
  }

  // ---- the store's answers, without their order --------------------------------------------------------

  lemma {:induction false} CheckAllPasses(s: Shared, caps: seq<Cap>, usd: real, tok: int, now: int)
    ensures CheckAll(s, caps, usd, tok, now) == Reserved <==>
            forall c :: c in caps ==> CheckOne(s, c, usd, tok, now) == Reserved
  {
    if caps != [] {
      assert forall c :: c in caps <==> c == caps[0] || c in caps[1..];
      assert caps[0] in caps;
      CheckAllPasses(s, caps[1..], usd, tok, now);
    }
  }

  /** A refusal names the first scope that does not pass, and is for concurrency exactly when that
      scope's velocity caps have room. */
  ghost predicate Blames(s: Shared, caps: seq<Cap>, i: nat, usd: real, tok: int, now: int, a: Answer)
    requires i < |caps| && a.Breach?
  {
    var c := caps[i];
    && a.scope == c.name
    && (forall j :: 0 <= j < i ==> CheckOne(s, caps[j], usd, tok, now) == Reserved)
    && (if a.concurrency then CapFits(s, c, usd, tok, now) && c.conc > 0 && |Live(s, c.key, now)| >= c.conc
        else !CapFits(s, c, usd, tok, now))
  }

  /** Both velocity caps of a scope have room for the estimate. */
  predicate CapFits(s: Shared, c: Cap, usd: real, tok: int, now: int) {
    && (c.usd > 0.0 ==> Used(s, Dollars, c.key, now) + usd <= c.usd)
    && (c.tok > 0 ==> Used(s, Tokens, c.key, now) + tok as real <= c.tok as real)
  }

  lemma {:induction false} RefusalNames(s: Shared, caps: seq<Cap>, usd: real, tok: int, id: string, now: int, ttl: int)
    ensures var (s', a) := SharedSpec.Reserve(s, caps, usd, tok, id, now, ttl);
            a.Breach? ==> s' == s && exists i: nat :: i < |caps| && Blames(s, caps, i, usd, tok, now, a)
    decreases |caps|
  {
    if caps != [] && CheckOne(s, caps[0], usd, tok, now) == Reserved {
      RefusalNames(s, caps[1..], usd, tok, id, now, ttl);
      var a := CheckAll(s, caps, usd, tok, now);
      if a.Breach? {
        var i: nat :| i < |caps| - 1 && Blames(s, caps[1..], i, usd, tok, now, a);
        assert Blames(s, caps, i + 1, usd, tok, now, a);
      }
    } else if caps != [] {
      assert Blames(s, caps, 0, usd, tok, now, CheckAll(s, caps, usd, tok, now));
    }
  }

  /** Some cap of the list bounds concurrency on k. */
  predicate HoldsSlot(caps: seq<Cap>, k: string) {
    exists c :: c in caps && c.key == k && c.conc > 0
  }

  /** Reserving adds one hold, the caller's, to each scope with a concurrency cap. */
  lemma {:induction false} ReserveAllHolds(s: Shared, caps: seq<Cap>, usd: real, tok: int, id: string, now: int, ttl: int, k: string)
    ensures HoldsAt(SharedSpec.ReserveAll(s, caps, usd, tok, id, now, ttl), k) ==
            if HoldsSlot(caps, k) then HoldsAt(s, k)[id := now + ttl] else HoldsAt(s, k)
    decreases |caps|
  {
    if caps != [] {
      var s1 := SharedSpec.ReserveOne(s, caps[0], usd, tok, id, now, ttl);
      assert forall c :: c in caps <==> c == caps[0] || c in caps[1..];
      assert HoldsAt(s1, k) == if caps[0].conc > 0 && caps[0].key == k then HoldsAt(s, k)[id := now + ttl] else HoldsAt(s, k);
      ReserveAllHolds(s1, caps[1..], usd, tok, id, now, ttl, k);
      assert HoldsSlot(caps, k) <==> (caps[0].conc > 0 && caps[0].key == k) || HoldsSlot(caps[1..], k);
      assert HoldsAt(s, k)[id := now + ttl][id := now + ttl] == HoldsAt(s, k)[id := now + ttl];
    }
  }

  lemma {:induction false} AdjustKeepsHolds(s: Shared, ks: seq<string>, dUSD: real, dTok: int, now: int)
    ensures Adjust(s, ks, dUSD, dTok, now).holds == s.holds
    decreases |ks|
  {
    if ks != [] {
      AdjustKeepsHolds(AdjustOne(s, ks[0], dUSD, dTok, now), ks[1..], dUSD, dTok, now);
    }
  }

  /** Freeing a request's holds leaves every other hold where it was. */
  lemma {:induction false} FreeHoldsLeavesOthers(s: Shared, ks: seq<string>, id: string, k: string)
    ensures HoldsAt(FreeHolds(s, ks, id), k) == if k in ks then HoldsAt(s, k) - {id} else HoldsAt(s, k)
    decreases |ks|
  {
    if ks != [] {
      FreeHoldsLeavesOthers(FreeOne(s, ks[0], id), ks[1..], id, k);
      assert HoldsAt(s, k) - {id} - {id} == HoldsAt(s, k) - {id};
    }
  }
}
