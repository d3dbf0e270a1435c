/** Two stores that agree on every second of the last minute, whatever either has forgotten:
    how each operation of the local firewall and of the shared store keeps them in agreement. */
module SameMinute {
  import opened WindowLog
  import opened FirewallSpec
  import opened VelocityBound
  import opened SharedSpec
  import opened Keys

  // ---- two logs ----------------------------------------------------------------------------------------------

  ghost predicate Agree(a: Log, b: Log, sec: int) {
    && StampedUpTo(a, sec) && StampedUpTo(b, sec)
    && forall s {:trigger Bucket(a, s)} {:trigger Bucket(b, s)} :: sec - WINDOW < s ==> Bucket(a, s) == Bucket(b, s)
  }

  lemma AgreedSums(a: Log, b: Log, sec: int)
    requires Agree(a, b, sec)
    ensures WindowSum(a, sec) == WindowSum(b, sec)
  {
    TotalCongruent(a, b, sec - WINDOW + 1, WINDOW);
  }

  lemma AgreeAppend(a: Log, b: Log, sec: int, delta: real)
    requires Agree(a, b, sec)
    ensures Agree(a + [Entry(sec, delta)], b + [Entry(sec, delta)], sec)
  {
    forall s
      ensures sec - WINDOW < s ==> Bucket(a + [Entry(sec, delta)], s) == Bucket(b + [Entry(sec, delta)], s)
    {
      BucketAppend(a, Entry(sec, delta), s);
      BucketAppend(b, Entry(sec, delta), s);
    }
  }

  /** Forgetting a log whose minute reads zero is not noticed. */
  lemma AgreeForgotten(a: Log, b: Log, sec: int)
    requires Agree(a, b, sec) && WindowSum(a, sec) == 0.0
    ensures Agree([], b, sec)
  {
    TotalZero(a, sec - WINDOW + 1, WINDOW);
    forall s | sec - WINDOW < s
      ensures Bucket(b, s) == 0.0
    {
      assert Bucket(a, s) == Bucket(b, s);
      if s > sec {
        BucketAfterLast(a, sec, s);
      }
    }
  }

  // ---- what the local firewall appends ----------------------------------------------------------------------------

  function Appended(log: Log, here: bool, sec: int, delta: real): Log {
    if here then log + [Entry(sec, delta)] else log
  }

  lemma {:induction false} ReserveAllAppends(f: Fw, scopes: seq<Scope>, usd: real, tok: int, now: nat, k: string, d: Dim)
    requires NotPast(f, Unix(now)) && Distinct(ScopeKeys(scopes))
    ensures var g := FirewallSpec.ReserveAll(f, scopes, usd, tok, now);
            && NotPast(g, Unix(now))
            && LogOf(g, k, d) == Appended(LogOf(f, k, d), k in ScopeKeys(scopes), Unix(now), Amount(usd, tok, d))
    decreases |scopes|
  {
    if scopes != [] {
      var f' := FirewallSpec.ReserveOne(f, scopes[0].key, usd, tok, now);
      DistinctTail(ScopeKeys(scopes));
      assert ScopeKeys(scopes)[1..] == ScopeKeys(scopes[1..]);
      assert LogOf(f', k, d) == Appended(LogOf(f, k, d), k == scopes[0].key, Unix(now), Amount(usd, tok, d));
      ReserveAllAppends(f', scopes[1..], usd, tok, now, k, d);
    }
  }

  lemma {:induction false} BookAllAppends(f: Fw, ks: seq<string>, sec: nat, usd: real, tok: int, k: string, d: Dim)
    requires NotPast(f, sec) && Distinct(ks) && forall j :: j in ks ==> j in f.scopes
    ensures var g := BookAll(f, ks, sec, usd, tok);
            NotPast(g, sec) && LogOf(g, k, d) == Appended(LogOf(f, k, d), k in ks, sec, Amount(usd, tok, d))
    decreases |ks|
  {
    if ks != [] {
      var f' := BookOne(f, ks[0], sec, usd, tok);
      DistinctTail(ks);
      assert LogOf(f', k, d) == Appended(LogOf(f, k, d), k == ks[0], sec, Amount(usd, tok, d));
      BookAllAppends(f', ks[1..], sec, usd, tok, k, d);
    }
  }

  lemma {:induction false} ReleaseAllAppends(f: Fw, ks: seq<string>, unbook: bool, usd: real, tok: int, sec: nat, k: string, d: Dim)
    requires NotPast(f, sec) && Distinct(ks) && forall j :: j in ks ==> j in f.scopes
    ensures var g := FirewallSpec.ReleaseAll(f, ks, unbook, usd, tok, sec);
            NotPast(g, sec) && LogOf(g, k, d) == Appended(LogOf(f, k, d), k in ks && unbook, sec, Amount(-usd, -tok, d))
    decreases |ks|
  {
    if ks != [] {
      var f' := ReleaseOne(f, ks[0], unbook, usd, tok, sec);
      DistinctTail(ks);
      assert LogOf(f', k, d) == Appended(LogOf(f, k, d), k == ks[0] && unbook, sec, Amount(-usd, -tok, d));
      ReleaseAllAppends(f', ks[1..], unbook, usd, tok, sec, k, d);
    }
  }

  // ---- what the shared store appends ---------------------------------------------------------------------------------

  function CapIn(c: Cap, d: Dim): real {
    if d.Dollars? then c.usd else c.tok as real
  }

  ghost predicate DistinctCaps(caps: seq<Cap>) {
    forall i, j :: 0 <= i < j < |caps| ==> caps[i].key != caps[j].key
  }

  predicate Bounds(caps: seq<Cap>, k: string, d: Dim) {
    exists c :: c in caps && c.key == k && CapIn(c, d) > 0.0
  }

  lemma {:induction false} StoreReserveAppends(s: Shared, caps: seq<Cap>, usd: real, tok: int, id: string, now: int, ttl: int, k: string, d: Dim)
    requires DistinctCaps(caps)
    ensures LogAt(SharedSpec.ReserveAll(s, caps, usd, tok, id, now, ttl), d, k) ==
            Appended(LogAt(s, d, k), Bounds(caps, k, d), now, Amount(usd, tok, d))
    decreases |caps|
  {
    if caps != [] {
      var c := caps[0];
      var s1 := SharedSpec.ReserveOne(s, c, usd, tok, id, now, ttl);
      assert LogAt(s1, d, k) == Appended(LogAt(s, d, k), c.key == k && CapIn(c, d) > 0.0, now, Amount(usd, tok, d));
      StoreReserveAppends(s1, caps[1..], usd, tok, id, now, ttl, k, d);
      assert forall x :: x in caps <==> x == c || x in caps[1..];
      assert Bounds(caps, k, d) <==> (c.key == k && CapIn(c, d) > 0.0) || Bounds(caps[1..], k, d);
      if c.key == k {
        assert forall x :: x in caps[1..] ==> x.key != k;
      }
    }
  }

  lemma {:induction false} AdjustAppends(s: Shared, ks: seq<string>, usd: real, tok: int, now: int, k: string, d: Dim)
    requires Distinct(ks)
    ensures LogAt(Adjust(s, ks, usd, tok, now), d, k) ==
            Appended(LogAt(s, d, k), k in ks && Amount(usd, tok, d) != 0.0, now, Amount(usd, tok, d))
    decreases |ks|
  {
    if ks != [] {
      var s1 := AdjustOne(s, ks[0], usd, tok, now);
      DistinctTail(ks);
      assert LogAt(s1, d, k) == Appended(LogAt(s, d, k), k == ks[0] && Amount(usd, tok, d) != 0.0, now, Amount(usd, tok, d));
      AdjustAppends(s1, ks[1..], usd, tok, now, k, d);
    }
  }

  lemma {:induction false} FreeHoldsKeepsLogs(s: Shared, ks: seq<string>, id: string)
    ensures FreeHolds(s, ks, id).logs == s.logs
    decreases |ks|
  {
    if ks != [] {
      FreeHoldsKeepsLogs(FreeOne(s, ks[0], id), ks[1..], id);
    }
  }
}
