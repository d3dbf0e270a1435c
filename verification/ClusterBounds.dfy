/** The fleet-wide concurrency bound, over every interleaving. */
module ClusterBounds {
  import opened FirewallSpec
  import opened SharedSpec
  import opened Cluster
  import KillStore
  import Keys

  /** Requests in flight on k: those the store admitted that are younger than the hold
      lifetime, and all those an instance admitted while the store was unreachable. */
  function InFlight(c: Fleet, k: string, ttl: int): nat {
    CountInStore(c.reqs, k, Unix(c.clock), ttl) + CountInMemory(c.reqs, k)
  }

  // ---- in the store ------------------------------------------------------------------------------------------

  function YoungHolds(reqs: seq<Req>, k: string, now: int, ttl: int): set<string> {
    if reqs == [] then {}
    else
      var n := |reqs| - 1;
      YoungHolds(reqs[..n], k, now, ttl) + if YoungInStore(reqs[n], k, now, ttl) then {HoldID(n)} else {}
  }

  lemma {:induction false} YoungHoldOf(reqs: seq<Req>, k: string, now: int, ttl: int, id: string) returns (i: nat)
    requires id in YoungHolds(reqs, k, now, ttl)
    ensures i < |reqs| && id == HoldID(i) && YoungInStore(reqs[i], k, now, ttl)
  {
    var n := |reqs| - 1;
    if id in YoungHolds(reqs[..n], k, now, ttl) {
      i := YoungHoldOf(reqs[..n], k, now, ttl, id);
    } else {
      i := n;
    }
  }

  lemma {:induction false} YoungHoldsCounted(reqs: seq<Req>, k: string, now: int, ttl: int)
    ensures |YoungHolds(reqs, k, now, ttl)| == CountInStore(reqs, k, now, ttl)
  {
    if reqs != [] {
      var n := |reqs| - 1;
      YoungHoldsCounted(reqs[..n], k, now, ttl);
      if HoldID(n) in YoungHolds(reqs[..n], k, now, ttl) {
        var i := YoungHoldOf(reqs[..n], k, now, ttl, HoldID(n));
        Keys.ItoaInjective(n, i);
      }
    }
  }

  lemma StoreCountWithinCap(c: Fleet, n: nat, k: string, m: int, ttl: int)
    requires Inv(c, n, k, m, ttl)
    ensures CountInStore(c.reqs, k, Unix(c.clock), ttl) <= m
  {
    var now := Unix(c.clock);
    YoungHoldsCounted(c.reqs, k, now, ttl);
    var young := YoungHolds(c.reqs, k, now, ttl);
    forall id | id in young
      ensures id in Live(c.shared, k, now)
    {
      var i := YoungHoldOf(c.reqs, k, now, ttl, id);
      assert HoldsAt(c.shared, k)[HoldID(i)] == c.reqs[i].at + ttl;
    }
    KillStore.SubsetSize(young, Live(c.shared, k, now));
  }

  // ---- in memory ----------------------------------------------------------------------------------------------

  /** Slots of k held by the first n instances. */
  function SumReplicas(reqs: seq<Req>, n: nat, k: string): nat {
    if n == 0 then 0 else SumReplicas(reqs, n - 1, k) + SumSlots(reqs, n - 1, k)
  }

  lemma {:induction false} SumReplicasLast(reqs: seq<Req>, n: nat, k: string)
    requires reqs != []
    ensures var q := reqs[|reqs| - 1];
            SumReplicas(reqs, n, k) == SumReplicas(reqs[..|reqs| - 1], n, k) + if q.replica < n then Slots(q, q.replica, k) else 0
  {
    if n > 0 {
      SumReplicasLast(reqs, n - 1, k);
    }
  }

  lemma {:induction false} NoReqsNoSlots(n: nat, k: string)
    ensures SumReplicas([], n, k) == 0
  {
    if n > 0 {
      NoReqsNoSlots(n - 1, k);
    }
  }

  lemma {:induction false} MemoryCountIsSlots(reqs: seq<Req>, n: nat, k: string, m: int)
    requires ReqsOK(reqs, n, k, m)
    ensures CountInMemory(reqs, k) <= SumReplicas(reqs, n, k)
  {
    if reqs == [] {
      NoReqsNoSlots(n, k);
    } else {
      var q := reqs[|reqs| - 1];
      MemoryCountIsSlots(reqs[..|reqs| - 1], n, k, m);
      SumReplicasLast(reqs, n, k);
      if HeldInMemory(q, k) {
        assert multiset(LocalKeys(q))[k] >= 1;
      }
    }
  }

  lemma {:induction false} ReplicasWithinCap(c: Fleet, n: nat, upTo: nat, k: string, m: int, ttl: int)
    requires Inv(c, n, k, m, ttl) && upTo <= n
    ensures SumReplicas(c.reqs, upTo, k) <= upTo * m
  {
    if upTo > 0 {
      ReplicasWithinCap(c, n, upTo - 1, k, m, ttl);
      assert Inflight(c.locals[upTo - 1], k) == SumSlots(c.reqs, upTo - 1, k);
      assert upTo * m == (upTo - 1) * m + m;
    }
  }

  // ---- the theorems --------------------------------------------------------------------------------------------

  /** With store calls failing at will, each replica may admit its own m on top of the fleet's m. */
  lemma FleetBoundWithFaults(cfg: Config, ttl: int, n: nat, es: seq<Event>, k: string, m: int)
    requires m > 0 && FixedCaps(es, k, m)
    ensures InFlight(Run(cfg, ttl, n, es), k, ttl) <= (n + 1) * m
  {
    var c := Run(cfg, ttl, n, es);
    RunKeepsInv(cfg, ttl, n, es, k, m);
    StoreCountWithinCap(c, n, k, m, ttl);
    MemoryCountIsSlots(c.reqs, n, k, m);
    ReplicasWithinCap(c, n, n, k, m, ttl);
    assert (n + 1) * m == n * m + m;
  }

  ghost predicate NoFaults(es: seq<Event>) {
    forall i :: 0 <= i < |es| && es[i].AskStore? ==> es[i].fault.NoFault?
  }

  ghost predicate AllAsked(reqs: seq<Req>) {
    forall i :: 0 <= i < |reqs| ==> !reqs[i].phase.Unreachable? && !reqs[i].phase.InMemory?
  }

  lemma {:induction false} NeverFallsBack(cfg: Config, ttl: int, n: nat, es: seq<Event>)
    requires NoFaults(es)
    ensures AllAsked(Run(cfg, ttl, n, es).reqs)
  {
    if es != [] {
      var pre, e := es[..|es| - 1], es[|es| - 1];
      NeverFallsBack(cfg, ttl, n, pre);
      var c := Run(cfg, ttl, n, pre);
      if e.Arrive? && Applies(c, e) {
      } else if Applies(c, e) {
        StepAsks(cfg, ttl, c, e);
      }
    }
  }

  lemma StepAsks(cfg: Config, ttl: int, c: Fleet, e: Event)
    requires !e.Arrive? && AllAsked(c.reqs) && (e.AskStore? ==> e.fault.NoFault?)
    ensures AllAsked(Step(cfg, ttl, c, e).reqs)
  {
  }

  lemma {:induction false} NoneInMemory(reqs: seq<Req>, k: string)
    requires AllAsked(reqs)
    ensures CountInMemory(reqs, k) == 0
  {
    if reqs != [] {
      NoneInMemory(reqs[..|reqs| - 1], k);
    }
  }

  /** While store calls succeed, crashes and all, no more than m requests younger than the hold
      lifetime are in flight on a scope across the fleet. */
  lemma FleetBound(cfg: Config, ttl: int, n: nat, es: seq<Event>, k: string, m: int)
    requires m > 0 && FixedCaps(es, k, m) && NoFaults(es)
    ensures InFlight(Run(cfg, ttl, n, es), k, ttl) <= m
  {
    var c := Run(cfg, ttl, n, es);
    RunKeepsInv(cfg, ttl, n, es, k, m);
    StoreCountWithinCap(c, n, k, m, ttl);
    NeverFallsBack(cfg, ttl, n, es);
    NoneInMemory(c.reqs, k);
  }
}
