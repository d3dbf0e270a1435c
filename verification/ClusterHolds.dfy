/** Which holds the shared store keeps for the fleet: those of the requests it took and that have
    not been freed since, on exactly the scopes where they bound concurrency. */
module ClusterHolds {
  import opened FirewallSpec
  import opened SharedSpec
  import opened SharedMode
  import opened Cluster
  import Keys

  /** The store takes request i, whether or not the answer gets back. */
  predicate Takes(c: Fleet, e: Event, i: nat, ttl: int) {
    && e.AskStore? && e.i == i && Applies(c, e) && !e.fault.LostBefore?
    && SharedSpec.Reserve(c.shared, SharedCaps(c.reqs[i].scopes), c.reqs[i].usd, c.reqs[i].tok, HoldID(i), Unix(c.clock), ttl).1 == Reserved
  }

  predicate Frees(c: Fleet, e: Event, i: nat) {
    e == StoreFree(i) && Applies(c, e)
  }

  /** The store has taken request i and not freed it since. */
  predicate Holding(cfg: Config, ttl: int, n: nat, es: seq<Event>, i: nat) {
    if es == [] then false
    else
      var c, e := Run(cfg, ttl, n, es[..|es| - 1]), es[|es| - 1];
      Takes(c, e, i, ttl) || (!Frees(c, e, i) && Holding(cfg, ttl, n, es[..|es| - 1], i))
  }

  /** Requests stay and keep their scopes. */
  lemma StepKeepsScopes(cfg: Config, ttl: int, c: Fleet, e: Event, i: nat)
    requires i < |c.reqs|
    ensures var c' := Step(cfg, ttl, c, e); i < |c'.reqs| && c'.reqs[i].scopes == c.reqs[i].scopes
  {
    hide SharedSpec.Reserve, CheckReserve, CheckLoopBudget, GC, Settle, FirewallSpec.Release;
  }

  /** Only the store's own events move its holds. */
  lemma StepHolds(cfg: Config, ttl: int, c: Fleet, e: Event)
    ensures var c' := Step(cfg, ttl, c, e);
            match e
            case AskStore(i, fault) =>
              if !Applies(c, e) || fault.LostBefore? then c'.shared == c.shared
              else c'.shared == SharedSpec.Reserve(c.shared, SharedCaps(c.reqs[i].scopes), c.reqs[i].usd, c.reqs[i].tok,
                                                   HoldID(i), Unix(c.clock), ttl).0
            case StoreFree(i) =>
              c'.shared == if Applies(c, e) then FreeHolds(c.shared, CapKeys(SharedCaps(c.reqs[i].scopes)), HoldID(i)) else c.shared
            case _ => c'.shared.holds == c.shared.holds
  {
    hide SharedSpec.Reserve, CheckReserve, CheckLoopBudget, GC, Settle, FirewallSpec.Release, FreeHolds;
    if e.StoreAdjust? {
      AdjustKeepsHolds(c.shared, e.ks, e.dUSD, e.dTok, Unix(c.clock));
    }
  }

  ghost predicate HeldOn(c: Fleet, i: nat, k: string) {
    HoldID(i) in HoldsAt(c.shared, k)
  }

  lemma AskMoves(c: Fleet, j: nat, ttl: int, i: nat, k: string)
    requires j < |c.reqs|
    ensures var q := c.reqs[j];
            var (s, a) := SharedSpec.Reserve(c.shared, SharedCaps(q.scopes), q.usd, q.tok, HoldID(j), Unix(c.clock), ttl);
            HoldID(i) in HoldsAt(s, k) <==> (i == j && a == Reserved && HoldsSlot(SharedCaps(q.scopes), k)) || HeldOn(c, i, k)
  {
    var q := c.reqs[j];
    var caps := SharedCaps(q.scopes);
    ReserveAllHolds(c.shared, caps, q.usd, q.tok, HoldID(j), Unix(c.clock), ttl, k);
    if i != j && HoldID(i) == HoldID(j) {
      Keys.ItoaInjective(i, j);
    }
  }

  lemma FreeMoves(c: Fleet, j: nat, i: nat, k: string)
    requires j < |c.reqs|
    ensures var caps := SharedCaps(c.reqs[j].scopes);
            && (HoldID(i) in HoldsAt(FreeHolds(c.shared, CapKeys(caps), HoldID(j)), k) <==>
                  HeldOn(c, i, k) && !(i == j && k in CapKeys(caps)))
            && (HoldsSlot(caps, k) ==> k in CapKeys(caps))
  {
    var caps := SharedCaps(c.reqs[j].scopes);
    FreeHoldsLeavesOthers(c.shared, CapKeys(caps), HoldID(j), k);
    if i != j && HoldID(i) == HoldID(j) {
      Keys.ItoaInjective(i, j);
    }
    if HoldsSlot(caps, k) {
      var x :| 0 <= x < |caps| && caps[x].key == k;
      assert CapKeys(caps)[x] == k;
    }
  }

  /** Some scope of request i bounds concurrency on k. */
  ghost predicate Bounds(c: Fleet, i: nat, k: string)
    requires i < |c.reqs|
  {
    exists sc :: sc in c.reqs[i].scopes && sc.key == k && sc.limits.concurrent > 0
  }

  lemma BoundsIff(c: Fleet, i: nat, k: string)
    requires i < |c.reqs|
    ensures Bounds(c, i, k) <==> HoldsSlot(SharedCaps(c.reqs[i].scopes), k)
  {
    if sc :| sc in c.reqs[i].scopes && sc.key == k && sc.limits.concurrent > 0 {
      assert CapFor(sc) in SharedCaps(c.reqs[i].scopes);
    }
  }

  /** In every run of the fleet, with crashes and lost calls, the store keeps a hold of request i on k
      exactly when it took the request, has not freed it since, and the request bounds concurrency on k. */
  lemma {:induction false} HoldsExact(cfg: Config, ttl: int, n: nat, es: seq<Event>, i: nat, k: string)
    ensures var c := Run(cfg, ttl, n, es);
            && (Holding(cfg, ttl, n, es, i) ==> i < |c.reqs|)
            && (HeldOn(c, i, k) <==> Holding(cfg, ttl, n, es, i) && Bounds(c, i, k))
  {
    if es != [] {
      hide Step, HeldOn, Bounds, SharedSpec.Reserve;
      var c, e := Run(cfg, ttl, n, es[..|es| - 1]), es[|es| - 1];
      HoldsExact(cfg, ttl, n, es[..|es| - 1], i, k);
      HoldsStep(cfg, ttl, c, e, i, k, Holding(cfg, ttl, n, es[..|es| - 1], i));
    }
  }

  lemma HoldsStep(cfg: Config, ttl: int, c: Fleet, e: Event, i: nat, k: string, before: bool)
    requires before ==> i < |c.reqs|
    requires HeldOn(c, i, k) <==> before && Bounds(c, i, k)
    ensures var c', after := Step(cfg, ttl, c, e), Takes(c, e, i, ttl) || (!Frees(c, e, i) && before);
            && (after ==> i < |c'.reqs|)
            && (HeldOn(c', i, k) <==> after && Bounds(c', i, k))
  {
    hide Step, SharedSpec.Reserve, FreeHolds, Bounds, HoldsSlot;
    StepHolds(cfg, ttl, c, e);
    if i < |c.reqs| {
      StepKeepsScopes(cfg, ttl, c, e, i);
      BoundsIff(c, i, k);
      BoundsIff(Step(cfg, ttl, c, e), i, k);
    }
    if e.AskStore? && Applies(c, e) {
      AskMoves(c, e.i, ttl, i, k);
    }
    if e.StoreFree? && Applies(c, e) {
      FreeMoves(c, e.i, i, k);
    }
  }
}
