/** The velocity cap of a scope across the whole fleet, over every interleaving. */
module ClusterVelocity {
  import opened WindowLog
  import opened FirewallSpec
  import opened SharedSpec
  import opened SharedMode
  import opened SameMinute
  import opened Cluster
  import opened StoreVelocity
  import opened Keys
  import V = VelocityBound

  // ---- admissions and downward adjustments of a run ------------------------------------------------------------------

  /** The store admits a request that names k. */
  predicate Admits(c: Fleet, e: Event, k: string, ttl: int) {
    && e.AskStore? && Applies(c, e) && e.fault.NoFault? && Names(c.reqs[e.i], k)
    && CheckAll(c.shared, SharedCaps(c.reqs[e.i].scopes), c.reqs[e.i].usd, c.reqs[e.i].tok, Unix(c.clock)) == Reserved
  }

  /** The estimates the store admitted on k, and when. */
  function Admissions(cfg: Config, ttl: int, n: nat, es: seq<Event>, k: string, d: Dim): Log {
    if es == [] then []
    else
      var pre, e := es[..|es| - 1], es[|es| - 1];
      var c := Run(cfg, ttl, n, pre);
      Admissions(cfg, ttl, n, pre, k, d) +
      [Entry(Unix(c.clock), if Admits(c, e, k, ttl) then V.Amount(c.reqs[e.i].usd, c.reqs[e.i].tok, d) else 0.0)]
  }

  function Fall(e: Event, k: string, d: Dim): real {
    if e.StoreAdjust? then Falls(e.ks, k, Floor0(-V.Amount(e.dUSD, e.dTok, d))) else 0.0
  }

  /** What the adjustments of a run took out of k, and when. */
  function Adjustments(cfg: Config, ttl: int, n: nat, es: seq<Event>, k: string, d: Dim): Log {
    if es == [] then []
    else
      var pre, e := es[..|es| - 1], es[|es| - 1];
      Adjustments(cfg, ttl, n, pre, k, d) + [Entry(Unix(Run(cfg, ttl, n, pre).clock), Fall(e, k, d))]
  }

  // ---- the invariant -----------------------------------------------------------------------------------------------------

  /** Whatever names k caps it, at top or below. */
  ghost predicate CappedAt(scopes: seq<Scope>, k: string, d: Dim, top: real) {
    forall sc :: sc in scopes && sc.key == k ==> 0.0 < V.CapOf(sc.limits, d) <= top
  }

  ghost predicate AllCappedAt(es: seq<Event>, k: string, d: Dim, top: real) {
    forall i :: 0 <= i < |es| && es[i].Arrive? ==> CappedAt(es[i].scopes, k, d, top)
  }

  ghost predicate ReqsCapped(reqs: seq<Req>, k: string, d: Dim, top: real) {
    forall i {:trigger reqs[i]} :: 0 <= i < |reqs| ==> CappedAt(reqs[i].scopes, k, d, top) && reqs[i].usd >= 0.0 && reqs[i].tok >= 0
  }

  // ---- one event ------------------------------------------------------------------------------------------------------------

  lemma ReqsStayCapped(cfg: Config, ttl: int, c: Fleet, e: Event, k: string, d: Dim, top: real)
    requires ReqsCapped(c.reqs, k, d, top) && (e.Arrive? ==> CappedAt(e.scopes, k, d, top))
    ensures ReqsCapped(Step(cfg, ttl, c, e).reqs, k, d, top)
  {
    hide CappedAt, CheckLoopBudget, GC, CheckReserve, SharedSpec.Reserve, Settle, FirewallSpec.Release, Adjust, FreeHolds;
  }

  /** What asking the store does to its logs. */
  lemma AskGains(c: Fleet, e: Event, k: string, d: Dim, top: real, ttl: int)
    requires e.AskStore? && Applies(c, e) && ReqsCapped(c.reqs, k, d, top)
    ensures var q, s' := c.reqs[e.i], DoAskStore(c, e.i, e.fault, ttl).shared;
            var est := if Admits(c, e, k, ttl) then V.Amount(q.usd, q.tok, d) else 0.0;
            && Gained(c.shared, s', d, k, true, Unix(c.clock), est)
            && (est == 0.0 || Used(c.shared, d, k, Unix(c.clock)) + est <= top)
  {
    hide LogAt, Signed, Used, SharedSpec.ReserveAll, CheckAll;
    var q, now := c.reqs[e.i], Unix(c.clock);
    var caps := SharedCaps(q.scopes);
    ReserveAllGains(c.shared, caps, q.usd, q.tok, HoldID(e.i), now, ttl, k, d);
    if Admits(c, e, k, ttl) {
      var cap := NamedCap(q.scopes, k, d, top);
      CheckAllPasses(c.shared, caps, q.usd, q.tok, now);
      assert CheckOne(c.shared, cap, q.usd, q.tok, now) == Reserved;
    }
  }

  lemma NamedCap(scopes: seq<Scope>, k: string, d: Dim, top: real) returns (cap: Cap)
    requires k in ScopeKeys(scopes) && CappedAt(scopes, k, d, top)
    ensures cap in SharedCaps(scopes) && cap.key == k && 0.0 < CapIn(cap, d) <= top && Bounds(SharedCaps(scopes), k, d)
  {
    var sc := NamedScope(scopes, k);
    cap := CapFor(sc);
    assert StoreCapped(sc.limits);
  }

  lemma StepVelocity(cfg: Config, ttl: int, c: Fleet, e: Event, adm: Log, down: Log, k: string, d: Dim, top: real)
    requires ReqsCapped(c.reqs, k, d, top) && VInv(c.shared, adm, down, k, d, top, Unix(c.clock))
    ensures var est := if Admits(c, e, k, ttl) then V.Amount(c.reqs[e.i].usd, c.reqs[e.i].tok, d) else 0.0;
            VInv(Step(cfg, ttl, c, e).shared, adm + [Entry(Unix(c.clock), est)], down + [Entry(Unix(c.clock), Fall(e, k, d))], k, d, top,
                 Unix(c.clock))
  {
    hide VInv, CheckAll, DoAskStore, Adjust, Gained;
    var sec := Unix(c.clock);
    if e.AskStore? && Applies(c, e) {
      AskGains(c, e, k, d, top, ttl);
      LogsMove(c.shared, DoAskStore(c, e.i, e.fault, ttl).shared, adm, down, k, d, top, sec,
               if Admits(c, e, k, ttl) then V.Amount(c.reqs[e.i].usd, c.reqs[e.i].tok, d) else 0.0, 0.0);
    } else if e.StoreAdjust? {
      AdjustGains(c.shared, e.ks, e.dUSD, e.dTok, sec, k, d);
      FallsNonNegative(e.ks, k, Floor0(-V.Amount(e.dUSD, e.dTok, d)));
      LogsMove(c.shared, Adjust(c.shared, e.ks, e.dUSD, e.dTok, sec), adm, down, k, d, top, sec, 0.0, Fall(e, k, d));
    } else {
      LogsStay(cfg, ttl, c, e, k, d);
      LogsMove(c.shared, Step(cfg, ttl, c, e).shared, adm, down, k, d, top, sec, 0.0, 0.0);
    }
  }

  lemma LogsStay(cfg: Config, ttl: int, c: Fleet, e: Event, k: string, d: Dim)
    requires !(e.AskStore? && Applies(c, e)) && !e.StoreAdjust?
    ensures Gained(c.shared, Step(cfg, ttl, c, e).shared, d, k, true, Unix(c.clock), 0.0)
  {
    hide CheckLoopBudget, GC, CheckReserve, Settle, FirewallSpec.Release, FreeHolds, Signed;
    if e.StoreFree? && Applies(c, e) {
      FreeHoldsKeepsLogs(c.shared, CapKeys(SharedCaps(c.reqs[e.i].scopes)), HoldID(e.i));
    }
  }

  // ---- the theorem ------------------------------------------------------------------------------------------------------------

  lemma ClockGrows(cfg: Config, ttl: int, c: Fleet, e: Event)
    ensures Unix(c.clock) <= Unix(Step(cfg, ttl, c, e).clock)
  {
    hide CheckLoopBudget, GC, CheckReserve, SharedSpec.Reserve, Settle, FirewallSpec.Release;
  }

  lemma {:induction false} RunVelocity(cfg: Config, ttl: int, n: nat, es: seq<Event>, k: string, d: Dim, top: real)
    requires top > 0.0 && AllCappedAt(es, k, d, top)
    ensures var c := Run(cfg, ttl, n, es);
            && ReqsCapped(c.reqs, k, d, top)
            && VInv(c.shared, Admissions(cfg, ttl, n, es, k, d), Adjustments(cfg, ttl, n, es, k, d), k, d, top, Unix(c.clock))
  {
    if es != [] {
      hide Step, VInv, ReqsCapped, Admits, CappedAt, Fall;
      var pre, e := es[..|es| - 1], es[|es| - 1];
      var c := Run(cfg, ttl, n, pre);
      RunVelocity(cfg, ttl, n, pre, k, d, top);
      ReqsStayCapped(cfg, ttl, c, e, k, d, top);
      var adm, down := Admissions(cfg, ttl, n, pre, k, d), Adjustments(cfg, ttl, n, pre, k, d);
      StepVelocity(cfg, ttl, c, e, adm, down, k, d, top);
      ClockGrows(cfg, ttl, c, e);
      VInvLater(Step(cfg, ttl, c, e).shared, Admissions(cfg, ttl, n, es, k, d), Adjustments(cfg, ttl, n, es, k, d), k, d, top,
                Unix(c.clock), Unix(Step(cfg, ttl, c, e).clock));
    }
  }

  /** Over every interleaving of requests, crashes and lost calls on any number of replicas, the
      estimates the store admits on a scope in any sixty consecutive seconds total at most its cap
      and what was adjusted downward on it in those seconds. */
  lemma FleetVelocityBound(cfg: Config, ttl: int, n: nat, es: seq<Event>, k: string, d: Dim, top: real, lo: int)
    requires top > 0.0 && AllCappedAt(es, k, d, top)
    ensures Signed(Admissions(cfg, ttl, n, es, k, d), lo, lo + 59) <= top + Signed(Adjustments(cfg, ttl, n, es, k, d), lo, lo + 59)
  {
    RunVelocity(cfg, ttl, n, es, k, d, top);
    assert InMinute(Admissions(cfg, ttl, n, es, k, d), lo) <= top + InMinute(Adjustments(cfg, ttl, n, es, k, d), lo);
  }
}
