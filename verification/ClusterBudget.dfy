/** The per-run budget while velocity and concurrency live in the store: nothing on the instance
    pins the budget of a run whose requests the store holds. When the instance's account of a
    run is exact, what follows for its cap, and a run that passes it. */
module ClusterBudget {
  import opened WindowLog
  import opened FirewallSpec
  import opened SharedSpec
  import opened SharedMode
  import opened Cluster

  // ---- what is pending ---------------------------------------------------------------------------------------

  /** Request q holds its estimate on the budget of run k at replica r. */
  predicate Holding(q: Req, r: nat, k: string) {
    q.replica == r && q.budgetKey == k && !q.phase.Gone? && !q.settled && !q.released
  }

  function Pending(reqs: seq<Req>, r: nat, k: string): real {
    if reqs == [] then 0.0
    else Pending(reqs[..|reqs| - 1], r, k) + if Holding(reqs[|reqs| - 1], r, k) then reqs[|reqs| - 1].usd else 0.0
  }

  ghost predicate ReqsSound(reqs: seq<Req>, n: nat) {
    forall i {:trigger reqs[i]} :: 0 <= i < |reqs| ==>
      && reqs[i].replica < n && reqs[i].usd >= 0.0
      && (reqs[i].settled || reqs[i].released ==> Cluster.Admitted(reqs[i]) || reqs[i].phase.Gone?)
  }

  ghost predicate Sound(c: Fleet, n: nat) {
    |c.locals| == n && ReqsSound(c.reqs, n)
  }

  lemma {:induction false} PendingUpdate(reqs: seq<Req>, i: nat, q: Req, r: nat, k: string)
    requires i < |reqs|
    ensures Pending(reqs[i := q], r, k) ==
            Pending(reqs, r, k) - (if Holding(reqs[i], r, k) then reqs[i].usd else 0.0) + if Holding(q, r, k) then q.usd else 0.0
  {
    var n := |reqs| - 1;
    if i == n {
      assert reqs[i := q][..n] == reqs[..n];
    } else {
      assert reqs[i := q][..n] == reqs[..n][i := q];
      PendingUpdate(reqs[..n], i, q, r, k);
    }
  }

  lemma {:induction false} PendingAtLeast(reqs: seq<Req>, n: nat, i: int, r: nat, k: string)
    requires ReqsSound(reqs, n)
    ensures Pending(reqs, r, k) >= 0.0
    ensures 0 <= i < |reqs| && Holding(reqs[i], r, k) ==> Pending(reqs, r, k) >= reqs[i].usd
  {
    if reqs != [] {
      assert reqs[|reqs| - 1].usd >= 0.0;
      PendingAtLeast(reqs[..|reqs| - 1], n, i, r, k);
    }
  }

  lemma {:induction false} PendingCrash(reqs: seq<Req>, dead: nat, r: nat, k: string)
    ensures Pending(Crashed(reqs, dead), r, k) == if r == dead then 0.0 else Pending(reqs, r, k)
  {
    if reqs != [] {
      var n := |reqs| - 1;
      assert Crashed(reqs, dead)[..n] == Crashed(reqs[..n], dead);
      PendingCrash(reqs[..n], dead, r, k);
    }
  }

  // ---- the books of one run -----------------------------------------------------------------------------------

  /** The sweep of this arrival drops the budget of run k at replica r. */
  predicate DropsBudget(cfg: Config, c: Fleet, e: Event, r: nat, k: string) {
    && e.Arrive? && e.r == r && r < |c.locals|
    && k in c.locals[r].scopes && k !in GC(c.locals[r], cfg, c.clock).scopes
  }

  predicate Bills(c: Fleet, e: Event, r: nat, k: string) {
    e.SettleReq? && Applies(c, e) && Holding(c.reqs[e.i], r, k)
  }

  /** What run k was billed at replica r since the instance last dropped its budget, a crash included. */
  function SpentAfter(cfg: Config, c: Fleet, e: Event, r: nat, k: string, spent: real): real {
    if DropsBudget(cfg, c, e, r, k) || (e.Crash? && e.r == r) then 0.0
    else if Bills(c, e, r, k) then spent + e.actualUSD
    else spent
  }

  function Spent(cfg: Config, ttl: int, n: nat, es: seq<Event>, r: nat, k: string): real {
    if es == [] then 0.0
    else
      var pre := es[..|es| - 1];
      SpentAfter(cfg, Run(cfg, ttl, n, pre), es[|es| - 1], r, k, Spent(cfg, ttl, n, pre, r, k))
  }

  /** The step loses account of the run: a sweep drops the budget while estimates are held on it, or
      usage is billed to a budget that is gone. */
  predicate Forgets(cfg: Config, c: Fleet, e: Event, r: nat, k: string) {
    || (DropsBudget(cfg, c, e, r, k) && Pending(c.reqs, r, k) > 0.0)
    || (Bills(c, e, r, k) && r < |c.locals| && k !in c.locals[r].scopes && e.actualUSD > 0.0)
  }

  function Counted(c: Fleet, r: nat, k: string): real {
    if r < |c.locals| then RunUSD(c.locals[r], k) else 0.0
  }

  predicate Exact(c: Fleet, r: nat, k: string, spent: real) {
    Counted(c, r, k) == spent + Pending(c.reqs, r, k)
  }

  // ---- operations on the instance --------------------------------------------------------------------------------

  ghost predicate SameBudget(f: Fw, g: Fw, k: string) {
    RunUSD(g, k) == RunUSD(f, k) && (k in f.scopes ==> k in g.scopes)
  }

  lemma {:induction false} BookAllBudget(f: Fw, ks: seq<string>, sec: nat, usd: real, tok: int, k: string)
    ensures SameBudget(f, BookAll(f, ks, sec, usd, tok), k) && (k in BookAll(f, ks, sec, usd, tok).scopes ==> k in f.scopes)
    decreases |ks|
  {
    if ks != [] {
      BookAllBudget(BookOne(f, ks[0], sec, usd, tok), ks[1..], sec, usd, tok, k);
    }
  }

  lemma {:induction false} ReleaseAllBudget(f: Fw, ks: seq<string>, unbook: bool, usd: real, tok: int, sec: nat, k: string)
    ensures SameBudget(f, FirewallSpec.ReleaseAll(f, ks, unbook, usd, tok, sec), k)
    ensures k in FirewallSpec.ReleaseAll(f, ks, unbook, usd, tok, sec).scopes ==> k in f.scopes
    decreases |ks|
  {
    if ks != [] {
      ReleaseAllBudget(ReleaseOne(f, ks[0], unbook, usd, tok, sec), ks[1..], unbook, usd, tok, sec, k);
    }
  }

  lemma {:induction false} CheckVelocitiesBudget(f: Fw, scopes: seq<Scope>, usd: real, tok: int, sec: nat, k: string)
    ensures SameBudget(f, CheckVelocities(f, scopes, usd, tok, sec).0, k)
    decreases |scopes|
  {
    if scopes != [] {
      var j := scopes[0].key;
      CheckVelocitiesBudget(if HasVelocityCap(scopes[0].limits) && j in f.scopes then Touched(f, j, sec) else f, scopes[1..], usd, tok, sec, k);
    }
  }

  lemma {:induction false} ReserveAllBudget(f: Fw, scopes: seq<Scope>, usd: real, tok: int, now: nat, k: string)
    ensures SameBudget(f, FirewallSpec.ReserveAll(f, scopes, usd, tok, now), k)
    decreases |scopes|
  {
    if scopes != [] {
      ReserveAllBudget(FirewallSpec.ReserveOne(f, scopes[0].key, usd, tok, now), scopes[1..], usd, tok, now, k);
    }
  }

  lemma CheckReserveBudget(f: Fw, scopes: seq<Scope>, usd: real, tok: int, now: nat, k: string)
    ensures SameBudget(f, CheckReserve(f, scopes, usd, tok, now).0, k)
  {
    CheckVelocitiesBudget(f, scopes, usd, tok, Unix(now), k);
    ReserveAllBudget(CheckVelocities(f, scopes, usd, tok, Unix(now)).0, scopes, usd, tok, now, k);
  }

  lemma SweptBudget(f: Fw, cfg: Config, now: nat, k: string)
    ensures var g := GC(f, cfg, now); (k in g.scopes ==> k in f.scopes) && RunUSD(g, k) == if k in g.scopes then RunUSD(f, k) else 0.0
  {
  }

  lemma HeldBudget(f: Fw, cfg: Config, run: string, hash: string, usd: real, runMax: real, now: nat, k: string)
    requires k != ""
    ensures var (g, tripped, b) := CheckLoopBudget(f, cfg, run, hash, usd, runMax, now);
            && RunUSD(g, k) == RunUSD(f, k) + (if b == k then usd else 0.0)
            && (tripped ==> b == "")
  {
  }

  // ---- one step ----------------------------------------------------------------------------------------------------

  /** What is counted beyond what is pending. */
  function Net(c: Fleet, r: nat, k: string): real {
    Counted(c, r, k) - Pending(c.reqs, r, k)
  }

  predicate InBooks(c: Fleet, r: nat, k: string) {
    r < |c.locals| && k in c.locals[r].scopes
  }

  /** Where a step takes Net, unless the floor stops it: a bill is counted while the budget is on the
      instance; billed to a budget that is gone, a request only stops pending. */
  function Expected(cfg: Config, c: Fleet, e: Event, r: nat, k: string): real {
    if e.Crash? && e.r == r && r < |c.locals| then 0.0
    else
      (if DropsBudget(cfg, c, e, r, k) then 0.0 else Counted(c, r, k)) - Pending(c.reqs, r, k) +
      if !Bills(c, e, r, k) then 0.0 else if InBooks(c, r, k) then e.actualUSD else c.reqs[e.i].usd
  }

  predicate Moved(cfg: Config, c: Fleet, e: Event, c': Fleet, r: nat, k: string) {
    Net(c', r, k) >= Expected(cfg, c, e, r, k) && (Net(c, r, k) >= 0.0 ==> Net(c', r, k) == Expected(cfg, c, e, r, k))
  }

  lemma ArriveSound(cfg: Config, c: Fleet, e: Event, n: nat)
    requires Sound(c, n) && e.Arrive? && e.r < n
    ensures Sound(DoArrive(cfg, c, e), n)
  {
    hide GC, CheckLoopBudget;
  }

  lemma PendingAppend(reqs: seq<Req>, q: Req, r: nat, k: string)
    ensures Pending(reqs + [q], r, k) == Pending(reqs, r, k) + if Holding(q, r, k) then q.usd else 0.0
  {
    assert (reqs + [q])[..|reqs|] == reqs;
  }

  lemma ArriveMoves(cfg: Config, c: Fleet, e: Event, n: nat, r: nat, k: string)
    requires e.Arrive? && e.r < n && n == |c.locals| && k != ""
    ensures Moved(cfg, c, e, DoArrive(cfg, c, e), r, k)
  {
    hide GC, CheckLoopBudget, Pending;
    var g, usd := GC(c.locals[e.r], cfg, c.clock), Floor0(e.usd);
    SweptBudget(c.locals[e.r], cfg, c.clock, k);
    HeldBudget(g, cfg, e.runKey, e.hash, usd, e.runMax, c.clock, k);
    if |DoArrive(cfg, c, e).reqs| > |c.reqs| {
      PendingAppend(c.reqs, DoArrive(cfg, c, e).reqs[|c.reqs|], r, k);
    }
  }

  lemma SettleMoves(cfg: Config, ttl: int, c: Fleet, e: Event, n: nat, r: nat, k: string)
    requires Sound(c, n) && k != "" && e.SettleReq? && e.actualUSD >= 0.0 && Applies(c, e)
    ensures Sound(Step(cfg, ttl, c, e), n) && Moved(cfg, c, e, Step(cfg, ttl, c, e), r, k)
  {
    hide BookAll, Pending;
    var q := c.reqs[e.i];
    var c' := Step(cfg, ttl, c, e);
    BookAllBudget(c.locals[q.replica], LocalKeys(q), Unix(c.clock), e.actualUSD - q.usd, e.actualTok - q.tok, k);
    PendingUpdate(c.reqs, e.i, c'.reqs[e.i], r, k);
    PendingAtLeast(c.reqs, n, e.i, r, k);
  }

  lemma ReleaseMoves(cfg: Config, ttl: int, c: Fleet, e: Event, n: nat, r: nat, k: string)
    requires Sound(c, n) && k != "" && e.ReleaseReq? && Applies(c, e)
    ensures Sound(Step(cfg, ttl, c, e), n) && Moved(cfg, c, e, Step(cfg, ttl, c, e), r, k)
  {
    hide FirewallSpec.ReleaseAll, Pending;
    var q := c.reqs[e.i];
    var c' := Step(cfg, ttl, c, e);
    ReleaseAllBudget(c.locals[q.replica], LocalKeys(q), !q.settled, q.usd, q.tok, Unix(c.clock), k);
    PendingUpdate(c.reqs, e.i, c'.reqs[e.i], r, k);
    PendingAtLeast(c.reqs, n, e.i, r, k);
  }

  lemma RollBackMoves(cfg: Config, ttl: int, c: Fleet, e: Event, n: nat, r: nat, k: string)
    requires Sound(c, n) && k != "" && e.RollBack? && Applies(c, e)
    ensures Sound(Step(cfg, ttl, c, e), n) && Moved(cfg, c, e, Step(cfg, ttl, c, e), r, k)
  {
    hide Pending;
    var c' := Step(cfg, ttl, c, e);
    PendingUpdate(c.reqs, e.i, c'.reqs[e.i], r, k);
    PendingAtLeast(c.reqs, n, e.i, r, k);
  }

  lemma FallBackMoves(cfg: Config, ttl: int, c: Fleet, e: Event, n: nat, r: nat, k: string)
    requires Sound(c, n) && k != "" && e.FallBack? && Applies(c, e)
    ensures Sound(Step(cfg, ttl, c, e), n) && Moved(cfg, c, e, Step(cfg, ttl, c, e), r, k)
  {
    hide CheckReserve, Pending;
    var q, c' := c.reqs[e.i], Step(cfg, ttl, c, e);
    CheckReserveBudget(c.locals[q.replica], q.scopes, q.usd, q.tok, c.clock, k);
    PendingUpdate(c.reqs, e.i, c'.reqs[e.i], r, k);
    PendingAtLeast(c.reqs, n, e.i, r, k);
  }

  lemma AskStoreMoves(cfg: Config, ttl: int, c: Fleet, e: Event, n: nat, r: nat, k: string)
    requires Sound(c, n) && e.AskStore? && Applies(c, e)
    ensures Sound(Step(cfg, ttl, c, e), n) && Moved(cfg, c, e, Step(cfg, ttl, c, e), r, k)
  {
    hide SharedSpec.Reserve, Pending;
    PendingUpdate(c.reqs, e.i, Step(cfg, ttl, c, e).reqs[e.i], r, k);
  }

  lemma CrashMoves(cfg: Config, ttl: int, c: Fleet, e: Event, n: nat, r: nat, k: string)
    requires Sound(c, n) && e.Crash? && Applies(c, e)
    ensures Sound(Step(cfg, ttl, c, e), n) && Moved(cfg, c, e, Step(cfg, ttl, c, e), r, k)
  {
    hide Pending;
    PendingCrash(c.reqs, e.r, r, k);
  }

  lemma StepMoves(cfg: Config, ttl: int, c: Fleet, e: Event, n: nat, r: nat, k: string)
    requires Sound(c, n) && k != "" && (e.SettleReq? ==> e.actualUSD >= 0.0)
    ensures Sound(Step(cfg, ttl, c, e), n) && Moved(cfg, c, e, Step(cfg, ttl, c, e), r, k)
  {
    if e.StoreFree? || e.StoreAdjust? || e.Pass? || !Applies(c, e) {
      OtherMoves(cfg, ttl, c, e, n, r, k);
    } else {
      hide ReqsSound, Moved, Step;
      match e
      case Arrive(_, _, _, _, _, _, _) =>
        ArriveSound(cfg, c, e, n);
        ArriveMoves(cfg, c, e, n, r, k);
        assert Step(cfg, ttl, c, e) == DoArrive(cfg, c, e) by {
          ArriveStep(cfg, ttl, c, e);
        }
      case AskStore(_, _) => AskStoreMoves(cfg, ttl, c, e, n, r, k);
      case RollBack(_) => RollBackMoves(cfg, ttl, c, e, n, r, k);
      case FallBack(_) => FallBackMoves(cfg, ttl, c, e, n, r, k);
      case SettleReq(_, _, _) => SettleMoves(cfg, ttl, c, e, n, r, k);
      case ReleaseReq(_) => ReleaseMoves(cfg, ttl, c, e, n, r, k);
      case Crash(_) => CrashMoves(cfg, ttl, c, e, n, r, k);
    }
  }

  lemma ArriveStep(cfg: Config, ttl: int, c: Fleet, e: Event)
    requires e.Arrive? && Applies(c, e)
    ensures Step(cfg, ttl, c, e) == DoArrive(cfg, c, e)
  {
  }

  lemma OtherMoves(cfg: Config, ttl: int, c: Fleet, e: Event, n: nat, r: nat, k: string)
    requires Sound(c, n) && (e.StoreFree? || e.StoreAdjust? || e.Pass? || !Applies(c, e))
    ensures Sound(Step(cfg, ttl, c, e), n) && Moved(cfg, c, e, Step(cfg, ttl, c, e), r, k)
  {
    hide Pending;
  }

  /** An exact account stays exact through a step exactly when the step does not forget. */
  lemma StepExact(cfg: Config, ttl: int, c: Fleet, e: Event, n: nat, r: nat, k: string, spent: real)
    requires Sound(c, n) && r < n && k != "" && spent >= 0.0 && Exact(c, r, k, spent) && (e.SettleReq? ==> e.actualUSD >= 0.0)
    ensures var c' := Step(cfg, ttl, c, e);
            Sound(c', n) && (Exact(c', r, k, SpentAfter(cfg, c, e, r, k, spent)) <==> !Forgets(cfg, c, e, r, k))
  {
    hide Step, Pending, GC;
    StepMoves(cfg, ttl, c, e, n, r, k);
    PendingAtLeast(c.reqs, n, if Bills(c, e, r, k) then e.i else -1, r, k);
  }

  // ---- whole runs -----------------------------------------------------------------------------------------------------

  ghost predicate ActualsNonNegative(es: seq<Event>) {
    forall i :: 0 <= i < |es| && es[i].SettleReq? ==> es[i].actualUSD >= 0.0
  }

  /** At every point of the run, the instance counts what the run was billed and what is held on it. */
  predicate AlwaysExact(cfg: Config, ttl: int, n: nat, es: seq<Event>, r: nat, k: string) {
    && Exact(Run(cfg, ttl, n, es), r, k, Spent(cfg, ttl, n, es, r, k))
    && (es != [] ==> AlwaysExact(cfg, ttl, n, es[..|es| - 1], r, k))
  }

  predicate NeverForgets(cfg: Config, ttl: int, n: nat, es: seq<Event>, r: nat, k: string) {
    es != [] ==>
      && NeverForgets(cfg, ttl, n, es[..|es| - 1], r, k)
      && !Forgets(cfg, Run(cfg, ttl, n, es[..|es| - 1]), es[|es| - 1], r, k)
  }

  lemma SpentStaysNonNegative(cfg: Config, ttl: int, n: nat, es: seq<Event>, r: nat, k: string)
    requires ActualsNonNegative(es)
    ensures Spent(cfg, ttl, n, es, r, k) >= 0.0
  {
    if es != [] {
      SpentStaysNonNegative(cfg, ttl, n, es[..|es| - 1], r, k);
    }
  }

  /** With a shared store, the instance's account of a run is exact throughout if and only if no
      sweep drops its budget while estimates are held on it and no usage is billed to a budget
      that is gone. */
  lemma {:induction false} RunAccountExactIff(cfg: Config, ttl: int, n: nat, es: seq<Event>, r: nat, k: string)
    requires r < n && k != "" && ActualsNonNegative(es)
    ensures AlwaysExact(cfg, ttl, n, es, r, k) <==> NeverForgets(cfg, ttl, n, es, r, k)
    ensures NeverForgets(cfg, ttl, n, es, r, k) ==> Sound(Run(cfg, ttl, n, es), n)
  {
    if es != [] {
      hide Step, Exact, Forgets, SpentAfter;
      var pre := es[..|es| - 1];
      RunAccountExactIff(cfg, ttl, n, pre, r, k);
      SpentStaysNonNegative(cfg, ttl, n, pre, r, k);
      if NeverForgets(cfg, ttl, n, pre, r, k) {
        StepExact(cfg, ttl, Run(cfg, ttl, n, pre), es[|es| - 1], n, r, k, Spent(cfg, ttl, n, pre, r, k));
      }
    }
  }

  // ---- the run's cap ----------------------------------------------------------------------------------------------------

  /** Requests of run k carry its cap, and none is billed above its estimate. */
  ghost predicate WithinEstimate(c: Fleet, e: Event, k: string, max: real) {
    && (e.Arrive? && e.runKey == k ==> e.runMax == max)
    && (e.SettleReq? && e.i < |c.reqs| ==> 0.0 <= e.actualUSD <= c.reqs[e.i].usd)
  }

  ghost predicate AllWithinEstimate(cfg: Config, ttl: int, n: nat, es: seq<Event>, k: string, max: real) {
    es != [] ==>
      && AllWithinEstimate(cfg, ttl, n, es[..|es| - 1], k, max)
      && WithinEstimate(Run(cfg, ttl, n, es[..|es| - 1]), es[|es| - 1], k, max)
  }

  lemma ArriveWithinCap(cfg: Config, c: Fleet, e: Event, r: nat, k: string, max: real)
    requires e.Arrive? && e.r < |c.locals| && k != "" && max > 0.0 && WithinEstimate(c, e, k, max)
    requires 0.0 <= Counted(c, r, k) <= max
    ensures 0.0 <= Counted(DoArrive(cfg, c, e), r, k) <= max
  {
  }

  lemma StepWithinCap(cfg: Config, ttl: int, c: Fleet, e: Event, n: nat, r: nat, k: string, max: real)
    requires Sound(c, n) && k != "" && max > 0.0 && WithinEstimate(c, e, k, max)
    requires 0.0 <= Counted(c, r, k) <= max
    ensures 0.0 <= Counted(Step(cfg, ttl, c, e), r, k) <= max
  {
    hide SharedSpec.Reserve, CheckReserve, CheckLoopBudget, BookAll, FirewallSpec.ReleaseAll, GC;
    if Applies(c, e) {
      match e
      case Arrive(_, _, _, _, _, _, _) => ArriveWithinCap(cfg, c, e, r, k, max);
      case AskStore(_, _) =>
      case RollBack(_) =>
      case FallBack(i) =>
        var q := c.reqs[i];
        CheckReserveBudget(c.locals[q.replica], q.scopes, q.usd, q.tok, c.clock, k);
      case SettleReq(i, usd, tok) =>
        var q := c.reqs[i];
        BookAllBudget(c.locals[q.replica], LocalKeys(q), Unix(c.clock), usd - q.usd, tok - q.tok, k);
      case ReleaseReq(i) =>
        var q := c.reqs[i];
        ReleaseAllBudget(c.locals[q.replica], LocalKeys(q), !q.settled, q.usd, q.tok, Unix(c.clock), k);
      case StoreFree(_) =>
      case StoreAdjust(_, _, _) =>
      case Crash(_) =>
      case Pass(_) =>
    }
  }

  /** What was pending on the run when its budget was last dropped. */
  function Forgotten(cfg: Config, ttl: int, n: nat, es: seq<Event>, r: nat, k: string): real {
    if es == [] then 0.0
    else
      var pre, e := es[..|es| - 1], es[|es| - 1];
      var c := Run(cfg, ttl, n, pre);
      if DropsBudget(cfg, c, e, r, k) then Pending(c.reqs, r, k)
      else if e.Crash? && e.r == r then 0.0
      else Forgotten(cfg, ttl, n, pre, r, k)
  }

  /** What is counted is within the cap, and misses no more of the run's spend than was forgotten. */
  ghost predicate Covers(c: Fleet, r: nat, k: string, max: real, spent: real, lost: real) {
    0.0 <= Counted(c, r, k) <= max && spent - lost <= Net(c, r, k)
  }

  lemma StepCovers(cfg: Config, ttl: int, c: Fleet, e: Event, n: nat, r: nat, k: string, max: real, spent: real, lost: real)
    requires Sound(c, n) && r < n && k != "" && max > 0.0 && WithinEstimate(c, e, k, max) && (e.SettleReq? ==> e.actualUSD >= 0.0)
    requires Covers(c, r, k, max, spent, lost)
    ensures var lost' := if DropsBudget(cfg, c, e, r, k) then Pending(c.reqs, r, k) else if e.Crash? && e.r == r then 0.0 else lost;
            Covers(Step(cfg, ttl, c, e), r, k, max, SpentAfter(cfg, c, e, r, k, spent), lost')
  {
    hide Step, Pending, GC, Counted;
    StepMoves(cfg, ttl, c, e, n, r, k);
    StepWithinCap(cfg, ttl, c, e, n, r, k, max);
  }

  lemma {:induction false} RunCovers(cfg: Config, ttl: int, n: nat, es: seq<Event>, r: nat, k: string, max: real)
    requires r < n && k != "" && max > 0.0 && AllWithinEstimate(cfg, ttl, n, es, k, max) && ActualsNonNegative(es)
    ensures var c := Run(cfg, ttl, n, es);
            Sound(c, n) && Covers(c, r, k, max, Spent(cfg, ttl, n, es, r, k), Forgotten(cfg, ttl, n, es, r, k))
  {
    if es != [] {
      hide Step, SpentAfter, WithinEstimate, Covers, Sound, DropsBudget;
      var pre := es[..|es| - 1];
      var c := Run(cfg, ttl, n, pre);
      RunCovers(cfg, ttl, n, pre, r, k, max);
      StepMoves(cfg, ttl, c, es[|es| - 1], n, r, k);
      StepCovers(cfg, ttl, c, es[|es| - 1], n, r, k, max, Spent(cfg, ttl, n, pre, r, k), Forgotten(cfg, ttl, n, pre, r, k));
    }
  }

  /** In every run, a run's spend at a replica is within its cap and what was pending on it when its
      budget was last dropped there. */
  lemma RunWithinCapAndForgotten(cfg: Config, ttl: int, n: nat, es: seq<Event>, r: nat, k: string, max: real)
    requires r < n && k != "" && max > 0.0 && AllWithinEstimate(cfg, ttl, n, es, k, max) && ActualsNonNegative(es)
    ensures Spent(cfg, ttl, n, es, r, k) <= max + Forgotten(cfg, ttl, n, es, r, k)
  {
    RunCovers(cfg, ttl, n, es, r, k, max);
    PendingAtLeast(Run(cfg, ttl, n, es).reqs, n, -1, r, k);
  }

  lemma {:induction false} NothingForgotten(cfg: Config, ttl: int, n: nat, es: seq<Event>, r: nat, k: string, max: real)
    requires r < n && k != "" && max > 0.0 && AllWithinEstimate(cfg, ttl, n, es, k, max) && ActualsNonNegative(es)
    requires NeverForgets(cfg, ttl, n, es, r, k)
    ensures Forgotten(cfg, ttl, n, es, r, k) == 0.0
  {
    if es != [] {
      hide Step, WithinEstimate, DropsBudget, Pending;
      var pre := es[..|es| - 1];
      NothingForgotten(cfg, ttl, n, pre, r, k, max);
      RunCovers(cfg, ttl, n, pre, r, k, max);
      PendingAtLeast(Run(cfg, ttl, n, pre).reqs, n, -1, r, k);
    }
  }

  /** An account that never forgets keeps its run within the cap at the replica. */
  lemma ExactRunWithinCap(cfg: Config, ttl: int, n: nat, es: seq<Event>, r: nat, k: string, max: real)
    requires r < n && k != "" && max > 0.0 && AllWithinEstimate(cfg, ttl, n, es, k, max) && ActualsNonNegative(es)
    requires NeverForgets(cfg, ttl, n, es, r, k)
    ensures Spent(cfg, ttl, n, es, r, k) <= max
  {
    RunWithinCapAndForgotten(cfg, ttl, n, es, r, k, max);
    NothingForgotten(cfg, ttl, n, es, r, k, max);
  }

  // ---- a run that passes its cap --------------------------------------------------------------------------------------------

  /** Two requests of one run, two minutes apart, both held by the store and billed what they estimated. */
  function Slow(sc: Scope, usd: real): seq<Event> {
    var ask := Arrive(0, [sc], sc.key, "", sc.limits.usdPerRun, usd, 0);
    [ask, AskStore(0, NoFault), Pass(121 * SECOND), ask, AskStore(1, NoFault), SettleReq(0, usd, 0), SettleReq(1, usd, 0)]
  }

  /** Either request fits the run's cap; the two together do not. */
  predicate RunScope(sc: Scope, usd: real) {
    sc.key != "" && sc.limits.usdPerRun > 0.0 && sc.limits == Limits(sc.limits.usdPerRun, 0, 0, sc.limits.usdPerRun)
    && 0.0 < usd <= sc.limits.usdPerRun < usd + usd
  }

  lemma RunThen(cfg: Config, ttl: int, n: nat, es: seq<Event>, e: Event, r: nat, k: string)
    ensures Run(cfg, ttl, n, es + [e]) == Step(cfg, ttl, Run(cfg, ttl, n, es), e)
    ensures Spent(cfg, ttl, n, es + [e], r, k) == SpentAfter(cfg, Run(cfg, ttl, n, es), e, r, k, Spent(cfg, ttl, n, es, r, k))
    ensures Forgotten(cfg, ttl, n, es + [e], r, k) ==
            if DropsBudget(cfg, Run(cfg, ttl, n, es), e, r, k) then Pending(Run(cfg, ttl, n, es).reqs, r, k)
            else if e.Crash? && e.r == r then 0.0 else Forgotten(cfg, ttl, n, es, r, k)
  {
    assert (es + [e])[..|es|] == es;
  }

  /** The request as it stands once the store holds it. */
  function Stored(sc: Scope, usd: real, at: int): Req {
    Req(0, [sc], usd, 0, sc.key, at, InStore, false, false)
  }

  lemma StoreHasRoom(s: Shared, sc: Scope, usd: real, now: int)
    requires RunScope(sc, usd) && Used(s, Dollars, sc.key, now) == 0.0
    ensures SharedCaps([sc]) == [CapFor(sc)] && CheckAll(s, SharedCaps([sc]), usd, 0, now) == Reserved
    ensures forall id, ttl :: LogAt(SharedSpec.ReserveAll(s, SharedCaps([sc]), usd, 0, id, now, ttl), Dollars, sc.key) ==
                              LogAt(s, Dollars, sc.key) + [Entry(now, usd)]
  {
    assert SharedCaps([sc][1..]) == [];
    assert [CapFor(sc)][1..] == [];
    assert CheckAll(s, [CapFor(sc)][1..], usd, 0, now) == Reserved;
  }

  /** A request that finds no budget recorded and room in the store. */
  lemma ArrivedAndAsked(cfg: Config, ttl: int, c: Fleet, sc: Scope, usd: real)
    requires RunScope(sc, usd) && |c.locals| == 1 && sc.key !in GC(c.locals[0], cfg, c.clock).scopes
    requires Used(c.shared, Dollars, sc.key, Unix(c.clock)) == 0.0
    ensures var c1 := Step(cfg, ttl, c, Slow(sc, usd)[0]);
            var c2 := Step(cfg, ttl, c1, AskStore(|c.reqs|, NoFault));
            && |c2.locals| == 1 && c2.clock == c.clock
            && c1.reqs == c.reqs + [Stored(sc, usd, Unix(c.clock)).(phase := Checked)]
            && c2.reqs == c.reqs + [Stored(sc, usd, Unix(c.clock))]
            && c2.locals[0].lastGC == GC(c.locals[0], cfg, c.clock).lastGC
            && c2.locals[0].scopes == GC(c.locals[0], cfg, c.clock).scopes[sc.key := FreshScope.(lastTouch := c.clock, runUSD := usd)]
            && LogAt(c2.shared, Dollars, sc.key) == LogAt(c.shared, Dollars, sc.key) + [Entry(Unix(c.clock), usd)]
  {
    StoreHasRoom(c.shared, sc, usd, Unix(c.clock));
    hide GC, SharedSpec.ReserveAll, CheckAll;
  }

  /** Two minutes later the sweep finds the run's scope idle. */
  lemma SlowSwept(cfg: Config, f: Fw, k: string, usd: real)
    requires f.lastGC == 0 && f.scopes == map[k := FreshScope.(lastTouch := 0, runUSD := usd)]
    ensures GC(f, cfg, 121 * SECOND).scopes == map[]
  {
    assert Unix(121 * SECOND) == 121;
    TotalEmpty(FreshScope.window.Stamp(121) - WINDOW + 1, WINDOW);
    assert Idle(f.scopes[k], 121 * SECOND);
  }

  /** The first request held by the store. */
  lemma SlowStored(cfg: Config, ttl: int, sc: Scope, usd: real)
    requires RunScope(sc, usd)
    ensures var c := Run(cfg, ttl, 1, Slow(sc, usd)[..2]);
            && |c.locals| == 1 && c.clock == 0 && c.reqs == [Stored(sc, usd, 0)] && c.locals[0].lastGC == 0
            && c.locals[0].scopes == map[sc.key := FreshScope.(lastTouch := 0, runUSD := usd)]
            && LogAt(c.shared, Dollars, sc.key) == [Entry(0, usd)]
  {
    hide Step, RunScope;
    var es, k := Slow(sc, usd), sc.key;
    assert es[..1] == [] + [es[0]] && es[..2] == es[..1] + [es[1]];
    RunThen(cfg, ttl, 1, [], es[0], 0, k);
    RunThen(cfg, ttl, 1, es[..1], es[1], 0, k);
    assert GC(EmptyFw, cfg, 0).scopes == map[] && GC(EmptyFw, cfg, 0).lastGC == 0;
    TotalEmpty(0 - WINDOW + 1, WINDOW);
    ArrivedAndAsked(cfg, ttl, Boot(1), sc, usd);
  }

  /** Two minutes on. */
  lemma SlowFirst(cfg: Config, ttl: int, sc: Scope, usd: real)
    requires RunScope(sc, usd)
    ensures var c := Run(cfg, ttl, 1, Slow(sc, usd)[..3]);
            && |c.locals| == 1 && c.clock == 121 * SECOND && c.reqs == [Stored(sc, usd, 0)]
            && sc.key in c.locals[0].scopes && GC(c.locals[0], cfg, c.clock).scopes == map[]
            && Used(c.shared, Dollars, sc.key, Unix(c.clock)) == 0.0
  {
    hide Run, GC, RunScope;
    var es, k := Slow(sc, usd), sc.key;
    SlowStored(cfg, ttl, sc, usd);
    assert es[..3] == es[..2] + [es[2]];
    RunThen(cfg, ttl, 1, es[..2], es[2], 0, k);
    SlowSwept(cfg, Run(cfg, ttl, 1, es[..2]).locals[0], k, usd);
    assert Unix(121 * SECOND) == 121;
    assert [] + [Entry(0, usd)] == [Entry(0, usd)];
    TotalEmpty(121 - WINDOW + 1, WINDOW);
    TotalAppend([], Entry(0, usd), 121 - WINDOW + 1, WINDOW);
  }

  /** Its budget is dropped under it, and a second request is admitted. */
  lemma SlowSecond(cfg: Config, ttl: int, sc: Scope, usd: real)
    requires RunScope(sc, usd)
    ensures var es := Slow(sc, usd);
            var c := Run(cfg, ttl, 1, es[..5]);
            && |c.locals| == 1 && c.reqs == [Stored(sc, usd, 0), Stored(sc, usd, 121)]
            && sc.key in c.locals[0].scopes && c.locals[0].scopes[sc.key].runUSD == usd && c.locals[0].scopes[sc.key].billed == 0.0
            && Spent(cfg, ttl, 1, es[..5], 0, sc.key) == 0.0 && Forgotten(cfg, ttl, 1, es[..5], 0, sc.key) == usd
            && Forgets(cfg, Run(cfg, ttl, 1, es[..3]), es[3], 0, sc.key)
  {
    hide Step, GC, Run, Used, Spent, Forgotten;
    var es, k := Slow(sc, usd), sc.key;
    SlowFirst(cfg, ttl, sc, usd);
    assert es[..4] == es[..3] + [es[3]] && es[..5] == es[..4] + [es[4]];
    RunThen(cfg, ttl, 1, es[..3], es[3], 0, k);
    RunThen(cfg, ttl, 1, es[..4], es[4], 0, k);
    assert Unix(121 * SECOND) == 121;
    var c3 := Run(cfg, ttl, 1, es[..3]);
    ArrivedAndAsked(cfg, ttl, c3, sc, usd);
    OneStored(sc, usd);
  }

  lemma OneStored(sc: Scope, usd: real)
    ensures Pending([Stored(sc, usd, 0)], 0, sc.key) == usd
  {
    assert [Stored(sc, usd, 0)][..0] == [];
  }

  /** Settled at its estimate, a request leaves the count of its run where it was. */
  lemma SettledAtEstimate(cfg: Config, ttl: int, c: Fleet, sc: Scope, usd: real, i: nat, at: int)
    requires RunScope(sc, usd) && |c.locals| == 1 && i < |c.reqs| && c.reqs[i] == Stored(sc, usd, at)
    requires sc.key in c.locals[0].scopes && c.locals[0].scopes[sc.key].runUSD == usd
    ensures var c' := Step(cfg, ttl, c, SettleReq(i, usd, 0));
            && |c'.locals| == 1 && c'.reqs == c.reqs[i := Stored(sc, usd, at).(settled := true)]
            && sc.key in c'.locals[0].scopes && c'.locals[0].scopes[sc.key].runUSD == usd
            && c'.locals[0].scopes[sc.key].billed == c.locals[0].scopes[sc.key].billed + usd
    ensures SpentAfter(cfg, c, SettleReq(i, usd, 0), 0, sc.key, 0.0) == usd
    ensures SpentAfter(cfg, c, SettleReq(i, usd, 0), 0, sc.key, usd) == usd + usd
  {
    assert BookAll(c.locals[0], [], Unix(c.clock), 0.0, 0) == c.locals[0];
  }

  /** A request the store holds does not pin its run's budget: the sweep drops it after two minutes,
      and with every request billed exactly its estimate the run is billed past its cap, while the
      instance still counts half of it. */
  lemma SlowRunPassesItsCap(cfg: Config, ttl: int, sc: Scope, usd: real)
    requires RunScope(sc, usd)
    ensures var es := Slow(sc, usd);
            var c := Run(cfg, ttl, 1, es);
            && Run(cfg, ttl, 1, es[..3]).reqs == [Stored(sc, usd, 0)]
            && Forgets(cfg, Run(cfg, ttl, 1, es[..3]), es[3], 0, sc.key)
            && |c.locals| == 1 && c.reqs == [Stored(sc, usd, 0).(settled := true), Stored(sc, usd, 121).(settled := true)]
            && Billed(c.locals[0], sc.key) == Spent(cfg, ttl, 1, es, 0, sc.key) == usd + usd > sc.limits.usdPerRun
            && Forgotten(cfg, ttl, 1, es, 0, sc.key) == Counted(c, 0, sc.key) == usd
  {
    hide Step, Run, SpentAfter, Forgets, Spent, Forgotten, GC;
    var es, k := Slow(sc, usd), sc.key;
    SlowFirst(cfg, ttl, sc, usd);
    SlowSecond(cfg, ttl, sc, usd);
    assert es[..6] == es[..5] + [es[5]] && es == es[..6] + [es[6]];
    RunThen(cfg, ttl, 1, es[..5], es[5], 0, k);
    RunThen(cfg, ttl, 1, es[..6], es[6], 0, k);
    SettledAtEstimate(cfg, ttl, Run(cfg, ttl, 1, es[..5]), sc, usd, 0, 0);
    SettledAtEstimate(cfg, ttl, Run(cfg, ttl, 1, es[..6]), sc, usd, 1, 121);
  }
}
