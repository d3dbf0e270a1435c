/** Caps that hold in every reachable state of one instance in local mode. */
module FirewallBounds {
  import opened FirewallSpec
  import opened FirewallSteps
  import opened FirewallAdmission
  import opened FirewallRuns

  // ---- concurrency ---------------------------------------------------------------------------

  /** Every request that names k caps it at m and names it once. */
  ghost predicate FixedConcurrency(cfg: Config, t: Target, k: string, m: int) {
    && (forall sc :: sc in TargetScopes(cfg, t) && sc.key == k ==> sc.limits.concurrent == m)
    && multiset(ScopeKeys(TargetScopes(cfg, t)))[k] <= 1
  }

  ghost predicate FixedConcurrencyOps(cfg: Config, ops: seq<Op>, k: string, m: int) {
    forall i :: 0 <= i < |ops| && ops[i].Request? ==> FixedConcurrency(cfg, ops[i].target, k, m)
  }

  lemma StepConcurrency(cfg: Config, s: Sys, op: Op, k: string, m: int)
    requires Inv(s) && (op.SettleOp? ==> op.usd >= 0.0) && m > 0
    requires op.Request? ==> FixedConcurrency(cfg, op.target, k, m)
    requires Inflight(s.fw, k) <= m
    ensures Inflight(Step(cfg, s, op).fw, k) <= m
  {
    var s' := Step(cfg, s, op);
    StepKeepsInv(cfg, s, op);
    match op
    case Request(t, hash, usd, tok, remote, now) =>
      RunUSDNonNegative(s);
      EnterReadings(s.fw, cfg, t, hash, usd, tok, remote, now);
      BaseReadings(s.fw, cfg, t, remote, now);
      EnterTicket(s.fw, cfg, t, hash, usd, tok, remote, now);
      var v := Enter(s.fw, cfg, t, hash, usd, tok, remote, now).1;
      assert Inflight(Base(s.fw, cfg, t, remote, now), k) == Inflight(s.fw, k);
      if v.Admitted? && k in v.ticket.keys {
        AdmittedFits(s.fw, cfg, t, hash, usd, tok, remote, now);
        var sc := NamedScope(TargetScopes(cfg, t), k);
        assert ConcurrencyFits(s.fw, sc);
      }
    case SettleOp(i, _, _, _) =>
      ReconcileLowersHolds(cfg, s, op, k);
    case ReleaseOp(i, _) =>
      ReconcileLowersHolds(cfg, s, op, k);
    case KillRun(_, _) =>
    case RunKilled(_, _, _) =>
  }

  lemma ReconcileLowersHolds(cfg: Config, s: Sys, op: Op, k: string)
    requires Inv(s) && (op.SettleOp? || op.ReleaseOp?) && Inv(Step(cfg, s, op))
    ensures Inflight(Step(cfg, s, op).fw, k) <= Inflight(s.fw, k)
  {
    var s' := Step(cfg, s, op);
    var i := op.i;
    if i < |s.tickets| {
      SumUpdate(HeldOn(k), s.tickets, i, s'.tickets[i]);
      assert s'.tickets == s.tickets[i := s'.tickets[i]];
    }
    assert Inflight(s.fw, k) as real == SumOf(HeldOn(k), s.tickets);
  }

  /** In-flight requests on a scope never exceed its cap. */
  lemma {:induction false} ConcurrencyBound(cfg: Config, ops: seq<Op>, k: string, m: int)
    requires ActualsNonNegative(ops) && FixedConcurrencyOps(cfg, ops, k, m) && m > 0
    ensures Inflight(Run(cfg, ops).fw, k) <= m
  {
    if ops != [] {
      var pre := ops[..|ops| - 1];
      ConcurrencyBound(cfg, pre, k, m);
      AccountingExact(cfg, pre);
      StepConcurrency(cfg, Run(cfg, pre), ops[|ops| - 1], k, m);
    }
  }

  // ---- the per-run dollar budget ----------------------------------------------------------------

  /** Every request of run k carries the same budget. */
  ghost predicate FixedRun(cfg: Config, t: Target, k: string, budget: real) {
    TargetRunKey(t) == k ==> TargetRunMax(cfg, t) == budget
  }

  ghost predicate FixedRunOps(cfg: Config, ops: seq<Op>, k: string, budget: real) {
    forall i :: 0 <= i < |ops| && ops[i].Request? ==> FixedRun(cfg, ops[i].target, k, budget)
  }

  /** Every request of run k names scope j, and every request that names j caps it at m in flight. j
      can be the run's own scope, its client's, or the node of its key. */
  ghost predicate Under(cfg: Config, t: Target, k: string, j: string, m: int) {
    && (TargetRunKey(t) == k ==> j in ScopeKeys(TargetScopes(cfg, t)))
    && (forall sc :: sc in TargetScopes(cfg, t) && sc.key == j ==> sc.limits.concurrent == m)
  }

  ghost predicate UnderOps(cfg: Config, ops: seq<Op>, k: string, j: string, m: int) {
    forall i :: 0 <= i < |ops| && ops[i].Request? ==> Under(cfg, ops[i].target, k, j, m)
  }

  /** The tickets of run k name j. */
  ghost predicate RunNames(ts: seq<Ticket>, k: string, j: string) {
    forall i {:trigger ts[i]} :: 0 <= i < |ts| && ts[i].runKey == k ==> j in ts[i].keys
  }

  /** A settle on run k bills at most its estimate plus e. */
  ghost predicate SettleWithin(s: Sys, op: Op, k: string, e: real) {
    op.SettleOp? ==> op.usd >= 0.0 && (op.i < |s.tickets| && s.tickets[op.i].runKey == k ==> op.usd <= s.tickets[op.i].usd + e)
  }

  ghost predicate SettlesWithin(cfg: Config, ops: seq<Op>, k: string, e: real) {
    ops != [] ==>
      && SettlesWithin(cfg, ops[..|ops| - 1], k, e)
      && SettleWithin(Run(cfg, ops[..|ops| - 1]), ops[|ops| - 1], k, e)
  }

  /** Spend on the run, plus e for every ticket that may still settle above its estimate. */
  function Exposure(s: Sys, k: string, e: real): real {
    RunUSD(s.fw, k) + SumOf(PendingSlack(k, e), s.tickets)
  }

  lemma {:induction false} SlackScales(k: string, e: real, ts: seq<Ticket>)
    ensures SumOf(PendingSlack(k, e), ts) == e * SumOf(PendingSlack(k, 1.0), ts)
  {
    if ts != [] {
      var n := |ts| - 1;
      SlackScales(k, e, ts[..n]);
      var a, w := SumOf(PendingSlack(k, 1.0), ts[..n]), Weight(PendingSlack(k, 1.0), ts[n]);
      assert Weight(PendingSlack(k, e), ts[n]) == e * w;
      assert e * (a + w) == e * a + e * w;
    }
  }

  /** At most as many tickets are pending on a run as are in flight on a scope they all name. */
  lemma PendingAtMostInflight(s: Sys, k: string, j: string, e: real)
    requires Inv(s) && e >= 0.0 && RunNames(s.tickets, k, j)
    ensures SumOf(PendingSlack(k, e), s.tickets) <= e * Inflight(s.fw, j) as real
  {
    var ts := s.tickets;
    forall i | 0 <= i < |ts|
      ensures Weight(PendingSlack(k, 1.0), ts[i]) <= Weight(HeldOn(j), ts[i])
    {
      if Pending(ts[i], k) {
        assert multiset(ts[i].keys)[j] >= 1;
      }
    }
    SumLeq(PendingSlack(k, 1.0), HeldOn(j), ts);
    SlackScales(k, e, ts);
    assert Inflight(s.fw, j) as real == SumOf(HeldOn(j), ts);
    MulMono(e, SumOf(PendingSlack(k, 1.0), ts), Inflight(s.fw, j) as real);
  }

  lemma MulMono(e: real, a: real, b: real)
    requires e >= 0.0 && a <= b
    ensures e * a <= e * b
  {
  }

  /** A request admitted under the in-flight cap still fits the slack. */
  lemma RoomForOneMore(s: Sys, k: string, j: string, m: int, e: real)
    requires Inv(s) && e >= 0.0 && RunNames(s.tickets, k, j) && Inflight(s.fw, j) < m
    ensures SumOf(PendingSlack(k, e), s.tickets) + e <= e * m as real
  {
    PendingAtMostInflight(s, k, j, e);
    MulMono(e, Inflight(s.fw, j) as real, (m - 1) as real);
    assert e * (m - 1) as real + e == e * m as real;
  }

  /** Spend and slack are within the budget and e for each request that may be in flight. With e = 0
      nothing needs to bound those. */
  ghost predicate WithinBudget(s: Sys, k: string, budget: real, j: string, m: int, e: real) {
    Exposure(s, k, e) <= budget + e * m as real && (e > 0.0 ==> RunNames(s.tickets, k, j))
  }

  lemma StepExposure(cfg: Config, s: Sys, op: Op, k: string, budget: real, j: string, m: int, e: real)
    requires Inv(s) && SettleWithin(s, op, k, e) && k != "" && budget > 0.0 && e >= 0.0
    requires op.Request? ==> FixedRun(cfg, op.target, k, budget)
    requires e > 0.0 ==> m > 0 && (op.Request? ==> Under(cfg, op.target, k, j, m))
    requires WithinBudget(s, k, budget, j, m, e)
    ensures WithinBudget(Step(cfg, s, op), k, budget, j, m, e)
  {
    match op
    case Request(_, _, _, _, _, _) => RequestExposure(cfg, s, op, k, budget, j, m, e);
    case SettleOp(_, _, _, _) =>
      SettleExposure(cfg, s, op, k, e);
      ReconcileKeepsNames(cfg, s, op, k, j);
    case ReleaseOp(_, _) =>
      ReleaseExposure(cfg, s, op, k, e);
      ReconcileKeepsNames(cfg, s, op, k, j);
    case KillRun(_, _) =>
    case RunKilled(_, _, _) =>
  }

  lemma ReconcileKeepsNames(cfg: Config, s: Sys, op: Op, k: string, j: string)
    requires op.SettleOp? || op.ReleaseOp?
    ensures RunNames(s.tickets, k, j) ==> RunNames(Step(cfg, s, op).tickets, k, j)
  {
    hide BookAll, ReleaseAll;
  }

  lemma RequestExposure(cfg: Config, s: Sys, op: Op, k: string, budget: real, j: string, m: int, e: real)
    requires Inv(s) && op.Request? && FixedRun(cfg, op.target, k, budget)
    requires k != "" && budget > 0.0 && e >= 0.0 && (e > 0.0 ==> m > 0 && Under(cfg, op.target, k, j, m))
    requires WithinBudget(s, k, budget, j, m, e)
    ensures WithinBudget(Step(cfg, s, op), k, budget, j, m, e)
  {
    hide Enter, Base, TargetScopes, TargetRunKey, TargetRunMax, Inv, Under, SumOf, RunNames;
    var Request(t, hash, usd, tok, remote, now) := op;
    var b := Base(s.fw, cfg, t, remote, now);
    RunUSDNonNegative(s);
    InvIsValid(s);
    if !cfg.enabled {
      DisabledHoldsNothing(s.fw, cfg, t, hash, usd, tok, remote, now);
    }
    EnterReadings(s.fw, cfg, t, hash, usd, tok, remote, now);
    EnterTicket(s.fw, cfg, t, hash, usd, tok, remote, now);
    BaseReadings(s.fw, cfg, t, remote, now);
    var (g, v) := Enter(s.fw, cfg, t, hash, usd, tok, remote, now);
    assert RunUSD(b, k) <= RunUSD(s.fw, k);
    if v.Denied? {
      assert RunUSD(g, k) == RunUSD(b, k);
    } else {
      assert RunUSD(g, k) == RunUSD(b, k) + if k == v.ticket.runKey then v.ticket.usd else 0.0;
      if v.ticket.runKey == k {
        AdmittedFits(s.fw, cfg, t, hash, usd, tok, remote, now);
        RoomLeft(cfg, s, t, k, j, m, e);
      }
      AdmittedExposure(s, g, v.ticket, k, budget, e, e * m as real);
      if e > 0.0 {
        AdmittedNames(cfg, t, s.tickets, v.ticket, k, j, m);
      }
    }
  }

  /** A ticket of run k that leaves the spend within the budget and fits the room takes e of it. */
  lemma AdmittedExposure(s: Sys, g: Fw, t: Ticket, k: string, budget: real, e: real, room: real)
    requires Exposure(s, k, e) <= budget + room && k != "" && e >= 0.0
    requires t.runKey != k ==> RunUSD(g, k) <= RunUSD(s.fw, k)
    requires t.runKey == k ==> RunUSD(g, k) <= budget && SumOf(PendingSlack(k, e), s.tickets) + e <= room
    ensures Exposure(Sys(g, s.tickets + [t]), k, e) <= budget + room
  {
    SumAppend(PendingSlack(k, e), s.tickets, t);
  }

  lemma DisabledHoldsNothing(f: Fw, cfg: Config, t: Target, hash: string, usd: real, tok: int, remote: bool, now: nat)
    requires !cfg.enabled
    ensures Enter(f, cfg, t, hash, usd, tok, remote, now) == (f, Verdict.Admitted(InertTicket))
  {
  }

  lemma InvIsValid(s: Sys)
    requires Inv(s)
    ensures ValidFw(s.fw)
  {
  }

  lemma AdmittedNames(cfg: Config, t: Target, ts: seq<Ticket>, ticket: Ticket, k: string, j: string, m: int)
    requires RunNames(ts, k, j) && Under(cfg, t, k, j, m)
    requires ticket.runKey == k ==> ticket.keys == ScopeKeys(TargetScopes(cfg, t)) && TargetRunKey(t) == k
    ensures RunNames(ts + [ticket], k, j)
  {
  }

  /** Slack for one more request of run k, once it fits the cap on j. */
  lemma RoomLeft(cfg: Config, s: Sys, t: Target, k: string, j: string, m: int, e: real)
    requires Inv(s) && e >= 0.0 && TargetRunKey(t) == k
    requires e > 0.0 ==> m > 0 && Under(cfg, t, k, j, m) && RunNames(s.tickets, k, j)
    requires forall sc :: sc in TargetScopes(cfg, t) ==> ConcurrencyFits(s.fw, sc)
    ensures SumOf(PendingSlack(k, e), s.tickets) + e <= e * m as real
  {
    if e > 0.0 {
      var sc := NamedScope(TargetScopes(cfg, t), j);
      assert ConcurrencyFits(s.fw, sc);
      RoomForOneMore(s, k, j, m, e);
    } else {
      SlackScales(k, e, s.tickets);
    }
  }

  lemma SettleExposure(cfg: Config, s: Sys, op: Op, k: string, e: real)
    requires Inv(s) && op.SettleOp? && SettleWithin(s, op, k, e) && k != "" && e >= 0.0
    ensures Exposure(Step(cfg, s, op), k, e) <= Exposure(s, k, e)
  {
    var SettleOp(i, usd, tok, now) := op;
    if i < |s.tickets| {
      var t := s.tickets[i];
      if t.settled || t.released {
        assert s.tickets[i := t] == s.tickets;
      } else {
        LiveTicketCovered(s, i);
        assert TicketOK(t);
        SettleReadings(s.fw, t, usd, tok, now);
        SumUpdate(PendingSlack(k, e), s.tickets, i, t.(settled := true));
        assert RunUSD(Step(cfg, s, op).fw, k) == RunUSD(s.fw, k) + if k == t.runKey then usd - t.usd else 0.0;
      }
    }
  }

  lemma ReleaseExposure(cfg: Config, s: Sys, op: Op, k: string, e: real)
    requires Inv(s) && op.ReleaseOp? && k != "" && e >= 0.0
    ensures Exposure(Step(cfg, s, op), k, e) <= Exposure(s, k, e)
  {
    var ReleaseOp(i, now) := op;
    if i < |s.tickets| {
      var t := s.tickets[i];
      if t.released {
        assert s.tickets[i := t] == s.tickets;
      } else {
        LiveTicketCovered(s, i);
        assert TicketOK(t);
        ReleaseReadings(s.fw, t, now);
        SumUpdate(PendingSlack(k, e), s.tickets, i, t.(released := true));
        assert RunUSD(Step(cfg, s, op).fw, k) == RunUSD(s.fw, k) - if k == t.runKey && !t.settled then t.usd else 0.0;
      }
    }
  }

  lemma {:induction false} SettlesAreNonNegative(cfg: Config, ops: seq<Op>, k: string, e: real)
    requires SettlesWithin(cfg, ops, k, e)
    ensures ActualsNonNegative(ops)
  {
    if ops != [] {
      SettlesAreNonNegative(cfg, ops[..|ops| - 1], k, e);
    }
  }

  lemma {:induction false} ExposureBound(cfg: Config, ops: seq<Op>, k: string, budget: real, j: string, m: int, e: real)
    requires k != "" && budget > 0.0 && e >= 0.0 && (e > 0.0 ==> m > 0 && UnderOps(cfg, ops, k, j, m))
    requires FixedRunOps(cfg, ops, k, budget) && SettlesWithin(cfg, ops, k, e)
    ensures WithinBudget(Run(cfg, ops), k, budget, j, m, e)
  {
    if ops != [] {
      hide WithinBudget, Inv;
      var pre := ops[..|ops| - 1];
      ExposureBound(cfg, pre, k, budget, j, m, e);
      SettlesAreNonNegative(cfg, pre, k, e);
      AccountingExact(cfg, pre);
      StepExposure(cfg, Run(cfg, pre), ops[|ops| - 1], k, budget, j, m, e);
    } else if e > 0.0 {
      MulMono(e, 0.0, m as real);
    }
  }

  /** A run's spend never exceeds its budget by more than the billing error of the calls it may have
      in flight, and those are bounded by any scope that all its requests name. */
  lemma RunBudgetBound(cfg: Config, ops: seq<Op>, k: string, budget: real, j: string, m: int, e: real)
    requires k != "" && budget > 0.0 && m > 0 && e >= 0.0 && UnderOps(cfg, ops, k, j, m)
    requires FixedRunOps(cfg, ops, k, budget) && SettlesWithin(cfg, ops, k, e)
    ensures RunUSD(Run(cfg, ops).fw, k) <= budget + e * m as real
  {
    hide Run, FixedRunOps, UnderOps, SettlesWithin, SumOf;
    ExposureBound(cfg, ops, k, budget, j, m, e);
    SumAtLeast(PendingSlack(k, e), Run(cfg, ops).tickets, -1);
  }

  /** When no call bills above its estimate the budget is a hard cap, whatever is in flight. */
  lemma RunBudgetAbsolute(cfg: Config, ops: seq<Op>, k: string, budget: real)
    requires k != "" && budget > 0.0
    requires FixedRunOps(cfg, ops, k, budget) && SettlesWithin(cfg, ops, k, 0.0)
    ensures RunUSD(Run(cfg, ops).fw, k) <= budget
  {
    hide Run, FixedRunOps, SettlesWithin, SumOf;
    ExposureBound(cfg, ops, k, budget, "", 0, 0.0);
    SumAtLeast(PendingSlack(k, 0.0), Run(cfg, ops).tickets, -1);
  }

  // ---- repeated reconciles -----------------------------------------------------------------------

  lemma StepKeepsFlags(cfg: Config, s: Sys, op: Op, i: nat)
    requires i < |s.tickets|
    ensures i < |Step(cfg, s, op).tickets|
    ensures s.tickets[i].settled ==> Step(cfg, s, op).tickets[i].settled
    ensures s.tickets[i].released ==> Step(cfg, s, op).tickets[i].released
  {
  }

  /** Settled and released flags are never lowered again. */
  lemma {:induction false} FlagsStay(cfg: Config, ops: seq<Op>, m: nat, n: nat, i: nat)
    requires m <= n <= |ops| && i < |Run(cfg, ops[..m]).tickets|
    ensures i < |Run(cfg, ops[..n]).tickets|
    ensures Run(cfg, ops[..m]).tickets[i].settled ==> Run(cfg, ops[..n]).tickets[i].settled
    ensures Run(cfg, ops[..m]).tickets[i].released ==> Run(cfg, ops[..n]).tickets[i].released
    decreases n
  {
    if m < n {
      FlagsStay(cfg, ops, m, n - 1, i);
      assert ops[..n][..n - 1] == ops[..n - 1];
      hide Step;
      StepKeepsFlags(cfg, Run(cfg, ops[..n - 1]), ops[n - 1], i);
    }
  }

  /** After a Settle or a Release of a ticket, wherever it happened in the run, another Settle
      of it changes nothing at all; after a Release, neither does another Release. */
  lemma RepeatedReconcileIsIdentity(cfg: Config, ops: seq<Op>, first: nat, again: nat)
    requires first < again < |ops|
    requires (ops[first].SettleOp? || ops[first].ReleaseOp?) && (ops[again].SettleOp? || ops[again].ReleaseOp?)
    requires ops[first].i == ops[again].i < |Run(cfg, ops[..first]).tickets|
    requires ops[first].ReleaseOp? || ops[again].SettleOp?
    ensures Run(cfg, ops[..again + 1]) == Run(cfg, ops[..again])
  {
    hide Step;
    var i := ops[first].i;
    assert ops[..first + 1][..first] == ops[..first] && ops[..again + 1][..again] == ops[..again];
    RaisesFlag(cfg, Run(cfg, ops[..first]), ops[first]);
    FlagsStay(cfg, ops, first + 1, again, i);
    NothingLeftToDo(cfg, Run(cfg, ops[..again]), ops[again]);
  }

  lemma RaisesFlag(cfg: Config, s: Sys, op: Op)
    requires (op.SettleOp? || op.ReleaseOp?) && op.i < |s.tickets|
    ensures var s' := Step(cfg, s, op);
            op.i < |s'.tickets| && (s'.tickets[op.i].released || (op.SettleOp? && s'.tickets[op.i].settled))
  {
    hide BookAll, ReleaseAll, SettleRun, Unreserved;
  }

  lemma NothingLeftToDo(cfg: Config, s: Sys, op: Op)
    requires (op.SettleOp? || op.ReleaseOp?) && op.i < |s.tickets|
    requires s.tickets[op.i].released || (op.SettleOp? && s.tickets[op.i].settled)
    ensures Step(cfg, s, op) == s
  {
    assert s.tickets[op.i := s.tickets[op.i]] == s.tickets;
  }

  // ---- consequences of exact accounting ------------------------------------------------------------

  /** The sweep never drops a scope that an unreleased ticket names. */
  lemma SweepKeepsLiveScopes(cfg: Config, ops: seq<Op>, i: nat, k: string, now: nat)
    requires ActualsNonNegative(ops)
    requires var s := Run(cfg, ops); i < |s.tickets| && !s.tickets[i].released && k in s.tickets[i].keys
    ensures k in GC(Run(cfg, ops).fw, cfg, now).scopes
  {
    var s := Run(cfg, ops);
    AccountingExact(cfg, ops);
    LiveTicketCovered(s, i);
    assert multiset(s.tickets[i].keys)[k] >= 1;
    assert Inflight(s.fw, k) >= 1;
  }

  /** A denied request hands out no ticket and changes no count and no window sum; the only
      budgets it can change are those of idle runs its sweep dropped. */
  lemma DeniedChangesNothing(cfg: Config, ops: seq<Op>, op: Op)
    requires ActualsNonNegative(ops) && op.Request?
    requires Enter(Run(cfg, ops).fw, cfg, op.target, op.hash, op.usd, op.tok, op.remote, op.now).1.Denied?
    ensures var s := Run(cfg, ops);
            var s' := Step(cfg, s, op);
            && s'.tickets == s.tickets
            && SameCounts(s.fw, s'.fw) && SameSums(s.fw, s'.fw, Unix(op.now))
            && (forall k {:trigger RunUSD(s'.fw, k)} :: RunUSD(s'.fw, k) == RunUSD(s.fw, k) ||
                  (RunUSD(s'.fw, k) == 0.0 && Inflight(s.fw, k) == 0 && k in s.fw.scopes && Idle(s.fw.scopes[k], op.now)))
  {
    var s := Run(cfg, ops);
    var Request(t, hash, usd, tok, remote, now) := op;
    AccountingExact(cfg, ops);
    RunUSDNonNegative(s);
    EnterReadings(s.fw, cfg, t, hash, usd, tok, remote, now);
    BaseReadings(s.fw, cfg, t, remote, now);
    var b, g := Base(s.fw, cfg, t, remote, now), Step(cfg, s, op).fw;
    assert SameCounts(s.fw, g) && SameSums(s.fw, g, Unix(now));
    forall k {:trigger RunUSD(g, k)}
      ensures RunUSD(g, k) == RunUSD(s.fw, k) ||
              (RunUSD(g, k) == 0.0 && Inflight(s.fw, k) == 0 && k in s.fw.scopes && Idle(s.fw.scopes[k], now))
    {
      assert RunUSD(g, k) == RunUSD(b, k);
    }
  }

  lemma ReleasedTicket(cfg: Config, s: Sys, op: Op, later: nat) returns (t: Ticket)
    requires op.Request? && Enter(s.fw, cfg, op.target, op.hash, op.usd, op.tok, op.remote, op.now).1.Admitted?
    ensures t.released && Step(cfg, Step(cfg, s, op), ReleaseOp(|s.tickets|, later)).tickets == s.tickets + [t]
  {
    hide Enter, ReleaseAll;
    t := Enter(s.fw, cfg, op.target, op.hash, op.usd, op.tok, op.remote, op.now).1.ticket.(released := true);
  }

  /** A reservation released as soon as it was made, as the decision API does with one that fell
      back to local enforcement, leaves no slot held anywhere and no estimate pending on a run. */
  lemma ReleasedAtOnceHoldsNothing(cfg: Config, ops: seq<Op>, op: Op, later: nat)
    requires ActualsNonNegative(ops) && op.Request?
    requires Enter(Run(cfg, ops).fw, cfg, op.target, op.hash, op.usd, op.tok, op.remote, op.now).1.Admitted?
    ensures var s := Run(cfg, ops);
            var s' := Step(cfg, Step(cfg, s, op), ReleaseOp(|s.tickets|, later));
            && SameCounts(s.fw, s'.fw)
            && forall k {:trigger RunUSD(s'.fw, k)} :: RunUSD(s'.fw, k) == Billed(s'.fw, k) + SumOf(PendingOn(k), s.tickets)
  {
    hide Step, Enter, Run, SumOf;
    var s := Run(cfg, ops);
    var s1 := Step(cfg, s, op);
    var s2 := Step(cfg, s1, ReleaseOp(|s.tickets|, later));
    AccountingExact(cfg, ops);
    StepKeepsInv(cfg, s, op);
    StepKeepsInv(cfg, s1, ReleaseOp(|s.tickets|, later));
    var t := ReleasedTicket(cfg, s, op, later);
    forall k
      ensures Inflight(s2.fw, k) == Inflight(s.fw, k)
      ensures RunUSD(s2.fw, k) == Billed(s2.fw, k) + SumOf(PendingOn(k), s.tickets)
    {
      SumAppend(HeldOn(k), s.tickets, t);
      SumAppend(PendingOn(k), s.tickets, t);
      assert Inflight(s2.fw, k) as real == SumOf(HeldOn(k), s2.tickets);
      assert RunUSD(s2.fw, k) == Billed(s2.fw, k) + SumOf(PendingOn(k), s2.tickets);
    }
  }
}
