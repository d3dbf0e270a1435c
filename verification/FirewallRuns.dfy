/** Every run of one instance in local mode: any interleaving of admissions, settles,
    releases and kills on any tickets, with any clock readings. */
module FirewallRuns {
  import opened WindowLog
  import opened FirewallSpec
  import opened FirewallSteps
  import opened FirewallAdmission

  /** The firewall and every ticket it has ever handed out. */
  datatype Sys = Sys(fw: Fw, tickets: seq<Ticket>)

  datatype Op =
    | Request(target: Target, hash: string, usd: real, tok: int, remote: bool, now: nat)
    | SettleOp(i: nat, usd: real, tok: int, now: nat)
    | ReleaseOp(i: nat, now: nat)
    | KillRun(run: string, now: nat)
    | RunKilled(run: string, remote: bool, now: nat)

  const Start := Sys(EmptyFw, [])

  function Step(cfg: Config, s: Sys, op: Op): Sys {
    match op
    case Request(t, hash, usd, tok, remote, now) =>
      var (f, v) := Enter(s.fw, cfg, t, hash, usd, tok, remote, now);
      Sys(f, if v.Admitted? then s.tickets + [v.ticket] else s.tickets)
    case SettleOp(i, usd, tok, now) =>
      if i >= |s.tickets| then s
      else
        var (f, t) := Settle(s.fw, s.tickets[i], usd, tok, now);
        Sys(f, s.tickets[i := t])
    case ReleaseOp(i, now) =>
      if i >= |s.tickets| then s
      else
        var (f, t) := Release(s.fw, s.tickets[i], now);
        Sys(f, s.tickets[i := t])
    case KillRun(run, now) =>
      if run == "" then s else s.(fw := DoKill(s.fw, cfg, run, now))
    case RunKilled(run, remote, now) =>
      s.(fw := IsKilled(s.fw, cfg, run, remote, now).0)
  }

  /** The state after a run of operations from start-up. */
  function Run(cfg: Config, ops: seq<Op>): Sys {
    if ops == [] then Start else Step(cfg, Run(cfg, ops[..|ops| - 1]), ops[|ops| - 1])
  }

  // ---- adding up over tickets ----------------------------------------------------------------

  /** What a ticket contributes to: the holds on a key, the dollars (or a fixed slack)
      pending on a run, the estimates admitted on a key in the seconds [lo, hi]. */
  datatype Measure =
    | HeldOn(k: string)
    | PendingOn(k: string)
    | PendingSlack(k: string, each: real)
    | AdmittedIn(k: string, lo: int, hi: int, d: Dim)

  function Estimate(t: Ticket, d: Dim): real {
    if d.Dollars? then t.usd else t.tok as real
  }

  predicate Pending(t: Ticket, k: string) {
    k != "" && t.runKey == k && !t.settled && !t.released
  }

  function Weight(m: Measure, t: Ticket): real {
    match m
    case HeldOn(k) => if t.released then 0.0 else multiset(t.keys)[k] as real
    case PendingOn(k) => if Pending(t, k) then t.usd else 0.0
    case PendingSlack(k, each) => if Pending(t, k) then each else 0.0
    case AdmittedIn(k, lo, hi, d) => if k in t.keys && lo <= t.at <= hi then Estimate(t, d) else 0.0
  }

  function SumOf(m: Measure, ts: seq<Ticket>): real {
    if ts == [] then 0.0 else SumOf(m, ts[..|ts| - 1]) + Weight(m, ts[|ts| - 1])
  }

  lemma SumAppend(m: Measure, ts: seq<Ticket>, t: Ticket)
    ensures SumOf(m, ts + [t]) == SumOf(m, ts) + Weight(m, t)
  {
    assert (ts + [t])[..|ts|] == ts;
  }

  lemma {:induction false} SumUpdate(m: Measure, ts: seq<Ticket>, i: nat, t: Ticket)
    requires i < |ts|
    ensures SumOf(m, ts[i := t]) == SumOf(m, ts) - Weight(m, ts[i]) + Weight(m, t)
  {
    var n := |ts| - 1;
    var us := ts[i := t];
    if i == n {
      assert us[..n] == ts[..n];
    } else {
      assert us[..n] == ts[..n][i := t];
      SumUpdate(m, ts[..n], i, t);
    }
  }

  ghost predicate NonNegative(m: Measure, ts: seq<Ticket>) {
    forall i :: 0 <= i < |ts| ==> Weight(m, ts[i]) >= 0.0
  }

  lemma {:induction false} SumAtLeast(m: Measure, ts: seq<Ticket>, i: int)
    requires NonNegative(m, ts)
    ensures SumOf(m, ts) >= 0.0
    ensures 0 <= i < |ts| ==> SumOf(m, ts) >= Weight(m, ts[i])
  {
    if ts != [] {
      var n := |ts| - 1;
      SumAtLeast(m, ts[..n], i);
      assert Weight(m, ts[n]) >= 0.0;
    }
  }

  /** One measure is nowhere above another on any ticket, so neither is its sum. */
  lemma {:induction false} SumLeq(a: Measure, b: Measure, ts: seq<Ticket>)
    requires forall i :: 0 <= i < |ts| ==> Weight(a, ts[i]) <= Weight(b, ts[i])
    ensures SumOf(a, ts) <= SumOf(b, ts)
  {
    if ts != [] {
      var n := |ts| - 1;
      SumLeq(a, b, ts[..n]);
      assert Weight(a, ts[n]) <= Weight(b, ts[n]);
    }
  }

  // ---- the exact-accounting invariant ----------------------------------------------------------

  ghost predicate TicketOK(t: Ticket) {
    t.usd >= 0.0 && t.tok >= 0 && (t.runKey == "" || t.runKey in t.keys)
  }

  ghost predicate TicketsOK(ts: seq<Ticket>) {
    forall i :: 0 <= i < |ts| ==> TicketOK(ts[i])
  }

  /** inflight(k) is the number of unreleased tickets naming k (with multiplicity). */
  ghost predicate CountsExact(f: Fw, ts: seq<Ticket>) {
    forall k {:trigger Inflight(f, k)} :: Inflight(f, k) as real == SumOf(HeldOn(k), ts)
  }

  /** runUSD(k) is what was settled on k since the scope was created plus the live estimates. */
  ghost predicate BudgetsExact(f: Fw, ts: seq<Ticket>) {
    forall k {:trigger RunUSD(f, k)} {:trigger Billed(f, k)} ::
      RunUSD(f, k) == Billed(f, k) + SumOf(PendingOn(k), ts) && Billed(f, k) >= 0.0
  }

  ghost predicate Inv(s: Sys) {
    ValidFw(s.fw) && TicketsOK(s.tickets) && CountsExact(s.fw, s.tickets) && BudgetsExact(s.fw, s.tickets)
  }

  lemma TicketSumsNonNegative(ts: seq<Ticket>, k: string)
    requires TicketsOK(ts)
    ensures NonNegative(HeldOn(k), ts) && NonNegative(PendingOn(k), ts)
    ensures SumOf(PendingOn(k), ts) >= 0.0 && SumOf(HeldOn(k), ts) >= 0.0
  {
    forall i | 0 <= i < |ts|
      ensures Weight(PendingOn(k), ts[i]) >= 0.0
    {
      assert TicketOK(ts[i]);
    }
    SumAtLeast(PendingOn(k), ts, -1);
    SumAtLeast(HeldOn(k), ts, -1);
  }

  lemma RunUSDNonNegative(s: Sys)
    requires Inv(s)
    ensures forall k :: RunUSD(s.fw, k) >= 0.0
  {
    forall k
      ensures RunUSD(s.fw, k) >= 0.0
    {
      TicketSumsNonNegative(s.tickets, k);
    }
  }

  /** No ticket holds a run that has nothing in flight. */
  lemma NothingHeldNothingPending(s: Sys, k: string)
    requires Inv(s) && Inflight(s.fw, k) == 0
    ensures SumOf(PendingOn(k), s.tickets) == 0.0
  {
    var ts := s.tickets;
    TicketSumsNonNegative(ts, k);
    forall i | 0 <= i < |ts|
      ensures Weight(PendingOn(k), ts[i]) <= Weight(PendingSlack(k, 0.0), ts[i])
    {
      SumAtLeast(HeldOn(k), ts, i);
      assert TicketOK(ts[i]);
    }
    SumLeq(PendingOn(k), PendingSlack(k, 0.0), ts);
    ZeroSlack(k, ts);
  }

  lemma {:induction false} ZeroSlack(k: string, ts: seq<Ticket>)
    ensures SumOf(PendingSlack(k, 0.0), ts) == 0.0
  {
    if ts != [] {
      ZeroSlack(k, ts[..|ts| - 1]);
    }
  }

  /** Dropping idle scopes keeps the accounts: what is dropped is held by no ticket. */
  lemma SweepKeepsInv(s: Sys, b: Fw)
    requires Inv(s) && ValidFw(b) && SameCounts(s.fw, b)
    requires forall k :: k in b.scopes ==> k in s.fw.scopes && b.scopes[k].runUSD == s.fw.scopes[k].runUSD
                                           && b.scopes[k].billed == s.fw.scopes[k].billed
    ensures Inv(s.(fw := b))
  {
    forall k {:trigger RunUSD(b, k)} {:trigger Billed(b, k)}
      ensures RunUSD(b, k) == Billed(b, k) + SumOf(PendingOn(k), s.tickets) && Billed(b, k) >= 0.0
    {
      assert RunUSD(s.fw, k) == Billed(s.fw, k) + SumOf(PendingOn(k), s.tickets);
      if k !in b.scopes {
        assert Inflight(b, k) == Inflight(s.fw, k);
        NothingHeldNothingPending(s, k);
      }
    }
    assert BudgetsExact(b, s.tickets);
    forall k {:trigger Inflight(b, k)}
      ensures Inflight(b, k) as real == SumOf(HeldOn(k), s.tickets)
    {
      assert Inflight(b, k) == Inflight(s.fw, k);
    }
  }

  lemma RequestKeepsInv(cfg: Config, s: Sys, op: Op)
    requires Inv(s) && op.Request?
    ensures Inv(Step(cfg, s, op))
  {
    var Request(t, hash, usd, tok, remote, now) := op;
    var b := Base(s.fw, cfg, t, remote, now);
    BaseReadings(s.fw, cfg, t, remote, now);
    SweepKeepsInv(s, b);
    RunUSDNonNegative(s);
    EnterReadings(s.fw, cfg, t, hash, usd, tok, remote, now);
    EnterTicket(s.fw, cfg, t, hash, usd, tok, remote, now);
    var (g, v) := Enter(s.fw, cfg, t, hash, usd, tok, remote, now);
    if v.Denied? {
      SameReadingsKeepInv(s.(fw := b), g, Unix(now));
    } else {
      AdmitKeepsInv(s.(fw := b), g, v.ticket);
    }
  }

  lemma SameReadingsKeepInv(s: Sys, g: Fw, sec: int)
    requires Inv(s) && ValidFw(g) && SameReadings(s.fw, g, sec)
    ensures Inv(s.(fw := g))
  {
    forall k {:trigger Inflight(g, k)}
      ensures Inflight(g, k) as real == SumOf(HeldOn(k), s.tickets)
    {
      assert Inflight(g, k) == Inflight(s.fw, k);
    }
    forall k {:trigger RunUSD(g, k)} {:trigger Billed(g, k)}
      ensures RunUSD(g, k) == Billed(g, k) + SumOf(PendingOn(k), s.tickets) && Billed(g, k) >= 0.0
    {
      assert RunUSD(g, k) == RunUSD(s.fw, k);
    }
  }

  lemma AdmitKeepsInv(s: Sys, g: Fw, t: Ticket)
    requires Inv(s) && Admits(s.fw, g, t) && TicketOK(t) && !t.settled && !t.released
    ensures Inv(Sys(g, s.tickets + [t]))
  {
    forall k {:trigger Inflight(g, k)}
      ensures Inflight(g, k) as real == SumOf(HeldOn(k), s.tickets + [t])
    {
      SumAppend(HeldOn(k), s.tickets, t);
      assert Inflight(s.fw, k) as real == SumOf(HeldOn(k), s.tickets);
    }
    forall k {:trigger RunUSD(g, k)} {:trigger Billed(g, k)}
      ensures RunUSD(g, k) == Billed(g, k) + SumOf(PendingOn(k), s.tickets + [t]) && Billed(g, k) >= 0.0
    {
      SumAppend(PendingOn(k), s.tickets, t);
      assert RunUSD(s.fw, k) == Billed(s.fw, k) + SumOf(PendingOn(k), s.tickets);
    }
  }

  /** In an accounted state the guard against a negative run budget cannot fire. */
  lemma LiveTicketCovered(s: Sys, i: nat)
    requires Inv(s) && i < |s.tickets| && !s.tickets[i].released
    ensures forall k :: Inflight(s.fw, k) >= multiset(s.tickets[i].keys)[k]
    ensures forall k :: k in s.tickets[i].keys ==> k in s.fw.scopes
    ensures !s.tickets[i].settled && s.tickets[i].runKey != "" ==>
              RunUSD(s.fw, s.tickets[i].runKey) >= Billed(s.fw, s.tickets[i].runKey) + s.tickets[i].usd
  {
    var t := s.tickets[i];
    forall k
      ensures Inflight(s.fw, k) >= multiset(t.keys)[k]
    {
      TicketSumsNonNegative(s.tickets, k);
      SumAtLeast(HeldOn(k), s.tickets, i);
    }
    forall k | k in t.keys
      ensures k in s.fw.scopes
    {
      assert multiset(t.keys)[k] > 0;
      assert Inflight(s.fw, k) > 0;
    }
    TicketSumsNonNegative(s.tickets, t.runKey);
    SumAtLeast(PendingOn(t.runKey), s.tickets, i);
    assert RunUSD(s.fw, t.runKey) == Billed(s.fw, t.runKey) + SumOf(PendingOn(t.runKey), s.tickets);
  }

  /** Replacing one ticket and the readings it accounts for together keeps the accounts. */
  lemma ReplaceKeepsInv(s: Sys, g: Fw, i: nat, t: Ticket)
    requires Inv(s) && ValidFw(g) && i < |s.tickets| && TicketOK(t)
    requires forall k {:trigger Inflight(g, k)} :: Inflight(g, k) as real ==
               Inflight(s.fw, k) as real - Weight(HeldOn(k), s.tickets[i]) + Weight(HeldOn(k), t)
    requires forall k {:trigger RunUSD(g, k)} :: RunUSD(g, k) - Billed(g, k) ==
               RunUSD(s.fw, k) - Billed(s.fw, k) - Weight(PendingOn(k), s.tickets[i]) + Weight(PendingOn(k), t)
    requires forall k {:trigger Billed(g, k)} :: Billed(g, k) >= Billed(s.fw, k)
    ensures Inv(Sys(g, s.tickets[i := t]))
  {
    forall k {:trigger Inflight(g, k)}
      ensures Inflight(g, k) as real == SumOf(HeldOn(k), s.tickets[i := t])
    {
      SumUpdate(HeldOn(k), s.tickets, i, t);
      assert Inflight(s.fw, k) as real == SumOf(HeldOn(k), s.tickets);
    }
    forall k {:trigger RunUSD(g, k)} {:trigger Billed(g, k)}
      ensures RunUSD(g, k) == Billed(g, k) + SumOf(PendingOn(k), s.tickets[i := t]) && Billed(g, k) >= 0.0
    {
      SumUpdate(PendingOn(k), s.tickets, i, t);
      assert RunUSD(s.fw, k) == Billed(s.fw, k) + SumOf(PendingOn(k), s.tickets);
    }
  }

  lemma SettleRunReadings(f: Fw, t: Ticket, usd: real)
    requires ValidFw(f) && usd >= 0.0
    requires t.runKey != "" ==> t.runKey in f.scopes && RunUSD(f, t.runKey) >= t.usd
    ensures var g := SettleRun(f, t.runKey, t.usd, usd);
            && ValidFw(g) && SameCounts(f, g)
            && (forall k {:trigger RunUSD(g, k)} ::
                  RunUSD(g, k) == RunUSD(f, k) + if k == t.runKey && k != "" then usd - t.usd else 0.0)
            && (forall k {:trigger Billed(g, k)} ::
                  Billed(g, k) == Billed(f, k) + if k == t.runKey && k != "" then usd else 0.0)
  {
  }

  lemma SettleReadings(f: Fw, t: Ticket, usd: real, tok: int, now: nat)
    requires ValidFw(f) && usd >= 0.0 && !t.settled && !t.released
    requires t.runKey != "" ==> t.runKey in f.scopes && RunUSD(f, t.runKey) >= t.usd
    ensures var g := Settle(f, t, usd, tok, now).0;
            && ValidFw(g) && SameCounts(f, g)
            && (forall k {:trigger RunUSD(g, k)} ::
                  RunUSD(g, k) == RunUSD(f, k) + if k == t.runKey && k != "" then usd - t.usd else 0.0)
            && (forall k {:trigger Billed(g, k)} ::
                  Billed(g, k) == Billed(f, k) + if k == t.runKey && k != "" then usd else 0.0)
  {
    BookAllReadings(f, t.keys, Unix(now), usd - t.usd, tok - t.tok);
    var h := BookAll(f, t.keys, Unix(now), usd - t.usd, tok - t.tok);
    SettleRunReadings(h, t, usd);
  }

  lemma SettleKeepsInv(cfg: Config, s: Sys, op: Op)
    requires Inv(s) && op.SettleOp? && op.usd >= 0.0
    ensures Inv(Step(cfg, s, op))
  {
    var SettleOp(i, usd, tok, now) := op;
    if i < |s.tickets| {
      var t := s.tickets[i];
      assert TicketOK(t);
      if t.settled || t.released {
        assert s.tickets[i := t] == s.tickets;
      } else {
        LiveTicketCovered(s, i);
        SettleReadings(s.fw, t, usd, tok, now);
        var g := Settle(s.fw, t, usd, tok, now).0;
        assert forall k :: Inflight(g, k) == Inflight(s.fw, k);
        ReplaceKeepsInv(s, g, i, t.(settled := true));
      }
    }
  }

  lemma ReleaseReadings(f: Fw, t: Ticket, now: nat)
    requires ValidFw(f) && !t.released && forall k :: Inflight(f, k) >= multiset(t.keys)[k]
    requires t.runKey != "" && !t.settled ==> t.runKey in f.scopes && RunUSD(f, t.runKey) >= t.usd
    ensures var g := Release(f, t, now).0;
            && ValidFw(g)
            && (forall k {:trigger Inflight(g, k)} :: Inflight(g, k) == Inflight(f, k) - multiset(t.keys)[k])
            && (forall k {:trigger RunUSD(g, k)} ::
                  RunUSD(g, k) == RunUSD(f, k) - if k == t.runKey && k != "" && !t.settled then t.usd else 0.0)
            && (forall k {:trigger Billed(g, k)} :: Billed(g, k) == Billed(f, k))
  {
    ReleaseAllReadings(f, t.keys, !t.settled, t.usd, t.tok, Unix(now));
    var h := ReleaseAll(f, t.keys, !t.settled, t.usd, t.tok, Unix(now));
    assert forall k :: RunUSD(h, k) == RunUSD(f, k);
    if !t.settled {
      UnreservedReadings(h, t.runKey, t.usd, Unix(now));
    }
  }

  lemma ReleaseKeepsInv(cfg: Config, s: Sys, op: Op)
    requires Inv(s) && op.ReleaseOp?
    ensures Inv(Step(cfg, s, op))
  {
    var ReleaseOp(i, now) := op;
    if i < |s.tickets| {
      var t := s.tickets[i];
      assert TicketOK(t);
      if t.released {
        assert s.tickets[i := t] == s.tickets;
      } else {
        LiveTicketCovered(s, i);
        ReleaseReadings(s.fw, t, now);
        ReplaceKeepsInv(s, Release(s.fw, t, now).0, i, t.(released := true));
      }
    }
  }

  ghost predicate ActualsNonNegative(ops: seq<Op>) {
    forall i :: 0 <= i < |ops| && ops[i].SettleOp? ==> ops[i].usd >= 0.0
  }

  lemma StepKeepsInv(cfg: Config, s: Sys, op: Op)
    requires Inv(s) && (op.SettleOp? ==> op.usd >= 0.0)
    ensures Inv(Step(cfg, s, op))
  {
    match op
    case Request(_, _, _, _, _, _) => RequestKeepsInv(cfg, s, op);
    case SettleOp(_, _, _, _) => SettleKeepsInv(cfg, s, op);
    case ReleaseOp(_, _) => ReleaseKeepsInv(cfg, s, op);
    case KillRun(_, now) => SameReadingsKeepInv(s, Step(cfg, s, op).fw, 0);
    case RunKilled(_, _, now) => SameReadingsKeepInv(s, Step(cfg, s, op).fw, 0);
  }

  /** In every reachable state the in-flight count and the run budget of every scope are
      exactly what the tickets say. */
  lemma {:induction false} AccountingExact(cfg: Config, ops: seq<Op>)
    requires ActualsNonNegative(ops)
    ensures Inv(Run(cfg, ops))
  {
    if ops == [] {
    } else {
      AccountingExact(cfg, ops[..|ops| - 1]);
      StepKeepsInv(cfg, Run(cfg, ops[..|ops| - 1]), ops[|ops| - 1]);
    }
  }
}
