/** A reservation that fell back to local enforcement is released at once: what that leaves in the
    windows of its scopes. */
module FallbackRelease {
  import opened WindowLog
  import opened FirewallSpec
  import opened FirewallSteps
  import opened FirewallAdmission
  import opened FirewallRuns
  import opened VelocityBound
  import opened SameMinute
  import opened Keys

  lemma LockedAppends(f: Fw, cfg: Config, scopes: seq<Scope>, run: string, hash: string, runMax: real,
                      usd: real, tok: int, now: nat, k: string, d: Dim)
    requires NotPast(f, Unix(now)) && Distinct(ScopeKeys(scopes))
    requires EnterLocked(f, cfg, scopes, run, hash, runMax, usd, tok, now).2.Admitted?
    ensures var g := EnterLocked(f, cfg, scopes, run, hash, runMax, usd, tok, now).0;
            && NotPast(g, Unix(now))
            && LogOf(g, k, d) == Appended(LogOf(GC(f, cfg, now), k, d), k in ScopeKeys(scopes), Unix(now), Amount(usd, tok, d))
  {
    var b := GC(f, cfg, now);
    var c := CheckLoopBudget(b, cfg, run, hash, usd, runMax, now).0;
    BudgetLogs(b, cfg, run, hash, usd, runMax, now, d);
    CheckVelocitiesLogs(c, scopes, usd, tok, Unix(now), d);
    assert LogOf(c, k, d) == LogOf(b, k, d);
    var h := CheckVelocities(c, scopes, usd, tok, Unix(now)).0;
    assert LogOf(h, k, d) == LogOf(c, k, d);
    ReserveAllAppends(h, scopes, usd, tok, now, k, d);
  }

  /** An estimate booked and then taken back from a log that has nothing later: in the same second it
      is as if it had never been, in a later one it stays. */
  lemma BookedAndTaken(log: Log, sec: int, later: int, delta: real, lo: int, n: nat)
    requires delta >= 0.0 && sec <= later && StampedUpTo(log, sec)
    ensures Total(log + [Entry(sec, delta)] + [Entry(later, -delta)], lo, n) ==
            Total(log, lo, n) + if sec < later && lo <= sec < lo + n then delta else 0.0
  {
    TotalAppend(log, Entry(sec, delta), lo, n);
    TotalAppend(log + [Entry(sec, delta)], Entry(later, -delta), lo, n);
    BucketAppend(log, Entry(sec, delta), later);
    if sec < later {
      BucketAfterLast(log, sec, later);
    }
  }

  lemma AdmittedAppends(f: Fw, cfg: Config, t: Target, hash: string, estUSD: real, estTok: int, remote: bool, now: nat, k: string, d: Dim)
    requires NotPast(f, Unix(now)) && Distinct(ScopeKeys(TargetScopes(cfg, t))) && cfg.enabled
    requires Enter(f, cfg, t, hash, estUSD, estTok, remote, now).1.Admitted?
    ensures var (g, v) := Enter(f, cfg, t, hash, estUSD, estTok, remote, now);
            && v.ticket == Ticket(ScopeKeys(TargetScopes(cfg, t)), v.ticket.runKey, Floor0(estUSD), ClampTok(estTok), Unix(now), false, false)
            && NotPast(g, Unix(now))
            && LogOf(g, k, d) == Appended(LogOf(GC(f, cfg, now), k, d), k in v.ticket.keys, Unix(now), Amount(Floor0(estUSD), ClampTok(estTok), d))
  {
    var f1 := IsKilled(f, cfg, TargetRunKey(t), remote, now).0;
    LockedAppends(f1, cfg, TargetScopes(cfg, t), TargetRunKey(t), hash, TargetRunMax(cfg, t), Floor0(estUSD), ClampTok(estTok), now, k, d);
    EnterTicket(f, cfg, t, hash, estUSD, estTok, remote, now);
    GCIgnoresKills(f, f1.kills, cfg, now);
    hide EnterLocked, RunScopes, LogOf, NotPast;
    LogsByScopes(GC(f, cfg, now), GC(f1, cfg, now), d);
    assert LogOf(GC(f1, cfg, now), k, d) == LogOf(GC(f, cfg, now), k, d);
  }

  lemma ReleaseAppends(f: Fw, t: Ticket, now: nat, k: string, d: Dim)
    requires NotPast(f, Unix(now)) && Distinct(t.keys) && !t.settled && !t.released && forall j :: j in t.keys ==> j in f.scopes
    ensures var g := Release(f, t, now).0;
            NotPast(g, Unix(now)) && LogOf(g, k, d) == Appended(LogOf(f, k, d), k in t.keys, Unix(now), Amount(-t.usd, -t.tok, d))
  {
    ReleaseAllAppends(f, t.keys, true, t.usd, t.tok, Unix(now), k, d);
    var g := ReleaseAll(f, t.keys, true, t.usd, t.tok, Unix(now));
    UnreservedLogs(g, t.runKey, t.usd, Unix(now), d);
    assert LogOf(Unreserved(g, t.runKey, t.usd), k, d) == LogOf(g, k, d);
  }

  lemma AdmittedThenReleased(cfg: Config, s: Sys, op: Op, later: nat)
    requires op.Request?
    requires Enter(s.fw, cfg, op.target, op.hash, op.usd, op.tok, op.remote, op.now).1.Admitted?
    ensures var (f, v) := Enter(s.fw, cfg, op.target, op.hash, op.usd, op.tok, op.remote, op.now);
            && Step(cfg, s, op) == Sys(f, s.tickets + [v.ticket])
            && Step(cfg, Step(cfg, s, op), ReleaseOp(|s.tickets|, later)).fw == Release(f, v.ticket, later).0
  {
    hide Enter, Release;
  }

  /** The log of k after both. */
  lemma ReleasedLogs(cfg: Config, s: Sys, op: Op, later: nat, k: string, d: Dim)
    requires Inv(s) && op.Request? && cfg.enabled && NotPast(s.fw, Unix(op.now)) && op.now <= later
    requires Distinct(ScopeKeys(TargetScopes(cfg, op.target)))
    requires Enter(s.fw, cfg, op.target, op.hash, op.usd, op.tok, op.remote, op.now).1.Admitted?
    ensures var g := Step(cfg, Step(cfg, s, op), ReleaseOp(|s.tickets|, later)).fw;
            var log, n, a := LogOf(GC(s.fw, cfg, op.now), k, d), Unix(op.now), Amount(Floor0(op.usd), ClampTok(op.tok), d);
            && NotPast(g, Unix(later))
            && LogOf(g, k, d) == if k in ScopeKeys(TargetScopes(cfg, op.target)) then log + [Entry(n, a)] + [Entry(Unix(later), -a)] else log
  {
    hide Enter, Release, GC, Inv, NotPast, LogOf, TargetScopes, Step;
    AdmittedAppends(s.fw, cfg, op.target, op.hash, op.usd, op.tok, op.remote, op.now, k, d);
    AdmittedThenReleased(cfg, s, op, later);
    StepKeepsInv(cfg, s, op);
    var s1 := Step(cfg, s, op);
    LiveTicketCovered(s1, |s.tickets|);
    LaterNotPast(s1.fw, Unix(op.now), Unix(later));
    ReleaseAppends(s1.fw, s1.tickets[|s.tickets|], later, k, d);
  }

  lemma LaterNotPast(f: Fw, sec: int, later: int)
    requires NotPast(f, sec) && sec <= later
    ensures NotPast(f, later)
  {
  }

  lemma LaterReading(f: Fw, k: string, sec: int, later: int)
    requires ValidFw(f) && NotPast(f, sec) && sec <= later
    ensures SumUSD(f, k, later) == WindowSum(LogOf(f, k, Dollars), later)
    ensures SumTok(f, k, later) == WindowSum(LogOf(f, k, Tokens), later)
  {
    LaterNotPast(f, sec, later);
    ReadingIsWindowSum(f, k, later);
  }

  lemma SweptReading(f: Fw, cfg: Config, now: nat, k: string, sec: int)
    requires ValidFw(f) && NotPast(f, Unix(now)) && Unix(now) <= sec
    ensures SumUSD(f, k, sec) == WindowSum(LogOf(GC(f, cfg, now), k, Dollars), sec)
    ensures SumTok(f, k, sec) == WindowSum(LogOf(GC(f, cfg, now), k, Tokens), sec)
    ensures forall d :: StampedUpTo(LogOf(GC(f, cfg, now), k, d), Unix(now))
  {
    GCReadings(f, cfg, now);
    var b := GC(f, cfg, now);
    assert SumUSD(b, k, sec) == SumUSD(f, k, sec);
    LaterReading(b, k, Unix(now), sec);
  }

  /** What an estimate of second n released at second m still adds to the window at second sec. */
  function Left(named: bool, n: int, m: int, sec: int, estimate: real): real {
    if named && n < m && sec - WINDOW < n then estimate else 0.0
  }

  /** Released in the second it was admitted in, a request leaves every window reading what it would
      have read without it; released in a later one, its estimate stays until it is a minute old. */
  lemma ReleasedAtOnceReadings(cfg: Config, ops: seq<Op>, op: Op, later: nat, k: string, sec: int)
    requires ActualsNonNegative(ops) && op.Request? && cfg.enabled
    requires NotPast(Run(cfg, ops).fw, Unix(op.now)) && op.now <= later && Unix(later) <= sec
    requires Distinct(ScopeKeys(TargetScopes(cfg, op.target)))
    requires Enter(Run(cfg, ops).fw, cfg, op.target, op.hash, op.usd, op.tok, op.remote, op.now).1.Admitted?
    ensures var s := Run(cfg, ops);
            var s' := Step(cfg, Step(cfg, s, op), ReleaseOp(|s.tickets|, later));
            var named, n, m := k in ScopeKeys(TargetScopes(cfg, op.target)), Unix(op.now), Unix(later);
            && SumUSD(s'.fw, k, sec) == SumUSD(s.fw, k, sec) + Left(named, n, m, sec, Floor0(op.usd))
            && SumTok(s'.fw, k, sec) == SumTok(s.fw, k, sec) + Left(named, n, m, sec, ClampTok(op.tok) as real)
  {
    hide Enter, GC, NotPast, LogOf, TargetScopes, Step, Run, ValidFw, Unix, SumUSD, SumTok, Total, ScopeKeys;
    UnixGrows(op.now, later);
    var s, n, m := Run(cfg, ops), Unix(op.now), Unix(later);
    var s1 := Step(cfg, s, op);
    var s2 := Step(cfg, s1, ReleaseOp(|s.tickets|, later));
    AccountingExact(cfg, ops);
    StepKeepsInv(cfg, s, op);
    StepKeepsInv(cfg, s1, ReleaseOp(|s.tickets|, later));
    ReleasedLogs(cfg, s, op, later, k, Dollars);
    ReleasedLogs(cfg, s, op, later, k, Tokens);
    SweptReading(s.fw, cfg, op.now, k, sec);
    LaterReading(s2.fw, k, m, sec);
    BookedAndTaken(LogOf(GC(s.fw, cfg, op.now), k, Dollars), n, m, Floor0(op.usd), sec - WINDOW + 1, WINDOW);
    BookedAndTaken(LogOf(GC(s.fw, cfg, op.now), k, Tokens), n, m, ClampTok(op.tok) as real, sec - WINDOW + 1, WINDOW);
  }

  lemma UnixGrows(a: nat, b: nat)
    requires a <= b
    ensures Unix(a) <= Unix(b)
  {
  }
}
