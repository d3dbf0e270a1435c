/** The rolling velocity cap over whole runs. Reconciling downward books a negative delta in
    the current second and can erase another request's reservation there; what is admitted in
    a minute stays within the cap, or the largest estimate, and what was reconciled downward in
    that minute. */
module VelocityBound {
  import opened WindowLog
  import opened Windows
  import opened FirewallSpec
  import opened FirewallSteps
  import opened FirewallAdmission
  import opened FirewallRuns
  import opened KillSafety
  import opened Keys

  // ---- one dimension at a time -----------------------------------------------------------------

  function LogOf(f: Fw, k: string, d: Dim): Log {
    if k !in f.scopes then []
    else if d.Dollars? then f.scopes[k].window.usd else f.scopes[k].window.tok
  }

  function CapOf(l: Limits, d: Dim): real {
    if d.Dollars? then l.usdPerMin else l.tokPerMin as real
  }

  function Amount(usd: real, tok: int, d: Dim): real {
    if d.Dollars? then usd else tok as real
  }

  ghost predicate SameLogs(f: Fw, g: Fw, d: Dim) {
    forall k {:trigger LogOf(g, k, d)} :: LogOf(g, k, d) == LogOf(f, k, d)
  }

  /** No window has been moved past sec. */
  ghost predicate NotPast(f: Fw, sec: int) {
    forall k :: k in f.scopes && f.scopes[k].window.primed ==> f.scopes[k].window.last <= sec
  }

  ghost predicate Grew(f: Fw, g: Fw, d: Dim, ks: seq<string>, sec: int, amount: real) {
    forall k, lo, hi {:trigger Signed(LogOf(g, k, d), lo, hi)} ::
      Signed(LogOf(g, k, d), lo, hi) >= Signed(LogOf(f, k, d), lo, hi) + if k in ks && lo <= sec <= hi then amount else 0.0
  }

  // ---- what the operations append -----------------------------------------------------------------

  lemma AddedSigned(f: Fw, g: Fw, k: string, d: Dim, sec: int, usd: real, tok: int)
    requires k in g.scopes && g.scopes[k].window == (if k in f.scopes then f.scopes[k].window else EmptyWindow).Added(sec, usd, tok)
    requires NotPast(f, sec)
    ensures forall lo, hi :: Signed(LogOf(g, k, d), lo, hi) ==
                             Signed(LogOf(f, k, d), lo, hi) + if lo <= sec <= hi then Amount(usd, tok, d) else 0.0
    ensures g.scopes[k].window.last == sec
  {
    var e := Entry(sec, Amount(usd, tok, d));
    forall lo, hi
      ensures Signed(LogOf(g, k, d), lo, hi) ==
              Signed(LogOf(f, k, d), lo, hi) + if lo <= sec <= hi then Amount(usd, tok, d) else 0.0
    {
      SignedAppend(LogOf(f, k, d), e, lo, hi);
    }
  }

  lemma {:induction false} ReserveAllGrows(f: Fw, scopes: seq<Scope>, usd: real, tok: int, now: nat, d: Dim)
    requires NotPast(f, Unix(now)) && usd >= 0.0 && tok >= 0
    ensures var g := ReserveAll(f, scopes, usd, tok, now);
            NotPast(g, Unix(now)) && Grew(f, g, d, ScopeKeys(scopes), Unix(now), Amount(usd, tok, d))
    decreases |scopes|
  {
    if scopes != [] {
      var k0 := scopes[0].key;
      var f' := ReserveOne(f, k0, usd, tok, now);
      AddedSigned(f, f', k0, d, Unix(now), usd, tok);
      ReserveAllGrows(f', scopes[1..], usd, tok, now, d);
      var g := ReserveAll(f', scopes[1..], usd, tok, now);
      assert ScopeKeys(scopes) == [k0] + ScopeKeys(scopes[1..]);
      forall k, lo, hi {:trigger Signed(LogOf(g, k, d), lo, hi)}
        ensures Signed(LogOf(g, k, d), lo, hi) >= Signed(LogOf(f, k, d), lo, hi) +
                if k in ScopeKeys(scopes) && lo <= Unix(now) <= hi then Amount(usd, tok, d) else 0.0
      {
        assert k != k0 ==> LogOf(f', k, d) == LogOf(f, k, d);
      }
    }
  }

  lemma {:induction false} CheckVelocitiesLogs(f: Fw, scopes: seq<Scope>, usd: real, tok: int, sec: nat, d: Dim)
    requires NotPast(f, sec)
    ensures var g := CheckVelocities(f, scopes, usd, tok, sec).0; NotPast(g, sec) && SameLogs(f, g, d)
    decreases |scopes|
  {
    if scopes != [] {
      var sc := scopes[0];
      if HasVelocityCap(sc.limits) && sc.key in f.scopes {
        CheckVelocitiesLogs(Touched(f, sc.key, sec), scopes[1..], usd, tok, sec, d);
      } else {
        CheckVelocitiesLogs(f, scopes[1..], usd, tok, sec, d);
      }
    }
  }

  /** No window lost more than fall for each time its key is listed, and that only at sec. */
  ghost predicate Shrank(f: Fw, g: Fw, d: Dim, ks: seq<string>, sec: int, fall: real) {
    forall k, lo, hi {:trigger Signed(LogOf(g, k, d), lo, hi)} ::
      Signed(LogOf(g, k, d), lo, hi) >= Signed(LogOf(f, k, d), lo, hi) - if lo <= sec <= hi then Falls(ks, k, fall) else 0.0
  }

  lemma ShrankFurther(f: Fw, f': Fw, g: Fw, d: Dim, ks: seq<string>, sec: int, usd: real, tok: int)
    requires ks != [] && Shrank(f', g, d, ks[1..], sec, Floor0(-Amount(usd, tok, d)))
    requires OneFell(f, f', ks[0], d, sec, Floor0(-Amount(usd, tok, d)))
    ensures Shrank(f, g, d, ks, sec, Floor0(-Amount(usd, tok, d)))
  {
    hide LogOf, Signed, Amount;
  }

  /** One booking on k, and nothing else. */
  lemma AddedShrinks(f: Fw, g: Fw, k: string, d: Dim, sec: int, usd: real, tok: int)
    requires k in f.scopes && k in g.scopes && g.scopes[k].window == f.scopes[k].window.Added(sec, usd, tok) && NotPast(f, sec)
    ensures g.scopes[k].window.last == sec
    ensures forall lo, hi {:trigger Signed(LogOf(g, k, d), lo, hi)} ::
              Signed(LogOf(g, k, d), lo, hi) >= Signed(LogOf(f, k, d), lo, hi) - if lo <= sec <= hi then Floor0(-Amount(usd, tok, d)) else 0.0
  {
    AddedSigned(f, g, k, d, sec, usd, tok);
    forall lo, hi {:trigger Signed(LogOf(g, k, d), lo, hi)}
      ensures Signed(LogOf(g, k, d), lo, hi) >= Signed(LogOf(f, k, d), lo, hi) - if lo <= sec <= hi then Floor0(-Amount(usd, tok, d)) else 0.0
    {
      assert Signed(LogOf(g, k, d), lo, hi) == Signed(LogOf(f, k, d), lo, hi) + if lo <= sec <= hi then Amount(usd, tok, d) else 0.0;
    }
  }

  ghost predicate OneFell(f: Fw, g: Fw, k: string, d: Dim, sec: int, fall: real) {
    && NotPast(g, sec) && (forall j {:trigger LogOf(g, j, d)} :: j != k ==> LogOf(g, j, d) == LogOf(f, j, d))
    && forall lo, hi {:trigger Signed(LogOf(g, k, d), lo, hi)} ::
         Signed(LogOf(g, k, d), lo, hi) >= Signed(LogOf(f, k, d), lo, hi) - if lo <= sec <= hi then fall else 0.0
  }

  lemma BookOneLog(f: Fw, k: string, sec: nat, usd: real, tok: int, d: Dim)
    requires NotPast(f, sec)
    ensures OneFell(f, BookOne(f, k, sec, usd, tok), k, d, sec, Floor0(-Amount(usd, tok, d)))
  {
    hide Signed, Amount;
    if k in f.scopes {
      AddedShrinks(f, BookOne(f, k, sec, usd, tok), k, d, sec, usd, tok);
    }
  }

  lemma ReleaseOneLog(f: Fw, k: string, usd: real, tok: int, sec: nat, d: Dim)
    requires NotPast(f, sec)
    ensures OneFell(f, ReleaseOne(f, k, true, usd, tok, sec), k, d, sec, Floor0(-Amount(-usd, -tok, d)))
  {
    hide Signed, Amount;
    if k in f.scopes {
      AddedShrinks(f, ReleaseOne(f, k, true, usd, tok, sec), k, d, sec, -usd, -tok);
    }
  }

  lemma {:induction false} BookAllShrinks(f: Fw, ks: seq<string>, sec: nat, usd: real, tok: int, d: Dim)
    requires NotPast(f, sec)
    ensures var g := BookAll(f, ks, sec, usd, tok); NotPast(g, sec) && Shrank(f, g, d, ks, sec, Floor0(-Amount(usd, tok, d)))
    decreases |ks|
  {
    if ks != [] {
      var f' := BookOne(f, ks[0], sec, usd, tok);
      hide Shrank, Signed;
      BookOneLog(f, ks[0], sec, usd, tok, d);
      BookAllShrinks(f', ks[1..], sec, usd, tok, d);
      ShrankFurther(f, f', BookAll(f', ks[1..], sec, usd, tok), d, ks, sec, usd, tok);
    }
  }

  lemma {:induction false} ReleaseAllShrinks(f: Fw, ks: seq<string>, usd: real, tok: int, sec: nat, d: Dim)
    requires NotPast(f, sec)
    ensures var g := ReleaseAll(f, ks, true, usd, tok, sec); NotPast(g, sec) && Shrank(f, g, d, ks, sec, Floor0(-Amount(-usd, -tok, d)))
    decreases |ks|
  {
    if ks != [] {
      var f' := ReleaseOne(f, ks[0], true, usd, tok, sec);
      hide Shrank, Signed;
      ReleaseOneLog(f, ks[0], usd, tok, sec, d);
      ReleaseAllShrinks(f', ks[1..], usd, tok, sec, d);
      ShrankFurther(f, f', ReleaseAll(f', ks[1..], true, usd, tok, sec), d, ks, sec, -usd, -tok);
    }
  }

  /** Releasing a settled ticket books nothing. */
  lemma {:induction false} ReleaseAllLogs(f: Fw, ks: seq<string>, usd: real, tok: int, sec: nat, d: Dim)
    requires NotPast(f, sec)
    ensures var g := ReleaseAll(f, ks, false, usd, tok, sec); NotPast(g, sec) && SameLogs(f, g, d)
    decreases |ks|
  {
    if ks != [] {
      ReleaseAllLogs(ReleaseOne(f, ks[0], false, usd, tok, sec), ks[1..], usd, tok, sec, d);
    }
  }

  lemma EnterLockedLogs(f: Fw, cfg: Config, scopes: seq<Scope>, run: string, hash: string, runMax: real,
                        usd: real, tok: int, now: nat, d: Dim)
    requires NotPast(f, Unix(now)) && usd >= 0.0 && tok >= 0
    ensures var (g, tripped, v) := EnterLocked(f, cfg, scopes, run, hash, runMax, usd, tok, now);
            var b := GC(f, cfg, now);
            && NotPast(g, Unix(now))
            && (v.Denied? ==> SameLogs(b, g, d))
            && (v.Admitted? ==> Grew(b, g, d, ScopeKeys(scopes), Unix(now), Amount(usd, tok, d)))
  {
    var b := GC(f, cfg, now);
    var (c, tripped, bk) := CheckLoopBudget(b, cfg, run, hash, usd, runMax, now);
    BudgetLogs(b, cfg, run, hash, usd, runMax, now, d);
    if !tripped {
      CheckVelocitiesLogs(c, scopes, usd, tok, Unix(now), d);
      var h := CheckVelocities(c, scopes, usd, tok, Unix(now)).0;
      if CheckReserve(c, scopes, usd, tok, now).1.Some? {
        UnreservedLogs(h, bk, usd, Unix(now), d);
      } else {
        ReserveAllGrows(h, scopes, usd, tok, now, d);
      }
    }
  }

  lemma UnreservedLogs(f: Fw, b: string, usd: real, sec: int, d: Dim)
    requires NotPast(f, sec)
    ensures NotPast(Unreserved(f, b, usd), sec) && SameLogs(f, Unreserved(f, b, usd), d)
  {
  }

  lemma LogsByScopes(f: Fw, g: Fw, d: Dim)
    requires f.scopes == g.scopes
    ensures SameLogs(f, g, d) && SameLogs(g, f, d)
  {
  }

  /** A request: a scope's log is kept, or dropped while it reads zero; an admission appends
      the estimate to every scope it names. */
  lemma RequestLogs(f: Fw, cfg: Config, t: Target, hash: string, estUSD: real, estTok: int, remote: bool, now: nat, d: Dim)
    requires NotPast(f, Unix(now))
    ensures var (g, v) := Enter(f, cfg, t, hash, estUSD, estTok, remote, now);
            var b := Base(f, cfg, t, remote, now);
            && NotPast(g, Unix(now))
            && (v.Denied? ==> SameLogs(b, g, d))
            && (v.Admitted? ==> Grew(b, g, d, v.ticket.keys, Unix(now), Estimate(v.ticket, d)))
  {
    var (g, v) := Enter(f, cfg, t, hash, estUSD, estTok, remote, now);
    var f1 := IsKilled(f, cfg, TargetRunKey(t), remote, now).0;
    var usd, tok := Floor0(estUSD), ClampTok(estTok);
    if ReachesLock(f, cfg, t, remote, now) {
      GCIgnoresKills(f, f1.kills, cfg, now);
      EnterLockedLogs(f1, cfg, TargetScopes(cfg, t), TargetRunKey(t), hash, TargetRunMax(cfg, t), usd, tok, now, d);
      var h := EnterLocked(f1, cfg, TargetScopes(cfg, t), TargetRunKey(t), hash, TargetRunMax(cfg, t), usd, tok, now).0;
      var b := GC(f, cfg, now);
      LogsByScopes(b, GC(f1, cfg, now), d);
      LogsByScopes(h, g, d);
      if v.Admitted? {
        EnterTicket(f, cfg, t, hash, estUSD, estTok, remote, now);
        assert g == h;
      }
    } else {
      LogsByScopes(f, g, d);
    }
  }

  lemma BudgetLogs(f: Fw, cfg: Config, run: string, hash: string, usd: real, runMax: real, now: nat, d: Dim)
    requires NotPast(f, Unix(now))
    ensures var g := CheckLoopBudget(f, cfg, run, hash, usd, runMax, now).0; NotPast(g, Unix(now)) && SameLogs(f, g, d)
  {
  }

  // ---- the invariant ------------------------------------------------------------------------------

  /** Estimates admitted on k in the seconds [lo, hi]. */
  function Admitted(s: Sys, k: string, lo: int, hi: int, d: Dim): real {
    SumOf(AdmittedIn(k, lo, hi, d), s.tickets)
  }

  ghost predicate TicketsNotPast(ts: seq<Ticket>, sec: int) {
    forall i :: 0 <= i < |ts| ==> ts[i].at <= sec
  }

  /** How much an operation takes out of the window of k. */
  function Fall(s: Sys, op: Op, k: string, d: Dim): real {
    if !((op.SettleOp? || op.ReleaseOp?) && op.i < |s.tickets|) || s.tickets[op.i].settled || s.tickets[op.i].released then 0.0
    else
      var t := s.tickets[op.i];
      Falls(t.keys, k, Floor0(if op.SettleOp? then -Amount(op.usd - t.usd, op.tok - t.tok, d) else -Amount(-t.usd, -t.tok, d)))
  }

  /** What the downward reconciles of a run took out of the window of k, and when. */
  function Down(cfg: Config, ops: seq<Op>, k: string, d: Dim): Log {
    if ops == [] then []
    else
      var pre, op := ops[..|ops| - 1], ops[|ops| - 1];
      Down(cfg, pre, k, d) + [Entry(Unix(At(op)), Fall(Run(cfg, pre), op, k, d))]
  }

  /** Downward reconciles booked on k in the seconds [lo, hi]. */
  function DownIn(cfg: Config, ops: seq<Op>, k: string, lo: int, hi: int, d: Dim): real {
    Signed(Down(cfg, ops, k, d), lo, hi)
  }

  /** Every estimate admitted in the last minute is still booked in the window, but for what
      was reconciled downward in the same seconds. */
  ghost predicate Covered(s: Sys, down: Log, k: string, d: Dim, sec: int) {
    forall lo, hi {:trigger Admitted(s, k, lo, hi, d)} {:trigger Signed(LogOf(s.fw, k, d), lo, hi)} :: sec - WINDOW < lo ==>
      Admitted(s, k, lo, hi, d) <= Signed(LogOf(s.fw, k, d), lo, hi) + Signed(down, lo, hi)
  }

  /** Estimates admitted on k in the sixty seconds starting at lo. */
  function AdmittedInMinute(s: Sys, k: string, lo: int, d: Dim): real {
    Admitted(s, k, lo, lo + WINDOW - 1, d)
  }

  ghost predicate Capped(s: Sys, down: Log, k: string, d: Dim, top: real) {
    forall lo {:trigger AdmittedInMinute(s, k, lo, d)} :: AdmittedInMinute(s, k, lo, d) <= top + Signed(down, lo, lo + WINDOW - 1)
  }

  ghost predicate WindowInv(s: Sys, down: Log, k: string, d: Dim, top: real, sec: int) {
    NotPast(s.fw, sec) && TicketsNotPast(s.tickets, sec) && NonNegativeLog(down) && Covered(s, down, k, d, sec) && Capped(s, down, k, d, top)
  }

  lemma AdmittedWithin(s: Sys, k: string, d: Dim, lo: int, hi: int, lo': int, hi': int, sec: int)
    requires TicketsOK(s.tickets) && TicketsNotPast(s.tickets, sec)
    requires lo' <= lo && (hi <= hi' || sec <= hi')
    ensures 0.0 <= Admitted(s, k, lo, hi, d) <= Admitted(s, k, lo', hi', d)
  {
    forall i | 0 <= i < |s.tickets|
      ensures 0.0 <= Weight(AdmittedIn(k, lo, hi, d), s.tickets[i]) <= Weight(AdmittedIn(k, lo', hi', d), s.tickets[i])
    {
      assert TicketOK(s.tickets[i]);
    }
    SumLeq(AdmittedIn(k, lo, hi, d), AdmittedIn(k, lo', hi', d), s.tickets);
    SumAtLeast(AdmittedIn(k, lo, hi, d), s.tickets, -1);
  }

  lemma ReadingIsWindowSum(f: Fw, k: string, now: int)
    requires NotPast(f, now) && ValidFw(f)
    ensures SumUSD(f, k, now) == WindowSum(LogOf(f, k, Dollars), now)
    ensures SumTok(f, k, now) == WindowSum(LogOf(f, k, Tokens), now)
  {
    TotalEmpty(now - WINDOW + 1, WINDOW);
  }

  /** A window that reads zero has had nothing booked in its minute that was not taken out again. */
  lemma EmptySigned(log: Log, now: int, lo: int, hi: int)
    requires WindowSum(log, now) == 0.0 && StampedUpTo(log, now) && now - WINDOW < lo
    ensures Signed(log, lo, hi) <= 0.0
  {
    var n: nat := if lo <= hi then hi - lo + 1 else 0;
    TotalZero(log, now - WINDOW + 1, WINDOW);
    forall s | lo <= s < lo + n
      ensures Bucket(log, s) == Bucket([], s)
    {
      if s > now {
        BucketAfterLast(log, now, s);
      }
    }
    TotalCongruent(log, [], lo, n);
    TotalEmpty(lo, n);
    if n > 0 {
      TotalBounds(log, lo, n);
    } else {
      NothingIn(log, lo, hi);
    }
  }

  /** A dropped scope had nothing left in its window. */
  lemma SweepCovered(cfg: Config, s: Sys, down: Log, t: Target, remote: bool, now: nat, k: string, d: Dim, top: real, sec: int)
    requires Inv(s) && WindowInv(s, down, k, d, top, sec) && sec <= Unix(now)
    ensures WindowInv(s.(fw := Base(s.fw, cfg, t, remote, now)), down, k, d, top, Unix(now))
  {
    var b := Base(s.fw, cfg, t, remote, now);
    var s' := s.(fw := b);
    var n := Unix(now);
    ReadingIsWindowSum(s.fw, k, n);
    forall lo, hi {:trigger Admitted(s', k, lo, hi, d)} {:trigger Signed(LogOf(b, k, d), lo, hi)} | n - WINDOW < lo
      ensures Admitted(s', k, lo, hi, d) <= Signed(LogOf(b, k, d), lo, hi) + Signed(down, lo, hi)
    {
      assert Admitted(s', k, lo, hi, d) == Admitted(s, k, lo, hi, d);
      if k in s.fw.scopes && k !in b.scopes {
        EmptySigned(LogOf(s.fw, k, d), n, lo, hi);
      }
    }
    SameMinutes(s, s', down, k, d, top);
  }

  lemma SameMinutes(s: Sys, s': Sys, down: Log, k: string, d: Dim, top: real)
    requires Capped(s, down, k, d, top) && forall lo, hi :: Admitted(s', k, lo, hi, d) == Admitted(s, k, lo, hi, d)
    ensures Capped(s', down, k, d, top)
  {
    forall lo {:trigger AdmittedInMinute(s', k, lo, d)}
      ensures AdmittedInMinute(s', k, lo, d) <= top + Signed(down, lo, lo + WINDOW - 1)
    {
      assert AdmittedInMinute(s', k, lo, d) == AdmittedInMinute(s, k, lo, d);
    }
  }

  /** No request naming k has a cap above top on it, or an estimate above top. */
  ghost predicate WithinVelocity(cfg: Config, op: Op, k: string, d: Dim, top: real) {
    op.Request? ==>
      forall sc :: sc in TargetScopes(cfg, op.target) && sc.key == k ==>
        0.0 < CapOf(sc.limits, d) <= top && Amount(Floor0(op.usd), ClampTok(op.tok), d) <= top
  }

  lemma AdmissionFits(cfg: Config, s: Sys, op: Op, k: string, d: Dim, top: real)
    requires Inv(s) && op.Request? && WithinVelocity(cfg, op, k, d, top)
    requires NotPast(s.fw, Unix(op.now))
    requires var v := Enter(s.fw, cfg, op.target, op.hash, op.usd, op.tok, op.remote, op.now).1;
             v.Admitted? && k in v.ticket.keys
    ensures WindowSum(LogOf(s.fw, k, d), Unix(op.now)) + Amount(Floor0(op.usd), ClampTok(op.tok), d) <= top
  {
    hide EnterCore;
    var Request(t, hash, usd, tok, remote, now) := op;
    EnterTicket(s.fw, cfg, t, hash, usd, tok, remote, now);
    AdmittedFits(s.fw, cfg, t, hash, usd, tok, remote, now);
    var sc := NamedScope(TargetScopes(cfg, t), k);
    ReadingIsWindowSum(s.fw, k, Unix(now));
    assert WindowFits(s.fw, sc, Floor0(usd), ClampTok(tok), Unix(now));
  }

  lemma RequestWindow(cfg: Config, s: Sys, down: Log, op: Op, k: string, d: Dim, top: real, sec: int)
    requires Inv(s) && op.Request? && WithinVelocity(cfg, op, k, d, top)
    requires WindowInv(s, down, k, d, top, sec) && sec <= Unix(op.now)
    ensures WindowInv(Step(cfg, s, op), down, k, d, top, Unix(op.now))
  {
    var Request(t, hash, usd, tok, remote, now) := op;
    var n := Unix(now);
    var b := Base(s.fw, cfg, t, remote, now);
    var s1, s2 := s.(fw := b), Step(cfg, s, op);
    SweepCovered(cfg, s, down, t, remote, now, k, d, top, sec);
    RequestLogs(s.fw, cfg, t, hash, usd, tok, remote, now, d);
    EnterTicket(s.fw, cfg, t, hash, usd, tok, remote, now);
    var v := Enter(s.fw, cfg, t, hash, usd, tok, remote, now).1;
    hide WindowInv, Enter, Base, LogOf, Inv, TicketsOK, WithinVelocity;
    if v.Denied? {
      SameLogsWindow(s1, s2.fw, down, k, d, top, n);
    } else {
      if k in v.ticket.keys {
        AdmissionFits(cfg, s, op, k, d, top);
        SweepKeepsReading(cfg, s, t, remote, now, k, d);
      }
      AdmitWindow(s1, s2.fw, down, v.ticket, k, d, top, n);
    }
  }

  /** What the sweep drops reads zero, before and after. */
  lemma SweepKeepsReading(cfg: Config, s: Sys, t: Target, remote: bool, now: nat, k: string, d: Dim)
    requires Inv(s) && NotPast(s.fw, Unix(now))
    ensures WindowSum(LogOf(Base(s.fw, cfg, t, remote, now), k, d), Unix(now)) <= WindowSum(LogOf(s.fw, k, d), Unix(now))
  {
    TotalEmpty(Unix(now) - WINDOW + 1, WINDOW);
  }

  lemma SameLogsWindow(s: Sys, g: Fw, down: Log, k: string, d: Dim, top: real, sec: int)
    requires WindowInv(s, down, k, d, top, sec) && SameLogs(s.fw, g, d) && NotPast(g, sec)
    ensures WindowInv(s.(fw := g), down, k, d, top, sec)
  {
    assert LogOf(g, k, d) == LogOf(s.fw, k, d);
    forall lo, hi {:trigger Admitted(s.(fw := g), k, lo, hi, d)}
      ensures Admitted(s.(fw := g), k, lo, hi, d) == Admitted(s, k, lo, hi, d)
    {
    }
    SameMinutes(s, s.(fw := g), down, k, d, top);
  }

  /** Admitting a ticket that fits on top of the last minute keeps every minute capped. */
  lemma AdmitWindow(s: Sys, g: Fw, down: Log, t: Ticket, k: string, d: Dim, top: real, sec: int)
    requires TicketsOK(s.tickets) && WindowInv(s, down, k, d, top, sec) && NotPast(g, sec)
    requires t.at == sec || t.keys == []
    requires t.at <= sec && Grew(s.fw, g, d, t.keys, sec, Estimate(t, d))
    requires k in t.keys ==> WindowSum(LogOf(s.fw, k, d), sec) + Estimate(t, d) <= top
    ensures WindowInv(Sys(g, s.tickets + [t]), down, k, d, top, sec)
  {
    hide LogOf, Signed;
    var s' := Sys(g, s.tickets + [t]);
    forall lo, hi {:trigger Admitted(s', k, lo, hi, d)}
      ensures Admitted(s', k, lo, hi, d) == Admitted(s, k, lo, hi, d) + if k in t.keys && lo <= sec <= hi then Estimate(t, d) else 0.0
    {
      SumAppend(AdmittedIn(k, lo, hi, d), s.tickets, t);
    }
    forall lo, hi {:trigger Admitted(s', k, lo, hi, d)} {:trigger Signed(LogOf(g, k, d), lo, hi)} | sec - WINDOW < lo
      ensures Admitted(s', k, lo, hi, d) <= Signed(LogOf(g, k, d), lo, hi) + Signed(down, lo, hi)
    {
      assert Admitted(s, k, lo, hi, d) <= Signed(LogOf(s.fw, k, d), lo, hi) + Signed(down, lo, hi);
    }
    forall lo {:trigger AdmittedInMinute(s', k, lo, d)}
      ensures AdmittedInMinute(s', k, lo, d) <= top + Signed(down, lo, lo + WINDOW - 1)
    {
      var hi := lo + WINDOW - 1;
      assert AdmittedInMinute(s, k, lo, d) <= top + Signed(down, lo, hi);
      if k in t.keys && lo <= sec <= hi {
        AdmittedWithin(s, k, d, lo, hi, lo, sec, sec);
        SignedWithinWindow(LogOf(s.fw, k, d), lo, sec);
        SignedWithin(down, lo, sec, hi);
      }
    }
  }

  /** g has lost at most fall from the window of k at sec. */
  ghost predicate Fell(f: Fw, g: Fw, k: string, d: Dim, sec: int, fall: real) {
    && NotPast(g, sec) && fall >= 0.0
    && forall lo, hi {:trigger Signed(LogOf(g, k, d), lo, hi)} ::
         Signed(LogOf(g, k, d), lo, hi) >= Signed(LogOf(f, k, d), lo, hi) - if lo <= sec <= hi then fall else 0.0
  }

  lemma SettleLogs(f: Fw, t: Ticket, usd: real, tok: int, now: nat, k: string, d: Dim)
    requires NotPast(f, Unix(now)) && !t.settled && !t.released
    ensures Fell(f, Settle(f, t, usd, tok, now).0, k, d, Unix(now), Falls(t.keys, k, Floor0(-Amount(usd - t.usd, tok - t.tok, d))))
  {
    hide BookAll, Falls, Signed;
    var g := BookAll(f, t.keys, Unix(now), usd - t.usd, tok - t.tok);
    BookAllShrinks(f, t.keys, Unix(now), usd - t.usd, tok - t.tok, d);
    FallsNonNegative(t.keys, k, Floor0(-Amount(usd - t.usd, tok - t.tok, d)));
    assert LogOf(SettleRun(g, t.runKey, t.usd, usd), k, d) == LogOf(g, k, d);
  }

  lemma ReleaseLogs(f: Fw, t: Ticket, now: nat, k: string, d: Dim)
    requires NotPast(f, Unix(now)) && !t.released
    ensures Fell(f, Release(f, t, now).0, k, d, Unix(now), if t.settled then 0.0 else Falls(t.keys, k, Floor0(-Amount(-t.usd, -t.tok, d))))
  {
    hide ReleaseAll, Falls, Signed;
    var g := ReleaseAll(f, t.keys, !t.settled, t.usd, t.tok, Unix(now));
    if t.settled {
      ReleaseAllLogs(f, t.keys, t.usd, t.tok, Unix(now), d);
      assert LogOf(g, k, d) == LogOf(f, k, d);
    } else {
      ReleaseAllShrinks(f, t.keys, t.usd, t.tok, Unix(now), d);
      FallsNonNegative(t.keys, k, Floor0(-Amount(-t.usd, -t.tok, d)));
      assert LogOf(Unreserved(g, t.runKey, t.usd), k, d) == LogOf(g, k, d);
    }
  }

  lemma ReconcileLogs(cfg: Config, s: Sys, op: Op, k: string, d: Dim)
    requires (op.SettleOp? || op.ReleaseOp?) && NotPast(s.fw, Unix(op.now))
    ensures Fell(s.fw, Step(cfg, s, op).fw, k, d, Unix(op.now), Fall(s, op, k, d))
  {
    hide Fell, Settle, Release, Falls;
    if op.i < |s.tickets| {
      var t := s.tickets[op.i];
      if op.SettleOp? && !t.settled && !t.released {
        SettleLogs(s.fw, t, op.usd, op.tok, op.now, k, d);
      } else if op.ReleaseOp? && !t.released {
        ReleaseLogs(s.fw, t, op.now, k, d);
      } else {
        NothingFell(cfg, s, op, k, d);
      }
    } else {
      NothingFell(cfg, s, op, k, d);
    }
  }

  lemma NothingFell(cfg: Config, s: Sys, op: Op, k: string, d: Dim)
    requires (op.SettleOp? || op.ReleaseOp?) && NotPast(s.fw, Unix(op.now))
    requires op.i < |s.tickets| ==> s.tickets[op.i].released || (op.SettleOp? && s.tickets[op.i].settled)
    ensures Fell(s.fw, Step(cfg, s, op).fw, k, d, Unix(op.now), Fall(s, op, k, d))
  {
  }

  /** A step that admits nothing and takes at most fall out of the window of k at second sec'. */
  lemma FallWindow(s: Sys, s': Sys, down: Log, fall: real, k: string, d: Dim, top: real, sec: int, sec': int)
    requires WindowInv(s, down, k, d, top, sec) && sec <= sec'
    requires Fell(s.fw, s'.fw, k, d, sec', fall) && TicketsNotPast(s'.tickets, sec')
    requires forall lo, hi :: Admitted(s', k, lo, hi, d) == Admitted(s, k, lo, hi, d)
    ensures WindowInv(s', down + [Entry(sec', fall)], k, d, top, sec')
  {
    hide LogOf, Admitted, NotPast, Signed;
    var down' := down + [Entry(sec', fall)];
    forall lo, hi {:trigger Admitted(s', k, lo, hi, d)} {:trigger Signed(LogOf(s'.fw, k, d), lo, hi)} | sec' - WINDOW < lo
      ensures Admitted(s', k, lo, hi, d) <= Signed(LogOf(s'.fw, k, d), lo, hi) + Signed(down', lo, hi)
    {
      assert Admitted(s, k, lo, hi, d) <= Signed(LogOf(s.fw, k, d), lo, hi) + Signed(down, lo, hi);
      SignedAppend(down, Entry(sec', fall), lo, hi);
    }
    forall lo {:trigger AdmittedInMinute(s', k, lo, d)}
      ensures AdmittedInMinute(s', k, lo, d) <= top + Signed(down', lo, lo + WINDOW - 1)
    {
      assert AdmittedInMinute(s', k, lo, d) == AdmittedInMinute(s, k, lo, d);
      SignedAppend(down, Entry(sec', fall), lo, lo + WINDOW - 1);
    }
  }

  lemma ReconcileWindow(cfg: Config, s: Sys, down: Log, op: Op, k: string, d: Dim, top: real, sec: int)
    requires (op.SettleOp? || op.ReleaseOp?) && Inv(s)
    requires WindowInv(s, down, k, d, top, sec) && sec <= Unix(op.now)
    ensures WindowInv(Step(cfg, s, op), down + [Entry(Unix(op.now), Fall(s, op, k, d))], k, d, top, Unix(op.now))
  {
    var s' := Step(cfg, s, op);
    ReconcileLogs(cfg, s, op, k, d);
    forall lo, hi
      ensures Admitted(s', k, lo, hi, d) == Admitted(s, k, lo, hi, d)
    {
      if op.i < |s.tickets| {
        SumUpdate(AdmittedIn(k, lo, hi, d), s.tickets, op.i, s'.tickets[op.i]);
      }
    }
    FallWindow(s, s', down, Fall(s, op, k, d), k, d, top, sec, Unix(op.now));
  }

  // ---- the bound ----------------------------------------------------------------------------------

  ghost predicate Monotone(ops: seq<Op>) {
    forall i, j :: 0 <= i < j < |ops| ==> At(ops[i]) <= At(ops[j])
  }

  lemma StepWindow(cfg: Config, s: Sys, down: Log, op: Op, k: string, d: Dim, top: real, sec: int)
    requires Inv(s) && WithinVelocity(cfg, op, k, d, top)
    requires WindowInv(s, down, k, d, top, sec) && sec <= Unix(At(op))
    ensures WindowInv(Step(cfg, s, op), down + [Entry(Unix(At(op)), Fall(s, op, k, d))], k, d, top, Unix(At(op)))
  {
    match op
    case Request(_, _, _, _, _, now) =>
      RequestWindow(cfg, s, down, op, k, d, top, sec);
      FallWindow(Step(cfg, s, op), Step(cfg, s, op), down, 0.0, k, d, top, Unix(now), Unix(now));
    case SettleOp(_, _, _, _) => ReconcileWindow(cfg, s, down, op, k, d, top, sec);
    case ReleaseOp(_, _) => ReconcileWindow(cfg, s, down, op, k, d, top, sec);
    case KillRun(_, now) => FallWindow(s, Step(cfg, s, op), down, 0.0, k, d, top, sec, Unix(now));
    case RunKilled(_, _, now) => FallWindow(s, Step(cfg, s, op), down, 0.0, k, d, top, sec, Unix(now));
  }

  lemma {:induction false} WindowInvHolds(cfg: Config, ops: seq<Op>, k: string, d: Dim, top: real)
    requires Monotone(ops) && ActualsNonNegative(ops) && top > 0.0
    requires forall i :: 0 <= i < |ops| ==> WithinVelocity(cfg, ops[i], k, d, top)
    ensures WindowInv(Run(cfg, ops), Down(cfg, ops, k, d), k, d, top, if ops == [] then 0 else Unix(At(ops[|ops| - 1])))
  {
    if ops == [] {
      assert forall lo, hi :: Admitted(Start, k, lo, hi, d) == 0.0;
    } else {
      var n := |ops| - 1;
      WindowInvHolds(cfg, ops[..n], k, d, top);
      AccountingExact(cfg, ops[..n]);
      StepWindow(cfg, Run(cfg, ops[..n]), Down(cfg, ops[..n], k, d), ops[n], k, d, top, if n == 0 then 0 else Unix(At(ops[n - 1])));
    }
  }

  /** In every run, the estimates admitted on a scope in any sixty consecutive seconds total at most
      its cap or its largest estimate, whichever is larger, and what was reconciled downward on it
      in those seconds. */
  lemma VelocityBoundHolds(cfg: Config, ops: seq<Op>, k: string, d: Dim, top: real, lo: int)
    requires Monotone(ops) && ActualsNonNegative(ops) && top > 0.0
    requires forall i :: 0 <= i < |ops| ==> WithinVelocity(cfg, ops[i], k, d, top)
    ensures Admitted(Run(cfg, ops), k, lo, lo + 59, d) <= top + DownIn(cfg, ops, k, lo, lo + 59, d)
  {
    WindowInvHolds(cfg, ops, k, d, top);
    assert AdmittedInMinute(Run(cfg, ops), k, lo, d) <= top + DownIn(cfg, ops, k, lo, lo + WINDOW - 1, d);
  }

  // ---- without downward reconciles -------------------------------------------------------------------

  /** No reconcile takes anything out of a window: settles bill at least their estimate, and
      only settled tickets are released. */
  ghost predicate UpwardOnly(s: Sys, op: Op) {
    (op.SettleOp? || op.ReleaseOp?) && op.i < |s.tickets| ==>
      var t := s.tickets[op.i];
      && (op.SettleOp? ==> op.usd >= t.usd && op.tok >= t.tok)
      && (op.ReleaseOp? ==> t.settled || t.released)
  }

  ghost predicate UpwardRun(cfg: Config, ops: seq<Op>) {
    ops != [] ==> UpwardRun(cfg, ops[..|ops| - 1]) && UpwardOnly(Run(cfg, ops[..|ops| - 1]), ops[|ops| - 1])
  }

  lemma {:induction false} NothingDown(cfg: Config, ops: seq<Op>, k: string, lo: int, hi: int, d: Dim)
    requires UpwardRun(cfg, ops)
    ensures DownIn(cfg, ops, k, lo, hi, d) == 0.0
  {
    if ops != [] {
      var pre, op := ops[..|ops| - 1], ops[|ops| - 1];
      NothingDown(cfg, pre, k, lo, hi, d);
      if (op.SettleOp? || op.ReleaseOp?) && op.i < |Run(cfg, pre).tickets| {
        FallsNonNegative(Run(cfg, pre).tickets[op.i].keys, k, 0.0);
      }
      SignedAppend(Down(cfg, pre, k, d), Entry(Unix(At(op)), Fall(Run(cfg, pre), op, k, d)), lo, hi);
    }
  }

  /** Then the estimates admitted on a scope in any sixty consecutive seconds total at most its cap or
      its largest estimate. */
  lemma VelocityCapHolds(cfg: Config, ops: seq<Op>, k: string, d: Dim, top: real, lo: int)
    requires Monotone(ops) && ActualsNonNegative(ops) && UpwardRun(cfg, ops) && top > 0.0
    requires forall i :: 0 <= i < |ops| ==> WithinVelocity(cfg, ops[i], k, d, top)
    ensures Admitted(Run(cfg, ops), k, lo, lo + 59, d) <= top
  {
    VelocityBoundHolds(cfg, ops, k, d, top, lo);
    NothingDown(cfg, ops, k, lo, lo + WINDOW - 1, d);
  }
}
