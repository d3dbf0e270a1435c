/** When a request is admitted, and what an admission or a denial does to the readings. */
module FirewallAdmission {
  import opened WindowLog
  import opened KillStore
  import opened FirewallSpec
  import opened FirewallSteps

  // ---- the checks, stated without their order ----------------------------------------------

  predicate VelocityFits(f: Fw, sc: Scope, usd: real, tok: int, sec: int) {
    sc.key in f.scopes ==> !OverVelocity(sc.limits, SumUSD(f, sc.key, sec), SumTok(f, sc.key, sec), usd, tok)
  }

  predicate ConcurrencyFits(f: Fw, sc: Scope) {
    sc.limits.concurrent > 0 ==> Inflight(f, sc.key) < sc.limits.concurrent
  }

  ghost predicate ChainFits(f: Fw, scopes: seq<Scope>, usd: real, tok: int, sec: int) {
    forall sc :: sc in scopes ==> VelocityFits(f, sc, usd, tok, sec) && ConcurrencyFits(f, sc)
  }

  /** The run has room for the estimate under its own dollar cap. */
  predicate RunFits(f: Fw, runKey: string, usd: real, runMax: real) {
    runKey != "" && runMax > 0.0 ==> RunUSD(f, runKey) + usd <= runMax
  }

  lemma {:induction false} CheckVelocitiesPasses(f: Fw, scopes: seq<Scope>, usd: real, tok: int, sec: nat)
    requires ValidFw(f)
    ensures CheckVelocities(f, scopes, usd, tok, sec).1.None? <==>
            forall sc :: sc in scopes ==> VelocityFits(f, sc, usd, tok, sec)
    decreases |scopes|
  {
    if scopes != [] {
      var sc := scopes[0];
      assert forall x :: x in scopes <==> x == sc || x in scopes[1..];
      assert sc in scopes;
      if !HasVelocityCap(sc.limits) || sc.key !in f.scopes {
        CheckVelocitiesPasses(f, scopes[1..], usd, tok, sec);
      } else {
        var f' := Touched(f, sc.key, sec);
        TouchedReadings(f, sc.key, sec);
        CheckVelocitiesPasses(f', scopes[1..], usd, tok, sec);
        forall x: Scope
          ensures VelocityFits(f', x, usd, tok, sec) == VelocityFits(f, x, usd, tok, sec)
        {
          assert SumUSD(f', x.key, sec) == SumUSD(f, x.key, sec);
        }
      }
    }
  }

  lemma {:induction false} CheckConcurrencyPasses(f: Fw, scopes: seq<Scope>)
    ensures CheckConcurrency(f, scopes).None? <==> forall sc :: sc in scopes ==> ConcurrencyFits(f, sc)
  {
    if scopes != [] {
      assert forall x :: x in scopes <==> x == scopes[0] || x in scopes[1..];
      assert scopes[0] in scopes;
      CheckConcurrencyPasses(f, scopes[1..]);
    }
  }

  /** The ordered two-pass check passes exactly when every scope of the chain fits. */
  lemma CheckReservePasses(f: Fw, scopes: seq<Scope>, usd: real, tok: int, now: nat)
    requires ValidFw(f)
    ensures CheckReserve(f, scopes, usd, tok, now).1.None? <==> ChainFits(f, scopes, usd, tok, Unix(now))
  {
    var sec := Unix(now);
    CheckVelocitiesPasses(f, scopes, usd, tok, sec);
    CheckVelocitiesReadings(f, scopes, usd, tok, sec);
    var g := CheckVelocities(f, scopes, usd, tok, sec).0;
    CheckConcurrencyPasses(g, scopes);
    forall sc: Scope
      ensures ConcurrencyFits(g, sc) == ConcurrencyFits(f, sc)
    {
      assert Inflight(g, sc.key) == Inflight(f, sc.key);
    }
  }

  // ---- one decision --------------------------------------------------------------------------

  predicate ReachesLock(f: Fw, cfg: Config, t: Target, remote: bool, now: nat) {
    && cfg.enabled
    && (t.Chain? ==> WellFormedChain(t.scopes))
    && !IsKilled(f, cfg, TargetRunKey(t), remote, now).1
  }

  /** The state a decision starts from: swept if the decision reaches the lock. */
  function Base(f: Fw, cfg: Config, t: Target, remote: bool, now: nat): Fw {
    if ReachesLock(f, cfg, t, remote, now) then GC(f, cfg, now) else f
  }

  lemma BaseReadings(f: Fw, cfg: Config, t: Target, remote: bool, now: nat)
    requires ValidFw(f)
    ensures var b := Base(f, cfg, t, remote, now);
            && ValidFw(b) && SameCounts(f, b) && SameSums(f, b, Unix(now))
            && (forall k :: k in f.scopes && k !in b.scopes ==> f.scopes[k].inflight == 0)
            && (forall k :: k in b.scopes ==> k in f.scopes && b.scopes[k].runUSD == f.scopes[k].runUSD
                                              && b.scopes[k].billed == f.scopes[k].billed)
  {
    GCReadings(f, cfg, now);
  }

  lemma GCIgnoresKills(f: Fw, kills: KillVal, cfg: Config, now: nat)
    ensures GC(f.(kills := kills), cfg, now).scopes == GC(f, cfg, now).scopes
    ensures GC(f.(kills := kills), cfg, now).loops == GC(f, cfg, now).loops
  {
  }

  ghost predicate Admits(b: Fw, g: Fw, t: Ticket) {
    && ValidFw(g)
    && (forall k {:trigger Inflight(g, k)} :: Inflight(g, k) == Inflight(b, k) + multiset(t.keys)[k])
    && (forall k {:trigger RunUSD(g, k)} :: RunUSD(g, k) == RunUSD(b, k) + if k == t.runKey && k != "" then t.usd else 0.0)
    && (forall k {:trigger Billed(g, k)} :: Billed(g, k) == Billed(b, k))
    && (t.runKey == "" || t.runKey in g.scopes)
  }

  /** All-or-nothing under the lock: a denial leaves every reading as the sweep left it (a
      budget held and then rolled back included), and an admission adds one in flight per
      scope and the estimate to the run budget. */
  lemma EnterLockedReadings(f: Fw, cfg: Config, scopes: seq<Scope>, runKey: string, hash: string, runMax: real,
                            usd: real, tok: int, now: nat)
    requires ValidFw(f) && usd >= 0.0 && forall k :: RunUSD(f, k) >= 0.0
    ensures var (g, tripped, v) := EnterLocked(f, cfg, scopes, runKey, hash, runMax, usd, tok, now);
            var b := GC(f, cfg, now);
            && (tripped ==> v.Denied?)
            && (v.Denied? ==> ValidFw(g) && SameReadings(b, g, Unix(now)) && g.kills == b.kills)
            && (v.Admitted? ==> Admits(b, g, v.ticket) && g.kills == b.kills)
  {
    var b := GC(f, cfg, now);
    GCReadings(f, cfg, now);
    CheckLoopBudgetReadings(b, cfg, runKey, hash, usd, runMax, now);
    var (g, tripped, bk) := CheckLoopBudget(b, cfg, runKey, hash, usd, runMax, now);
    if !tripped {
      CheckReserveReadings(g, scopes, usd, tok, now);
      var (h, denied) := CheckReserve(g, scopes, usd, tok, now);
      if denied.Some? {
        assert bk != "" ==> RunUSD(h, bk) == RunUSD(g, bk) == RunUSD(b, bk) + usd;
        assert bk != "" && bk in b.scopes ==> RunUSD(b, bk) == RunUSD(f, bk);
        UnreservedReadings(h, bk, usd, Unix(now));
        var r := Unreserved(h, bk, usd);
        assert SameBudgets(b, r);
        assert SameSums(b, r, Unix(now));
      } else {
        assert h.scopes.Keys >= g.scopes.Keys by {
          ReserveAllKeys(CheckVelocities(g, scopes, usd, tok, Unix(now)).0, scopes, usd, tok, now);
          CheckVelocitiesReadings(g, scopes, usd, tok, Unix(now));
        }
      }
    }
  }

  lemma {:induction false} ReserveAllKeys(f: Fw, scopes: seq<Scope>, usd: real, tok: int, now: nat)
    ensures ReserveAll(f, scopes, usd, tok, now).scopes.Keys >= f.scopes.Keys
    decreases |scopes|
  {
    if scopes != [] {
      ReserveAllKeys(ReserveOne(f, scopes[0].key, usd, tok, now), scopes[1..], usd, tok, now);
    }
  }

  /** Under the lock, admission is exactly: no loop trip, room in the run budget, and room
      under every cap of every scope. */
  lemma EnterLockedAdmitsIff(f: Fw, cfg: Config, scopes: seq<Scope>, runKey: string, hash: string, runMax: real,
                             usd: real, tok: int, now: nat)
    requires ValidFw(f)
    ensures var b := GC(f, cfg, now);
            EnterLocked(f, cfg, scopes, runKey, hash, runMax, usd, tok, now).2.Admitted? <==>
            && !LoopChecked(b, cfg, runKey, hash, now).1
            && RunFits(b, runKey, usd, runMax)
            && ChainFits(CheckLoopBudget(b, cfg, runKey, hash, usd, runMax, now).0, scopes, usd, tok, Unix(now))
  {
    var b := GC(f, cfg, now);
    GCReadings(f, cfg, now);
    CheckLoopBudgetReadings(b, cfg, runKey, hash, usd, runMax, now);
    assert LoopChecked(b, cfg, runKey, hash, now).0.scopes == b.scopes;
    CheckReservePasses(CheckLoopBudget(b, cfg, runKey, hash, usd, runMax, now).0, scopes, usd, tok, now);
  }

  lemma RunScopeInChain(cfg: Config, t: Target)
    ensures TargetRunKey(t) != "" ==> TargetRunKey(t) in ScopeKeys(TargetScopes(cfg, t))
  {
    var scopes := TargetScopes(cfg, t);
    if TargetRunKey(t) != "" {
      var sc := match t case Flat(_, _) => scopes[|scopes| - 1] case Chain(_) => RunScopes(scopes)[|RunScopes(scopes)| - 1];
      var i :| 0 <= i < |scopes| && scopes[i] == sc;
      assert ScopeKeys(scopes)[i] == TargetRunKey(t);
    }
  }

  /** One admission decision on any state whose run budgets are non-negative. */
  lemma EnterReadings(f: Fw, cfg: Config, t: Target, hash: string, estUSD: real, estTok: int, remote: bool, now: nat)
    requires ValidFw(f) && forall k :: RunUSD(f, k) >= 0.0
    ensures var (g, v) := Enter(f, cfg, t, hash, estUSD, estTok, remote, now);
            var b := Base(f, cfg, t, remote, now);
            && ValidFw(g)
            && (v.Denied? ==> SameReadings(b, g, Unix(now)))
            && (v.Admitted? ==> Admits(b, g, v.ticket))
  {
    var runKey := TargetRunKey(t);
    var f1 := IsKilled(f, cfg, runKey, remote, now).0;
    assert forall k :: RunUSD(f1, k) == RunUSD(f, k);
    if ReachesLock(f, cfg, t, remote, now) {
      GCIgnoresKills(f, f1.kills, cfg, now);
      var (h, tripped, v) := EnterLocked(f1, cfg, TargetScopes(cfg, t), runKey, hash, TargetRunMax(cfg, t),
                                         Floor0(estUSD), ClampTok(estTok), now);
      EnterLockedReadings(f1, cfg, TargetScopes(cfg, t), runKey, hash, TargetRunMax(cfg, t),
                          Floor0(estUSD), ClampTok(estTok), now);
      var g := Enter(f, cfg, t, hash, estUSD, estTok, remote, now).0;
      ReadingsByScopes(GC(f1, cfg, now), h, GC(f, cfg, now), g, v, Unix(now));
    } else {
      SameScopesSameReadings(f, f1, Unix(now));
    }
  }

  lemma ReadingsByScopes(b: Fw, h: Fw, b': Fw, h': Fw, v: Verdict, sec: int)
    requires b.scopes == b'.scopes && h.scopes == h'.scopes && ValidFw(h)
    requires v.Denied? ==> SameReadings(b, h, sec)
    requires v.Admitted? ==> Admits(b, h, v.ticket)
    ensures ValidFw(h')
    ensures v.Denied? ==> SameReadings(b', h', sec)
    ensures v.Admitted? ==> Admits(b', h', v.ticket)
  {
    SameScopesSameReadings(h, h', sec);
    SameScopesSameReadings(b', b, sec);
  }

  /** The ticket handed out records exactly what was reserved. */
  lemma EnterTicket(f: Fw, cfg: Config, t: Target, hash: string, estUSD: real, estTok: int, remote: bool, now: nat)
    ensures var v := Enter(f, cfg, t, hash, estUSD, estTok, remote, now).1;
            && (v.Admitted? && cfg.enabled ==>
                  v.ticket == Ticket(ScopeKeys(TargetScopes(cfg, t)),
                                     if TargetRunMax(cfg, t) > 0.0 then TargetRunKey(t) else "",
                                     Floor0(estUSD), ClampTok(estTok), Unix(now), false, false))
            && (v.Admitted? ==> v.ticket.runKey == "" || v.ticket.runKey in v.ticket.keys)
  {
    RunScopeInChain(cfg, t);
  }

  lemma SameScopesSameReadings(f: Fw, g: Fw, sec: int)
    requires f.scopes == g.scopes
    ensures SameReadings(f, g, sec) && SameReadings(g, f, sec)
  {
  }

  /** Which caps an admitted request respected, read in the state it arrived in. A window
      cap can be passed over in exactly one case: the scope had nothing in its window. */
  lemma AdmittedFits(f: Fw, cfg: Config, t: Target, hash: string, estUSD: real, estTok: int, remote: bool, now: nat)
    requires ValidFw(f) && cfg.enabled && Enter(f, cfg, t, hash, estUSD, estTok, remote, now).1.Admitted?
    ensures var g := Enter(f, cfg, t, hash, estUSD, estTok, remote, now).0;
            var sec := Unix(now);
            && (TargetRunKey(t) != "" && TargetRunMax(cfg, t) > 0.0 ==> RunUSD(g, TargetRunKey(t)) <= TargetRunMax(cfg, t))
            && (forall sc :: sc in TargetScopes(cfg, t) ==>
                  ConcurrencyFits(f, sc) && WindowFits(f, sc, Floor0(estUSD), ClampTok(estTok), sec))
  {
    var usd, tok, sec := Floor0(estUSD), ClampTok(estTok), Unix(now);
    var runKey, runMax, scopes := TargetRunKey(t), TargetRunMax(cfg, t), TargetScopes(cfg, t);
    var f1 := IsKilled(f, cfg, runKey, remote, now).0;
    GCReadings(f1, cfg, now);
    EnterLockedAdmitsIff(f1, cfg, scopes, runKey, hash, runMax, usd, tok, now);
    var b := GC(f1, cfg, now);
    CheckLoopBudgetReadings(b, cfg, runKey, hash, usd, runMax, now);
    var c := CheckLoopBudget(b, cfg, runKey, hash, usd, runMax, now).0;
    var h := EnterLocked(f1, cfg, scopes, runKey, hash, runMax, usd, tok, now).0;
    CheckReserveReadings(c, scopes, usd, tok, now);
    assert RunUSD(h, runKey) == RunUSD(c, runKey);
    forall sc | sc in scopes
      ensures ConcurrencyFits(f, sc) && WindowFits(f, sc, usd, tok, sec)
    {
      assert VelocityFits(c, sc, usd, tok, sec) && ConcurrencyFits(c, sc);
    }
  }

  predicate WindowFits(f: Fw, sc: Scope, usd: real, tok: int, sec: int) {
    || !OverVelocity(sc.limits, SumUSD(f, sc.key, sec), SumTok(f, sc.key, sec), usd, tok)
    || (SumUSD(f, sc.key, sec) == 0.0 && SumTok(f, sc.key, sec) == 0.0)
  }

  // ---- what a denial says --------------------------------------------------------------------------------------

  /** Scope i is the first of the chain that breaks a velocity cap. */
  ghost predicate FirstOver(f: Fw, scopes: seq<Scope>, i: nat, usd: real, tok: int, sec: int) {
    && i < |scopes| && !VelocityFits(f, scopes[i], usd, tok, sec)
    && forall j :: 0 <= j < i ==> VelocityFits(f, scopes[j], usd, tok, sec)
  }

  /** Scope i is the first of the chain without a free slot. */
  ghost predicate FirstFull(f: Fw, scopes: seq<Scope>, i: nat) {
    && i < |scopes| && !ConcurrencyFits(f, scopes[i])
    && forall j :: 0 <= j < i ==> ConcurrencyFits(f, scopes[j])
  }

  lemma {:induction false} CheckVelocitiesNames(f: Fw, scopes: seq<Scope>, usd: real, tok: int, sec: nat) returns (i: nat)
    requires ValidFw(f) && CheckVelocities(f, scopes, usd, tok, sec).1.Some?
    ensures FirstOver(f, scopes, i, usd, tok, sec) && scopes[i].name == CheckVelocities(f, scopes, usd, tok, sec).1.value
    decreases |scopes|
  {
    var sc := scopes[0];
    if VelocityFits(f, sc, usd, tok, sec) {
      var f' := if HasVelocityCap(sc.limits) && sc.key in f.scopes then Touched(f, sc.key, sec) else f;
      if HasVelocityCap(sc.limits) && sc.key in f.scopes {
        TouchedReadings(f, sc.key, sec);
      }
      forall x: Scope
        ensures VelocityFits(f', x, usd, tok, sec) == VelocityFits(f, x, usd, tok, sec)
      {
        assert SumUSD(f', x.key, sec) == SumUSD(f, x.key, sec);
      }
      i := CheckVelocitiesNames(f', scopes[1..], usd, tok, sec);
      i := i + 1;
    } else {
      i := 0;
    }
  }

  lemma {:induction false} CheckConcurrencyNames(f: Fw, scopes: seq<Scope>) returns (i: nat)
    requires CheckConcurrency(f, scopes).Some?
    ensures FirstFull(f, scopes, i) && scopes[i].name == CheckConcurrency(f, scopes).value
  {
    if ConcurrencyFits(f, scopes[0]) {
      i := CheckConcurrencyNames(f, scopes[1..]);
      i := i + 1;
    } else {
      i := 0;
    }
  }

  /** What a denial for velocity or concurrency tells the caller: the first scope over a velocity cap and
      a minute to wait, or, when every window has room, the first scope without a slot. */
  ghost predicate Tells(f: Fw, scopes: seq<Scope>, usd: real, tok: int, sec: int, d: Denial) {
    match d
    case Velocity(name, wait) => wait == 60 && exists i: nat :: FirstOver(f, scopes, i, usd, tok, sec) && scopes[i].name == name
    case Concurrency(name) =>
      && (forall sc :: sc in scopes ==> VelocityFits(f, sc, usd, tok, sec))
      && exists i: nat :: FirstFull(f, scopes, i) && scopes[i].name == name
    case _ => false
  }

  lemma CheckReserveTells(f: Fw, scopes: seq<Scope>, usd: real, tok: int, now: nat)
    requires ValidFw(f)
    ensures var d := CheckReserve(f, scopes, usd, tok, now).1; d.Some? ==> Tells(f, scopes, usd, tok, Unix(now), d.value)
  {
    var sec := Unix(now);
    var (g, over) := CheckVelocities(f, scopes, usd, tok, sec);
    if over.Some? {
      var i := CheckVelocitiesNames(f, scopes, usd, tok, sec);
    } else if CheckConcurrency(g, scopes).Some? {
      CheckVelocitiesPasses(f, scopes, usd, tok, sec);
      CheckVelocitiesReadings(f, scopes, usd, tok, sec);
      var i := CheckConcurrencyNames(g, scopes);
      forall sc: Scope
        ensures ConcurrencyFits(g, sc) == ConcurrencyFits(f, sc)
      {
        assert Inflight(g, sc.key) == Inflight(f, sc.key);
      }
      assert FirstFull(f, scopes, i);
    }
  }

  /** A denial other than for a kill or a malformed chain says which scope stood in the way, read in the
      state the checks were made in. */
  lemma DenialSays(f: Fw, cfg: Config, t: Target, hash: string, estUSD: real, estTok: int, remote: bool, now: nat)
    requires ValidFw(f)
    ensures var v := Enter(f, cfg, t, hash, estUSD, estTok, remote, now).1;
            var usd, tok, runKey := Floor0(estUSD), ClampTok(estTok), TargetRunKey(t);
            var c := CheckLoopBudget(GC(f, cfg, now), cfg, runKey, hash, usd, TargetRunMax(cfg, t), now).0;
            && (v == Denied(BadChain) <==> cfg.enabled && t.Chain? && !WellFormedChain(t.scopes))
            && (v.Denied? && !v.why.Killed? && !v.why.BadChain? ==> Tells(c, TargetScopes(cfg, t), usd, tok, Unix(now), v.why))
  {
    hide GC, CheckLoopBudget, CheckReserve, WellFormedChain;
    var usd, tok, runKey := Floor0(estUSD), ClampTok(estTok), TargetRunKey(t);
    var g := IsKilled(f, cfg, runKey, remote, now).0;
    LockedDenies(f, g, cfg, TargetScopes(cfg, t), runKey, hash, TargetRunMax(cfg, t), usd, tok, now);
  }

  lemma LockedDenies(f: Fw, g: Fw, cfg: Config, scopes: seq<Scope>, runKey: string, hash: string, runMax: real,
                     usd: real, tok: int, now: nat)
    requires ValidFw(f) && g == f.(kills := g.kills)
    ensures var (_, tripped, v) := EnterLocked(g, cfg, scopes, runKey, hash, runMax, usd, tok, now);
            var c := CheckLoopBudget(GC(f, cfg, now), cfg, runKey, hash, usd, runMax, now).0;
            v.Denied? && !tripped ==> Tells(c, scopes, usd, tok, Unix(now), v.why)
  {
    hide GC, CheckReserve, Tells, LoopChecked;
    var cf := CheckLoopBudget(GC(f, cfg, now), cfg, runKey, hash, usd, runMax, now).0;
    var cg := CheckLoopBudget(GC(g, cfg, now), cfg, runKey, hash, usd, runMax, now).0;
    GCReadings(g, cfg, now);
    CheckLoopBudgetReadings(GC(g, cfg, now), cfg, runKey, hash, usd, runMax, now);
    CheckReserveTells(cg, scopes, usd, tok, now);
    BudgetIgnoresKills(f, g, cfg, runKey, hash, usd, runMax, now);
    hide CheckLoopBudget;
    if CheckReserve(cg, scopes, usd, tok, now).1.Some? {
      TellsByScopes(cg, cf, scopes, usd, tok, Unix(now), CheckReserve(cg, scopes, usd, tok, now).1.value);
    }
  }

  lemma BudgetIgnoresKills(f: Fw, g: Fw, cfg: Config, runKey: string, hash: string, usd: real, runMax: real, now: nat)
    requires g == f.(kills := g.kills)
    ensures CheckLoopBudget(GC(g, cfg, now), cfg, runKey, hash, usd, runMax, now).0.scopes
         == CheckLoopBudget(GC(f, cfg, now), cfg, runKey, hash, usd, runMax, now).0.scopes
  {
    hide GC;
    GCIgnoresKills(f, g.kills, cfg, now);
  }

  lemma TellsByScopes(f: Fw, g: Fw, scopes: seq<Scope>, usd: real, tok: int, sec: int, d: Denial)
    requires f.scopes == g.scopes && Tells(f, scopes, usd, tok, sec, d)
    ensures Tells(g, scopes, usd, tok, sec, d)
  {
    assert forall sc: Scope :: VelocityFits(g, sc, usd, tok, sec) == VelocityFits(f, sc, usd, tok, sec);
    if d.Velocity? {
      var i: nat :| FirstOver(f, scopes, i, usd, tok, sec) && scopes[i].name == d.scope;
      assert FirstOver(g, scopes, i, usd, tok, sec);
    } else {
      var i: nat :| FirstFull(f, scopes, i) && scopes[i].name == d.scope;
      assert FirstFull(g, scopes, i);
    }
  }
}
