/** What each firewall operation does to the readings of every scope: its in-flight
    count, its run budget and its two window sums. */
module FirewallSteps {
  import opened WindowLog
  import opened Windows
  import opened FirewallSpec

  ghost predicate ValidFw(f: Fw) {
    forall k :: k in f.scopes ==> f.scopes[k].window.Valid()
  }

  ghost predicate SameCounts(f: Fw, g: Fw) {
    forall k {:trigger Inflight(g, k)} :: Inflight(g, k) == Inflight(f, k)
  }

  ghost predicate SameBudgets(f: Fw, g: Fw) {
    forall k {:trigger RunUSD(g, k)} {:trigger Billed(g, k)} :: RunUSD(g, k) == RunUSD(f, k) && Billed(g, k) == Billed(f, k)
  }

  /** Every window reads the same from second sec on. */
  ghost predicate SameSums(f: Fw, g: Fw, sec: int) {
    forall k, s {:trigger SumUSD(g, k, s)} {:trigger SumTok(g, k, s)} ::
      sec <= s ==> SumUSD(g, k, s) == SumUSD(f, k, s) && SumTok(g, k, s) == SumTok(f, k, s)
  }

  ghost predicate SameReadings(f: Fw, g: Fw, sec: int) {
    SameCounts(f, g) && SameBudgets(f, g) && SameSums(f, g, sec)
  }

  // ---- the sweep -----------------------------------------------------------------------

  /** A window that reads zero now reads zero until something is booked in it. */
  lemma ZeroStaysZero(w: WindowVal, sec: int, later: int)
    requires w.Valid() && w.SumUSD(sec) == 0.0 && w.SumTok(sec) == 0.0 && sec <= later
    ensures w.SumUSD(later) == 0.0 && w.SumTok(later) == 0.0
  {
    LogZeroStaysZero(w.usd, w.last, w.Stamp(sec), w.Stamp(later));
    LogZeroStaysZero(w.tok, w.last, w.Stamp(sec), w.Stamp(later));
  }

  lemma LogZeroStaysZero(log: Log, last: int, sec: int, later: int)
    requires StampedUpTo(log, last) && WindowSum(log, sec) == 0.0 && sec <= later
    requires last <= sec || log == []
    ensures WindowSum(log, later) == 0.0
  {
    TotalZero(log, sec - WINDOW + 1, WINDOW);
    forall s {:trigger Bucket(log, s)} | later - WINDOW < s <= later
      ensures Bucket(log, s) == Bucket([], s)
    {
      if s > sec && log != [] {
        BucketAfterLast(log, last, s);
      }
    }
    TotalCongruent(log, [], later - WINDOW + 1, WINDOW);
    TotalEmpty(later - WINDOW + 1, WINDOW);
  }

  /** The sweep changes no count and no window sum; a scope it drops had nothing in flight. */
  lemma GCReadings(f: Fw, cfg: Config, now: nat)
    requires ValidFw(f)
    ensures ValidFw(GC(f, cfg, now))
    ensures SameCounts(f, GC(f, cfg, now)) && SameSums(f, GC(f, cfg, now), Unix(now))
    ensures forall k :: k in f.scopes && k !in GC(f, cfg, now).scopes ==> f.scopes[k].inflight == 0
    ensures forall k :: k in GC(f, cfg, now).scopes ==>
              k in f.scopes && GC(f, cfg, now).scopes[k].runUSD == f.scopes[k].runUSD
              && GC(f, cfg, now).scopes[k].billed == f.scopes[k].billed
  {
    var g := GC(f, cfg, now);
    var sec := Unix(now);
    forall k, s | sec <= s
      ensures SumUSD(g, k, s) == SumUSD(f, k, s) && SumTok(g, k, s) == SumTok(f, k, s)
    {
      if g != f && k in f.scopes {
        var w := f.scopes[k].window;
        if k in g.scopes {
          AdvanceDoesNotChangeSums(w, sec, s);
        } else {
          ZeroStaysZero(w, sec, s);
        }
      }
    }
    forall k | k in g.scopes
      ensures g.scopes[k].window.Valid()
    {
      OpsKeepValid(f.scopes[k].window, sec, 0.0, 0);
    }
  }

  // ---- checking reserves nothing ---------------------------------------------------------

  lemma TouchedReadings(f: Fw, k: string, sec: nat)
    requires ValidFw(f) && k in f.scopes
    ensures ValidFw(Touched(f, k, sec)) && SameReadings(f, Touched(f, k, sec), sec)
    ensures Touched(f, k, sec).scopes.Keys == f.scopes.Keys
  {
    var w := f.scopes[k].window;
    OpsKeepValid(w, sec, 0.0, 0);
    forall s | sec <= s
      ensures w.Advanced(sec).SumUSD(s) == w.SumUSD(s) && w.Advanced(sec).SumTok(s) == w.SumTok(s)
    {
      AdvanceDoesNotChangeSums(w, sec, s);
    }
  }

  lemma {:induction false} CheckVelocitiesReadings(f: Fw, scopes: seq<Scope>, usd: real, tok: int, sec: nat)
    requires ValidFw(f)
    ensures var g := CheckVelocities(f, scopes, usd, tok, sec).0;
            ValidFw(g) && SameReadings(f, g, sec) && g.scopes.Keys == f.scopes.Keys && g.kills == f.kills && g.loops == f.loops
    decreases |scopes|
  {
    if scopes != [] {
      var sc := scopes[0];
      if !HasVelocityCap(sc.limits) || sc.key !in f.scopes {
        CheckVelocitiesReadings(f, scopes[1..], usd, tok, sec);
      } else {
        var f' := Touched(f, sc.key, sec);
        TouchedReadings(f, sc.key, sec);
        CheckVelocitiesReadings(f', scopes[1..], usd, tok, sec);
        var g := CheckVelocities(f', scopes[1..], usd, tok, sec).0;
        assert SameReadings(f, g, sec);
      }
    }
  }

  // ---- reserving -------------------------------------------------------------------------

  lemma ReserveOneReadings(f: Fw, k: string, usd: real, tok: int, now: nat)
    requires ValidFw(f)
    ensures var g := ReserveOne(f, k, usd, tok, now);
            && ValidFw(g) && SameBudgets(f, g)
            && (forall j {:trigger Inflight(g, j)} :: Inflight(g, j) == Inflight(f, j) + if j == k then 1 else 0)
            && g.kills == f.kills && g.loops == f.loops && g.lastGC == f.lastGC
  {
    OpsKeepValid((if k in f.scopes then f.scopes[k] else FreshScope).window, Unix(now), usd, tok);
  }

  lemma ScopeKeysCons(scopes: seq<Scope>, k: string)
    requires scopes != []
    ensures multiset(ScopeKeys(scopes))[k] == multiset(ScopeKeys(scopes[1..]))[k] + if k == scopes[0].key then 1 else 0
  {
    assert ScopeKeys(scopes) == [scopes[0].key] + ScopeKeys(scopes[1..]);
  }

  lemma {:induction false} ReserveAllReadings(f: Fw, scopes: seq<Scope>, usd: real, tok: int, now: nat)
    requires ValidFw(f)
    ensures var g := ReserveAll(f, scopes, usd, tok, now);
            && ValidFw(g) && SameBudgets(f, g)
            && (forall k {:trigger Inflight(g, k)} :: Inflight(g, k) == Inflight(f, k) + multiset(ScopeKeys(scopes))[k])
            && g.kills == f.kills && g.loops == f.loops && g.lastGC == f.lastGC
    decreases |scopes|
  {
    var g := ReserveAll(f, scopes, usd, tok, now);
    if scopes == [] {
      assert ScopeKeys(scopes) == [];
    } else {
      var f' := ReserveOne(f, scopes[0].key, usd, tok, now);
      ReserveOneReadings(f, scopes[0].key, usd, tok, now);
      ReserveAllReadings(f', scopes[1..], usd, tok, now);
      assert SameBudgets(f, g);
      forall k {:trigger Inflight(g, k)}
        ensures Inflight(g, k) == Inflight(f, k) + multiset(ScopeKeys(scopes))[k]
      {
        ScopeKeysCons(scopes, k);
        assert Inflight(g, k) == Inflight(f', k) + multiset(ScopeKeys(scopes[1..]))[k];
      }
    }
  }

  // ---- reconciling -----------------------------------------------------------------------

  lemma {:induction false} BookAllReadings(f: Fw, ks: seq<string>, sec: nat, dUSD: real, dTok: int)
    requires ValidFw(f)
    ensures var g := BookAll(f, ks, sec, dUSD, dTok);
            ValidFw(g) && SameCounts(f, g) && SameBudgets(f, g) && g.(scopes := f.scopes) == f && g.scopes.Keys == f.scopes.Keys
    decreases |ks|
  {
    if ks != [] {
      var f' := BookOne(f, ks[0], sec, dUSD, dTok);
      if ks[0] in f.scopes {
        OpsKeepValid(f.scopes[ks[0]].window, sec, dUSD, dTok);
      }
      assert SameCounts(f, f') && SameBudgets(f, f');
      BookAllReadings(f', ks[1..], sec, dUSD, dTok);
    }
  }

  lemma ReleaseOneReadings(f: Fw, k: string, unbook: bool, usd: real, tok: int, sec: nat)
    requires ValidFw(f) && Inflight(f, k) >= 1
    ensures var g := ReleaseOne(f, k, unbook, usd, tok, sec);
            && ValidFw(g) && SameBudgets(f, g)
            && (forall j {:trigger Inflight(g, j)} :: Inflight(g, j) == Inflight(f, j) - if j == k then 1 else 0)
            && g.(scopes := f.scopes) == f && g.scopes.Keys == f.scopes.Keys
  {
    OpsKeepValid(f.scopes[k].window, sec, -usd, -tok);
  }

  lemma {:induction false} ReleaseAllReadings(f: Fw, ks: seq<string>, unbook: bool, usd: real, tok: int, sec: nat)
    requires ValidFw(f)
    requires forall k :: Inflight(f, k) >= multiset(ks)[k]
    ensures var g := ReleaseAll(f, ks, unbook, usd, tok, sec);
            && ValidFw(g) && SameBudgets(f, g)
            && (forall k {:trigger Inflight(g, k)} :: Inflight(g, k) == Inflight(f, k) - multiset(ks)[k])
            && g.(scopes := f.scopes) == f && g.scopes.Keys == f.scopes.Keys
    decreases |ks|
  {
    if ks != [] {
      assert ks == [ks[0]] + ks[1..];
      var f' := ReleaseOne(f, ks[0], unbook, usd, tok, sec);
      assert Inflight(f, ks[0]) >= multiset(ks)[ks[0]] >= 1;
      ReleaseOneReadings(f, ks[0], unbook, usd, tok, sec);
      ReleaseAllReadings(f', ks[1..], unbook, usd, tok, sec);
    }
  }

  // ---- admission -------------------------------------------------------------------------

  /** CheckReserve: a denial changes no reading; an admission adds one in flight per scope. */
  lemma CheckReserveReadings(f: Fw, scopes: seq<Scope>, usd: real, tok: int, now: nat)
    requires ValidFw(f)
    ensures var (g, denied) := CheckReserve(f, scopes, usd, tok, now);
            && ValidFw(g) && SameBudgets(f, g) && g.kills == f.kills && g.loops == f.loops
            && (denied.Some? ==> SameReadings(f, g, Unix(now)) && g.scopes.Keys == f.scopes.Keys)
            && (denied.None? ==>
                  (forall k {:trigger Inflight(g, k)} :: Inflight(g, k) == Inflight(f, k) + multiset(ScopeKeys(scopes))[k]))
  {
    CheckVelocitiesReadings(f, scopes, usd, tok, Unix(now));
    var g := CheckVelocities(f, scopes, usd, tok, Unix(now)).0;
    ReserveAllReadings(g, scopes, usd, tok, now);
  }

  lemma HoldReadings(f: Fw, k: string, usd: real, now: nat)
    requires ValidFw(f)
    ensures var g := AddRun(Ensured(f, k, now), k, usd);
            && ValidFw(g) && SameCounts(f, g) && SameSums(f, g, Unix(now)) && g.kills == f.kills && k in g.scopes
            && (forall j {:trigger RunUSD(g, j)} :: RunUSD(g, j) == RunUSD(f, j) + if j == k then usd else 0.0)
            && (forall j {:trigger Billed(g, j)} :: Billed(g, j) == Billed(f, j))
  {
    EmptySums();
  }

  /** The budget step holds exactly the estimate, and only on the run's own scope. */
  lemma CheckLoopBudgetReadings(f: Fw, cfg: Config, runKey: string, hash: string, usd: real, runMax: real, now: nat)
    requires ValidFw(f)
    ensures var (g, tripped, b) := CheckLoopBudget(f, cfg, runKey, hash, usd, runMax, now);
            && ValidFw(g) && SameCounts(f, g) && SameSums(f, g, Unix(now)) && g.kills == f.kills
            && (b == "" || (b == runKey && b in g.scopes && 0.0 < runMax && RunUSD(g, b) <= runMax))
            && (tripped ==> b == "")
            && (runKey != "" && runMax > 0.0 && !tripped ==> b == runKey)
            && (forall k {:trigger RunUSD(g, k)} :: RunUSD(g, k) == RunUSD(f, k) + if k == b && b != "" then usd else 0.0)
            && (forall k {:trigger Billed(g, k)} :: Billed(g, k) == Billed(f, k))
  {
    var h := LoopChecked(f, cfg, runKey, hash, now).0;
    assert h.scopes == f.scopes && h.kills == f.kills;
    HoldReadings(h, runKey, usd, now);
  }

  lemma EmptySums()
    ensures forall s {:trigger EmptyWindow.SumUSD(s)} {:trigger EmptyWindow.SumTok(s)} ::
              EmptyWindow.SumUSD(s) == 0.0 && EmptyWindow.SumTok(s) == 0.0
  {
    forall s
      ensures EmptyWindow.SumUSD(s) == 0.0 && EmptyWindow.SumTok(s) == 0.0
    {
      TotalEmpty(EmptyWindow.Stamp(s) - WINDOW + 1, WINDOW);
    }
  }

  lemma UnreservedReadings(f: Fw, b: string, usd: real, sec: int)
    requires ValidFw(f) && (b != "" ==> b in f.scopes && RunUSD(f, b) >= usd)
    ensures var g := Unreserved(f, b, usd);
            && ValidFw(g) && SameCounts(f, g) && SameSums(f, g, sec) && g.kills == f.kills
            && (forall k {:trigger RunUSD(g, k)} :: RunUSD(g, k) == RunUSD(f, k) - if k == b && b != "" then usd else 0.0)
            && (forall k {:trigger Billed(g, k)} :: Billed(g, k) == Billed(f, k))
  {
  }
}
