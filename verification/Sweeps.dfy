/** When an instance sweeps, and exactly what it forgets: idle scopes, idle prompt histories and
    expired kills, told from the operations that came before. */
module Sweeps {
  import opened WindowLog
  import opened KillStore
  import opened FirewallSpec
  import opened FirewallAdmission
  import opened FirewallRuns
  import opened LoopDetection
  import opened TripKills

  // ---- what the operations say --------------------------------------------------------------------------------

  /** The request gets to the lock 30 seconds or more after the last sweep, or finds 50,000 scopes. */
  predicate SweepDue(cfg: Config, f: Fw, op: Op, last: int) {
    && op.Request? && ReachesLock(f, cfg, op.target, op.remote, op.now)
    && (|f.scopes| >= 50_000 || op.now - last >= 30_000_000_000)
  }

  /** When the last sweep was; before any, one is due at once. */
  function LastSweep(cfg: Config, ops: seq<Op>): int {
    if ops == [] then -30_000_000_000
    else
      var pre, op := ops[..|ops| - 1], ops[|ops| - 1];
      if SweepDue(cfg, Run(cfg, pre).fw, op, LastSweep(cfg, pre)) then op.now else LastSweep(cfg, pre)
  }

  /** The request reserves k: it is admitted with k in its chain, or holds its estimate on the run k. */
  predicate Reserves(cfg: Config, s: Sys, op: Op, k: string) {
    && op.Request? && ReachesLock(s.fw, cfg, op.target, op.remote, op.now)
    && ((Enter(s.fw, cfg, op.target, op.hash, op.usd, op.tok, op.remote, op.now).1.Admitted?
         && k in ScopeKeys(TargetScopes(cfg, op.target)))
        || (k == TargetRunKey(op.target) != "" && TargetRunMax(cfg, op.target) > 0.0 && !TripKills.Trips(cfg, s.fw, op)))
  }

  /** When k was last reserved. */
  function LastReserved(cfg: Config, ops: seq<Op>, k: string): int {
    if ops == [] then 0
    else
      var pre, op := ops[..|ops| - 1], ops[|ops| - 1];
      if Reserves(cfg, Run(cfg, pre), op, k) then op.now else LastReserved(cfg, pre, k)
  }

  /** When run r last sent a prompt. */
  function LastPrompt(cfg: Config, ops: seq<Op>, r: string): int {
    if ops == [] then 0
    else
      var pre, op := ops[..|ops| - 1], ops[|ops| - 1];
      if Prompts(cfg, Run(cfg, pre).fw, op, r) then op.now else LastPrompt(cfg, pre, r)
  }

  // ---- stamps ---------------------------------------------------------------------------------------------------

  /** When a scope in the map was last stamped. */
  function Stamp(f: Fw, k: string): Option<int> {
    if k in f.scopes then Some(f.scopes[k].lastTouch) else None
  }

  ghost predicate SameStamps(f: Fw, g: Fw) {
    g.lastGC == f.lastGC && forall k {:trigger Stamp(f, k)} {:trigger Stamp(g, k)} :: Stamp(g, k) == Stamp(f, k)
  }

  lemma {:induction false} CheckVelocitiesStamps(f: Fw, scopes: seq<Scope>, usd: real, tok: int, sec: nat)
    ensures SameStamps(f, CheckVelocities(f, scopes, usd, tok, sec).0)
    decreases |scopes|
  {
    if scopes != [] {
      var k := scopes[0].key;
      var f' := if HasVelocityCap(scopes[0].limits) && k in f.scopes then Touched(f, k, sec) else f;
      assert SameStamps(f, f');
      CheckVelocitiesStamps(f', scopes[1..], usd, tok, sec);
    }
  }

  lemma {:induction false} ReserveAllStamps(f: Fw, scopes: seq<Scope>, usd: real, tok: int, now: nat, k: string)
    ensures ReserveAll(f, scopes, usd, tok, now).lastGC == f.lastGC
    ensures Stamp(ReserveAll(f, scopes, usd, tok, now), k) == if k in ScopeKeys(scopes) then Some(now) else Stamp(f, k)
    decreases |scopes|
  {
    if scopes != [] {
      assert ScopeKeys(scopes) == [scopes[0].key] + ScopeKeys(scopes[1..]);
      ReserveAllStamps(ReserveOne(f, scopes[0].key, usd, tok, now), scopes[1..], usd, tok, now, k);
    }
  }

  lemma CheckReserveStamps(f: Fw, scopes: seq<Scope>, usd: real, tok: int, now: nat, k: string)
    ensures var (g, denied) := CheckReserve(f, scopes, usd, tok, now);
            && g.lastGC == f.lastGC
            && Stamp(g, k) == if denied.None? && k in ScopeKeys(scopes) then Some(now) else Stamp(f, k)
  {
    CheckVelocitiesStamps(f, scopes, usd, tok, Unix(now));
    var g := CheckVelocities(f, scopes, usd, tok, Unix(now)).0;
    assert Stamp(g, k) == Stamp(f, k);
    ReserveAllStamps(g, scopes, usd, tok, now, k);
  }

  /** Under the lock a scope is stamped when it is reserved or its budget is held, and only then. */
  lemma EnterLockedStamps(f: Fw, cfg: Config, scopes: seq<Scope>, run: string, hash: string, runMax: real,
                          usd: real, tok: int, now: nat, k: string)
    ensures var (g, tripped, v) := EnterLocked(f, cfg, scopes, run, hash, runMax, usd, tok, now);
            && (tripped ==> v.Denied?) && g.lastGC == GC(f, cfg, now).lastGC
            && Stamp(g, k) ==
               if (v.Admitted? && k in ScopeKeys(scopes)) || (k == run != "" && runMax > 0.0 && !tripped) then Some(now)
               else Stamp(GC(f, cfg, now), k)
  {
    hide GC, CheckReserve, CheckLoopBudget;
    var (g, tripped, b) := CheckLoopBudget(GC(f, cfg, now), cfg, run, hash, usd, runMax, now);
    LoopBudgetStamps(GC(f, cfg, now), cfg, run, hash, usd, runMax, now, k);
    if !tripped {
      CheckReserveStamps(g, scopes, usd, tok, now, k);
      var h := CheckReserve(g, scopes, usd, tok, now).0;
      assert Stamp(Unreserved(h, b, usd), k) == Stamp(h, k);
    }
  }

  lemma LoopBudgetStamps(f: Fw, cfg: Config, run: string, hash: string, usd: real, runMax: real, now: nat, k: string)
    ensures var (g, tripped, b) := CheckLoopBudget(f, cfg, run, hash, usd, runMax, now);
            && g.lastGC == f.lastGC
            && Stamp(g, k) == if k == run != "" && runMax > 0.0 && !tripped then Some(now) else Stamp(f, k)
  {
    hide LoopChecked;
    LoopCheckedScopes(f, cfg, run, hash, now);
  }

  lemma LoopCheckedScopes(f: Fw, cfg: Config, run: string, hash: string, now: nat)
    ensures LoopChecked(f, cfg, run, hash, now).0.scopes == f.scopes && LoopChecked(f, cfg, run, hash, now).0.lastGC == f.lastGC
  {
  }

  lemma {:induction false} ReconcileStamps(f: Fw, ks: seq<string>, unbook: bool, usd: real, tok: int, sec: nat)
    ensures SameStamps(f, BookAll(f, ks, sec, usd, tok)) && SameStamps(f, ReleaseAll(f, ks, unbook, usd, tok, sec))
    decreases |ks|
  {
    if ks != [] {
      ReconcileStamps(BookOne(f, ks[0], sec, usd, tok), ks[1..], unbook, usd, tok, sec);
      ReconcileStamps(ReleaseOne(f, ks[0], unbook, usd, tok, sec), ks[1..], unbook, usd, tok, sec);
      assert SameStamps(f, BookOne(f, ks[0], sec, usd, tok)) && SameStamps(f, ReleaseOne(f, ks[0], unbook, usd, tok, sec));
    }
  }

  /** What a request stamps, and that nothing else stamps anything. */
  lemma StepStamps(cfg: Config, s: Sys, op: Op, k: string)
    ensures Step(cfg, s, op).fw.lastGC ==
            if op.Request? && ReachesLock(s.fw, cfg, op.target, op.remote, op.now) then GC(s.fw, cfg, op.now).lastGC else s.fw.lastGC
    ensures Stamp(Step(cfg, s, op).fw, k) ==
            if Reserves(cfg, s, op, k) then Some(op.now)
            else if op.Request? && ReachesLock(s.fw, cfg, op.target, op.remote, op.now) then Stamp(GC(s.fw, cfg, op.now), k)
            else Stamp(s.fw, k)
  {
    match op
    case Request(t, hash, usd, tok, remote, now) =>
      RequestStamps(cfg, s, op, k);
    case SettleOp(i, usd, tok, now) =>
      if i < |s.tickets| {
        var t := s.tickets[i];
        ReconcileStamps(s.fw, t.keys, false, usd - t.usd, tok - t.tok, Unix(now));
        assert Stamp(BookAll(s.fw, t.keys, Unix(now), usd - t.usd, tok - t.tok), k) == Stamp(s.fw, k);
      }
    case ReleaseOp(i, now) =>
      if i < |s.tickets| {
        var t := s.tickets[i];
        ReconcileStamps(s.fw, t.keys, !t.settled, t.usd, t.tok, Unix(now));
        assert Stamp(ReleaseAll(s.fw, t.keys, !t.settled, t.usd, t.tok, Unix(now)), k) == Stamp(s.fw, k);
      }
    case KillRun(_, _) =>
    case RunKilled(_, _, _) =>
  }

  lemma RequestStamps(cfg: Config, s: Sys, op: Op, k: string)
    requires op.Request?
    ensures Step(cfg, s, op).fw.lastGC ==
            if ReachesLock(s.fw, cfg, op.target, op.remote, op.now) then GC(s.fw, cfg, op.now).lastGC else s.fw.lastGC
    ensures Stamp(Step(cfg, s, op).fw, k) ==
            if Reserves(cfg, s, op, k) then Some(op.now)
            else if ReachesLock(s.fw, cfg, op.target, op.remote, op.now) then Stamp(GC(s.fw, cfg, op.now), k)
            else Stamp(s.fw, k)
  {
    hide EnterLocked, RunScopes, WellFormedChain, FlatScopes, TargetRunKey, TargetRunMax, TargetScopes, GC, KilledStep, TripKills.Trips;
    var Request(t, hash, usd, tok, remote, now) := op;
    var run := TargetRunKey(t);
    var f := IsKilled(s.fw, cfg, run, remote, now).0;
    EnterLockedStamps(f, cfg, TargetScopes(cfg, t), run, hash, TargetRunMax(cfg, t), Floor0(usd), ClampTok(tok), now, k);
    GCIgnoresKills(s.fw, f.kills, cfg, now);
    assert Stamp(GC(f, cfg, now), k) == Stamp(GC(s.fw, cfg, now), k) && GC(f, cfg, now).lastGC == GC(s.fw, cfg, now).lastGC by {
      SweepTime(s.fw, f, cfg, now);
    }
    if ReachesLock(s.fw, cfg, t, remote, now) {
      LockedTrips(cfg, s, op);
      var (h, tripped, v) := EnterLocked(f, cfg, TargetScopes(cfg, t), run, hash, TargetRunMax(cfg, t), Floor0(usd), ClampTok(tok), now);
      var (g, w) := Enter(s.fw, cfg, t, hash, usd, tok, remote, now);
      assert Stamp(g, k) == Stamp(h, k) && g.lastGC == h.lastGC && (w.Admitted? <==> v.Admitted?);
    }
  }

  lemma SweepTime(f: Fw, g: Fw, cfg: Config, now: nat)
    requires g == f.(kills := g.kills)
    ensures GC(g, cfg, now).lastGC == GC(f, cfg, now).lastGC
  {
  }

  /** Under the lock a request trips exactly as it trips on the state it arrived in. */
  lemma LockedTrips(cfg: Config, s: Sys, op: Op)
    requires op.Request? && ReachesLock(s.fw, cfg, op.target, op.remote, op.now)
    ensures var run := TargetRunKey(op.target);
            EnterLocked(IsKilled(s.fw, cfg, run, op.remote, op.now).0, cfg, TargetScopes(cfg, op.target), run, op.hash,
                        TargetRunMax(cfg, op.target), Floor0(op.usd), ClampTok(op.tok), op.now).1
            <==> TripKills.Trips(cfg, s.fw, op)
  {
    hide EnterLocked, RunScopes, WellFormedChain, FlatScopes, TargetRunKey, TargetRunMax, TargetScopes, GC, LoopChecked, RunFits, KilledStep;
    var Request(t, hash, usd, tok, remote, now) := op;
    var run := TargetRunKey(t);
    var f := IsKilled(s.fw, cfg, run, remote, now).0;
    LockedLoops(f, cfg, TargetScopes(cfg, t), run, hash, TargetRunMax(cfg, t), Floor0(usd), ClampTok(tok), now);
    SweptSame(s.fw, f, cfg, run, hash, now);
    SweptFits(s.fw, f, cfg, run, hash, Floor0(usd), TargetRunMax(cfg, t), now);
  }

  // ---- the sweep ---------------------------------------------------------------------------------------------------

  /** The sweep of this request drops exactly the idle scopes and histories, if it is due. */
  lemma SweptStamps(f: Fw, cfg: Config, now: nat, k: string)
    ensures var g := GC(f, cfg, now);
            var due := |f.scopes| >= 50_000 || now - f.lastGC >= 30_000_000_000;
            && g.lastGC == (if due then now else f.lastGC)
            && Stamp(g, k) == (if due && k in f.scopes && IdleSince(f, k, f.scopes[k].lastTouch, now) then None else Stamp(f, k))
            && (k in g.loops <==> k in f.loops && !(due && now - f.loops[k].lastTouch > 120_000_000_000))
            && (k in g.loops ==> g.loops[k] == f.loops[k])
  {
  }

  /** Nothing is in flight on k, nothing counts in its windows, and it was last reserved over two
      minutes ago. */
  predicate IdleSince(f: Fw, k: string, reserved: int, now: nat) {
    && Inflight(f, k) == 0 && SumUSD(f, k, Unix(now)) == 0.0 && SumTok(f, k, Unix(now)) == 0.0
    && now - reserved > 120_000_000_000
  }

  // ---- the stamps of a run --------------------------------------------------------------------------------------

  /** Scopes and histories carry the times of the operations that last touched them. */
  ghost predicate Timed(cfg: Config, ops: seq<Op>) {
    var f := Run(cfg, ops).fw;
    && f.lastGC == LastSweep(cfg, ops)
    && (forall k {:trigger Stamp(f, k)} :: Stamp(f, k).Some? ==> Stamp(f, k) == Some(LastReserved(cfg, ops, k)))
    && (forall r :: r in f.loops ==> f.loops[r].lastTouch == LastPrompt(cfg, ops, r))
  }

  lemma StepTimed(cfg: Config, ops: seq<Op>, op: Op)
    requires Timed(cfg, ops)
    ensures Timed(cfg, ops + [op])
  {
    hide Reserves, ReachesLock, Step, GC;
    var s := Run(cfg, ops);
    assert (ops + [op])[..|ops|] == ops;
    var f, g := s.fw, Step(cfg, s, op).fw;
    assert Run(cfg, ops + [op]).fw == g;
    StepStamps(cfg, s, op, "");
    SweptStamps(f, cfg, if op.Request? then op.now else 0, "");
    forall k {:trigger Stamp(g, k)} | Stamp(g, k).Some?
      ensures Stamp(g, k) == Some(LastReserved(cfg, ops + [op], k))
    {
      StepStamps(cfg, s, op, k);
      SweptStamps(f, cfg, if op.Request? then op.now else 0, k);
      assert Stamp(f, k).Some? ==> Stamp(f, k) == Some(LastReserved(cfg, ops, k));
    }
    forall r | r in g.loops
      ensures g.loops[r].lastTouch == LastPrompt(cfg, ops + [op], r)
    {
      StepPrompts(cfg, s, op, r);
    }
  }

  lemma {:induction false} RunTimed(cfg: Config, ops: seq<Op>)
    ensures Timed(cfg, ops)
  {
    if ops == [] {
    } else {
      var n := |ops| - 1;
      RunTimed(cfg, ops[..n]);
      StepTimed(cfg, ops[..n], ops[n]);
      assert ops == ops[..n] + [ops[n]];
    }
  }

  /** A prompt stamps its own run's history and no other. */
  lemma StepPrompts(cfg: Config, s: Sys, op: Op, r: string)
    ensures var g := Step(cfg, s, op).fw;
            && (r in g.loops <==> Prompts(cfg, s.fw, op, r) || (r in s.fw.loops && !Drops(cfg, s.fw, op, r)))
            && (r in g.loops ==> g.loops[r].lastTouch == if Prompts(cfg, s.fw, op, r) then op.now else s.fw.loops[r].lastTouch)
  {
    hide ReachesLock, Step, TargetRunKey;
    StepLoops(cfg, s, op);
  }

  // ---- the theorems -----------------------------------------------------------------------------------------------

  /** In every run, after a request that reaches the lock a scope is in the map exactly when the request
      reserved it, or it was there and this request was not one to sweep it away: a sweep comes 30 seconds
      after the last one or at 50,000 scopes, and takes the scopes with nothing in flight and nothing in
      their windows that were last reserved over two minutes ago. */
  lemma SweptExactly(cfg: Config, ops: seq<Op>, op: Op, k: string)
    requires op.Request? && ReachesLock(Run(cfg, ops).fw, cfg, op.target, op.remote, op.now)
    ensures var s := Run(cfg, ops);
            var sweeps := SweepDue(cfg, s.fw, op, LastSweep(cfg, ops));
            k in Step(cfg, s, op).fw.scopes <==>
            Reserves(cfg, s, op, k) || (k in s.fw.scopes && !(sweeps && IdleSince(s.fw, k, LastReserved(cfg, ops, k), op.now)))
  {
    hide Reserves, ReachesLock, Step, GC;
    var s := Run(cfg, ops);
    RunTimed(cfg, ops);
    StepStamps(cfg, s, op, k);
    SweptStamps(s.fw, cfg, op.now, k);
    assert Stamp(Step(cfg, s, op).fw, k).Some? <==> k in Step(cfg, s, op).fw.scopes;
    assert Stamp(s.fw, k).Some? <==> k in s.fw.scopes;
  }

  /** Likewise for prompt histories, which go two minutes after the run's last prompt. */
  lemma HistoriesSweptExactly(cfg: Config, ops: seq<Op>, op: Op, r: string)
    requires op.Request? && ReachesLock(Run(cfg, ops).fw, cfg, op.target, op.remote, op.now)
    ensures var f := Run(cfg, ops).fw;
            Drops(cfg, f, op, r) <==>
            r in f.loops && SweepDue(cfg, f, op, LastSweep(cfg, ops)) && op.now - LastPrompt(cfg, ops, r) > 120_000_000_000
  {
    hide ReachesLock, GC;
    RunTimed(cfg, ops);
    SweptStamps(Run(cfg, ops).fw, cfg, op.now, r);
  }

  lemma CheckedKills(f: Fw, cfg: Config, run: string, remote: bool, now: nat, r: string)
    requires r != run
    ensures var g := IsKilled(f, cfg, run, remote, now).0;
            && (|g.scopes| >= MAX_SCOPES || now - g.lastGC >= GC_INTERVAL ==>
                  (r in GC(g, cfg, now).kills.m <==> r in LiveKills(f.kills, cfg.kill, now)))
            && (r in LiveKills(GC(g, cfg, now).kills, cfg.kill, now) <==> r in LiveKills(f.kills, cfg.kill, now))
  {
  }

  lemma KillOther(s: KillVal, cfg: KillConfig, run: string, now: int, r: string)
    requires r != run && (r in s.m ==> r in LiveKills(s, cfg, now))
    ensures r in KillStep(s, cfg, run, now).0.m <==> r in s.m
  {
  }

  /** A sweep drops every expired kill and no other. */
  lemma KillsSweptExactly(cfg: Config, ops: seq<Op>, op: Op, r: string)
    requires SweepDue(cfg, Run(cfg, ops).fw, op, LastSweep(cfg, ops)) && r != TargetRunKey(op.target)
    ensures r in Step(cfg, Run(cfg, ops), op).fw.kills.m <==> r in LiveKills(Run(cfg, ops).fw.kills, cfg.kill, op.now)
  {
    RunTimed(cfg, ops);
    var f, run := Run(cfg, ops).fw, TargetRunKey(op.target);
    CheckedKills(f, cfg, run, op.remote, op.now, r);
    KillOther(GC(IsKilled(f, cfg, run, op.remote, op.now).0, cfg, op.now).kills, cfg.kill, run, op.now, r);
    TrippedStep(cfg, Run(cfg, ops), op);
  }
}
