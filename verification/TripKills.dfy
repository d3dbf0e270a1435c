/** A request that loops or runs out of its run's budget kills the run, and nothing else a request
    does kills one. */
module TripKills {
  import opened WindowLog
  import opened KillStore
  import opened FirewallSpec
  import opened FirewallAdmission
  import opened FirewallRuns
  import opened KillSafety
  import opened LoopDetection
  import opened SharedSpec
  import opened SharedMode

  /** Kills that have not expired. */
  function LiveKills(s: KillVal, cfg: KillConfig, now: int): set<string> {
    set k | k in s.m && now - s.m[k] <= cfg.ttl
  }

  /** The request reaches the lock, and loops or does not fit its run's budget. */
  predicate Trips(cfg: Config, f: Fw, op: Op) {
    && op.Request? && ReachesLock(f, cfg, op.target, op.remote, op.now)
    && (Loops(cfg, f, op)
        || !RunFits(GC(f, cfg, op.now), TargetRunKey(op.target), Floor0(op.usd), TargetRunMax(cfg, op.target)))
  }

  lemma SweptIsLive(s: KillVal, cfg: KillConfig, now: int)
    ensures Swept(s, cfg, now).m.Keys == LiveKills(s, cfg, now) && LiveKills(Swept(s, cfg, now), cfg, now) == LiveKills(s, cfg, now)
    ensures |LiveKills(s, cfg, now)| <= |s.m|
  {
    SubsetSize(LiveKills(s, cfg, now), s.m.Keys);
  }

  /** A kill of a run the map does not hold is recorded exactly when fewer than cap kills are live. */
  lemma RecordedIff(s: KillVal, cfg: KillConfig, run: string, now: int)
    requires run !in s.m
    ensures var g := KillStep(s, cfg, run, now).0;
            && (|LiveKills(s, cfg, now)| < cfg.cap ==> run in g.m && g.m[run] == now)
            && (|LiveKills(s, cfg, now)| >= cfg.cap ==> run !in g.m)
  {
    SweptIsLive(s, cfg, now);
    assert |Swept(s, cfg, now).m| == |Swept(s, cfg, now).m.Keys|;
  }

  /** The kill check and the sweep lose no live kill, and add none. */
  lemma CheckedIsLive(f: Fw, cfg: Config, run: string, remote: bool, now: nat)
    requires run != "" && !IsKilled(f, cfg, run, remote, now).1
    ensures var g := IsKilled(f, cfg, run, remote, now).0;
            && run !in g.kills.m && run !in GC(g, cfg, now).kills.m
            && LiveKills(GC(g, cfg, now).kills, cfg.kill, now) == LiveKills(f.kills, cfg.kill, now)
  {
    SweptIsLive(IsKilled(f, cfg, run, remote, now).0.kills, cfg.kill, now);
  }

  lemma TrippedStep(cfg: Config, s: Sys, op: Op)
    requires op.Request? && ReachesLock(s.fw, cfg, op.target, op.remote, op.now)
    ensures var run := TargetRunKey(op.target);
            var g := GC(IsKilled(s.fw, cfg, run, op.remote, op.now).0, cfg, op.now);
            Step(cfg, s, op).fw.kills == if Trips(cfg, s.fw, op) then KillStep(g.kills, cfg.kill, run, op.now).0 else g.kills
    ensures Trips(cfg, s.fw, op) ==>
              TargetRunKey(op.target) != "" && Step(cfg, s, op).tickets == s.tickets
              && Enter(s.fw, cfg, op.target, op.hash, op.usd, op.tok, op.remote, op.now).1 == Denied(Killed)
  {
    hide EnterLocked, RunScopes, WellFormedChain, FlatScopes, TargetRunKey, TargetRunMax, TargetScopes, GC, LoopChecked, RunFits, KilledStep;
    var Request(t, hash, usd, tok, remote, now) := op;
    var run, f := TargetRunKey(t), s.fw;
    var g := IsKilled(f, cfg, run, remote, now).0;
    LockedLoops(g, cfg, TargetScopes(cfg, t), run, hash, TargetRunMax(cfg, t), Floor0(usd), ClampTok(tok), now);
    SweptSame(f, g, cfg, run, hash, now);
    SweptFits(f, g, cfg, run, hash, Floor0(usd), TargetRunMax(cfg, t), now);
    EnterLockedKills(g, cfg, TargetScopes(cfg, t), run, hash, TargetRunMax(cfg, t), Floor0(usd), ClampTok(tok), now);
    NoRunNoTrip(GC(f, cfg, now), cfg, run, hash, Floor0(usd), TargetRunMax(cfg, t), now);
  }

  lemma NoRunNoTrip(f: Fw, cfg: Config, run: string, hash: string, usd: real, runMax: real, now: nat)
    ensures run == "" ==> !LoopChecked(f, cfg, run, hash, now).1 && RunFits(f, run, usd, runMax)
  {
  }

  /** A request that trips is denied, and its run is killed from that moment unless cap kills of other
      runs are live; a request that does not trip kills no run. */
  lemma TripKillsIff(cfg: Config, s: Sys, op: Op)
    requires op.Request?
    ensures Trips(cfg, s.fw, op) ==>
              var r := TargetRunKey(op.target);
              && Refuses(cfg, s, op)
              && (KilledAt(Step(cfg, s, op), r, op.now) <==> |LiveKills(s.fw.kills, cfg.kill, op.now)| < cfg.kill.cap)
              && (r in Step(cfg, s, op).fw.kills.m <==> |LiveKills(s.fw.kills, cfg.kill, op.now)| < cfg.kill.cap)
    ensures !Trips(cfg, s.fw, op) ==> Step(cfg, s, op).fw.kills.m.Keys <= s.fw.kills.m.Keys
  {
    var run := TargetRunKey(op.target);
    if ReachesLock(s.fw, cfg, op.target, op.remote, op.now) {
      TrippedStep(cfg, s, op);
      hide Step, ReachesLock, TargetRunKey, Loops, RunFits, Enter;
      if Trips(cfg, s.fw, op) {
        CheckedTrip(cfg, s, op);
      }
    } else {
      hide EnterLocked, RunScopes, TargetRunMax, TargetScopes;
    }
  }

  lemma CheckedTrip(cfg: Config, s: Sys, op: Op)
    requires Trips(cfg, s.fw, op)
    ensures var run := TargetRunKey(op.target);
            var g := GC(IsKilled(s.fw, cfg, run, op.remote, op.now).0, cfg, op.now);
            var k := KillStep(g.kills, cfg.kill, run, op.now).0;
            && (|LiveKills(s.fw.kills, cfg.kill, op.now)| < cfg.kill.cap ==> run in k.m && k.m[run] == op.now)
            && (|LiveKills(s.fw.kills, cfg.kill, op.now)| >= cfg.kill.cap ==> run !in k.m)
  {
    var run := TargetRunKey(op.target);
    TrippedStep(cfg, s, op);
    CheckedIsLive(s.fw, cfg, run, op.remote, op.now);
    RecordedIff(GC(IsKilled(s.fw, cfg, run, op.remote, op.now).0, cfg, op.now).kills, cfg.kill, run, op.now);
  }

  /** After a trip, every later check of the run reports it killed and no request on it is admitted,
      for as long as it is asked about at least every ttl, unless the kill map was full. */
  lemma TrippedRunStaysKilled(cfg: Config, s: Sys, op: Op, later: seq<Op>, i: nat)
    requires Trips(cfg, s.fw, op) && |LiveKills(s.fw.kills, cfg.kill, op.now)| < cfg.kill.cap
    requires Ordered(later, op.now) && Spaced(cfg, later, TargetRunKey(op.target), op.now)
    requires i < |later| && Touches(cfg, later[i], TargetRunKey(op.target))
    ensures Refuses(cfg, KillSafety.RunFrom(cfg, Step(cfg, s, op), later[..i]), later[i])
  {
    hide Step, TargetRunKey, Refuses, Touches, Loops, RunFits;
    TrippedStep(cfg, s, op);
    TripKillsIff(cfg, s, op);
    KillHolds(cfg, Step(cfg, s, op), later, TargetRunKey(op.target), op.now, i);
  }

  // ---- the kill check ---------------------------------------------------------------------------------------

  /** A check reports a run killed exactly when the shared store says so or a kill of it is live here. */
  lemma ReportedIff(cfg: Config, s: Sys, run: string, remote: bool, now: nat)
    ensures IsKilled(s.fw, cfg, run, remote, now).1 <==> run != "" && (remote || run in LiveKills(s.fw.kills, cfg.kill, now))
  {
  }

  /** A request that asks about a run is denied as killed whenever the shared store says it is, or a kill
      of it is live here, and otherwise reaches the lock. */
  lemma KilledElsewhereIsDenied(cfg: Config, s: Sys, op: Op, r: string)
    requires op.Request? && r != "" && Touches(cfg, op, r)
    ensures op.remote || r in LiveKills(s.fw.kills, cfg.kill, op.now) ==> Refuses(cfg, s, op) && Step(cfg, s, op).tickets == s.tickets
    ensures ReachesLock(s.fw, cfg, op.target, op.remote, op.now) <==> !op.remote && r !in LiveKills(s.fw.kills, cfg.kill, op.now)
  {
    hide EnterLocked, RunScopes, TargetRunMax, TargetScopes;
    ReportedIff(cfg, s, r, op.remote, op.now);
  }

  // ---- with a shared store -------------------------------------------------------------------------------------

  /** In front of the store a trip is denied and kills alike. */
  lemma SharedTripKills(g: Gate, cfg: Config, scopes: seq<Scope>, run: string, hash: string, runMax: real, usd: real, tok: int,
                        id: string, fault: Fault, now: nat, ttl: int)
    requires run !in g.fw.kills.m
    requires var b := FirewallSpec.GC(g.fw, cfg, now); LoopChecked(b, cfg, run, hash, now).1 || !RunFits(b, run, usd, runMax)
    ensures var (h, a) := EnterShared(g, cfg, scopes, run, hash, runMax, usd, tok, id, fault, now, ttl);
            && a == Rejected(Killed) && h.shared == g.shared
            && (|LiveKills(g.fw.kills, cfg.kill, now)| < cfg.kill.cap ==> run in h.fw.kills.m && h.fw.kills.m[run] == now)
            && (|LiveKills(g.fw.kills, cfg.kill, now)| >= cfg.kill.cap ==> run !in h.fw.kills.m)
  {
    var b := FirewallSpec.GC(g.fw, cfg, now);
    SweptIsLive(g.fw.kills, cfg.kill, now);
    RecordedIff(b.kills, cfg.kill, run, now);
    hide SharedSpec.Reserve, StorePart;
  }
}
