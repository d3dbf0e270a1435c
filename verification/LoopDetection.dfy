/** Repeated-prompt detection counts only the newest hash in a bounded history; it is
    nevertheless complete, in every run of the firewall. */
module LoopDetection {
  import opened WindowLog
  import opened FirewallSpec
  import opened FirewallAdmission
  import opened FirewallRuns

  /** The history the firewall keeps after the prompts hs of one run. */
  function History(hs: seq<string>, threshold: int): seq<string> {
    if hs == [] then [] else Remember(History(hs[..|hs| - 1], threshold), hs[|hs| - 1], threshold)
  }

  /** How many prompts a history reaches back: eight, or twice the threshold if that is more. */
  function Reach(threshold: int): nat {
    if threshold > 4 then 2 * threshold else 8
  }

  /** Where the history's window starts after n prompts. */
  function WindowStart(n: nat, threshold: int): (i: nat)
    ensures i <= n
  {
    if n <= Reach(threshold) then 0 else n - Reach(threshold)
  }

  predicate TripsAt(hs: seq<string>, i: nat, threshold: int)
    requires i < |hs|
  {
    Trips(History(hs[..i], threshold), hs[i], threshold)
  }

  /** The newest prompts, and one more. */
  lemma SuffixMore(hs: seq<string>, w: nat, drop: nat)
    requires hs != [] && w + drop <= |hs| && w < |hs|
    ensures (hs[..|hs| - 1][w..] + [hs[|hs| - 1]])[drop..] == hs[w + drop..]
  {
  }

  lemma {:induction false} HistoryIsSuffix(hs: seq<string>, threshold: int)
    ensures History(hs, threshold) == hs[WindowStart(|hs|, threshold)..]
  {
    if hs != [] {
      var n := |hs| - 1;
      var w := WindowStart(n, threshold);
      HistoryIsSuffix(hs[..n], threshold);
      SuffixMore(hs, w, 0);
      SuffixMore(hs, w, WindowStart(n + 1, threshold) - w);
    }
  }

  lemma TripsAtCountsWindow(hs: seq<string>, i: nat, threshold: int)
    requires i < |hs|
    ensures TripsAt(hs, i, threshold) <==>
            multiset(hs[WindowStart(i + 1, threshold)..i + 1])[hs[i]] >= threshold
  {
    HistoryIsSuffix(hs[..i + 1], threshold);
    assert hs[..i + 1][..i] == hs[..i];
    assert hs[..i + 1][WindowStart(i + 1, threshold)..] == hs[WindowStart(i + 1, threshold)..i + 1];
  }

  lemma CountMonotone(hs: seq<string>, lo: nat, lo': nat, hi: nat, h: string)
    requires lo <= lo' <= hi <= |hs|
    ensures multiset(hs[lo..hi])[h] >= multiset(hs[lo'..hi])[h]
  {
    assert hs[lo..hi] == hs[lo..lo'] + hs[lo'..hi];
  }

  /** h occurs threshold times within some Reach consecutive prompts. */
  ghost predicate Repeats(hs: seq<string>, h: string, lo: nat, hi: nat, threshold: int) {
    lo <= hi <= |hs| && hi - lo <= Reach(threshold) && multiset(hs[lo..hi])[h] >= threshold
  }

  lemma {:induction false} RepetitionTrips(hs: seq<string>, h: string, lo: nat, hi: nat, threshold: int) returns (i: nat)
    requires threshold > 0 && Repeats(hs, h, lo, hi, threshold)
    ensures i < |hs| && TripsAt(hs, i, threshold)
    decreases hi
  {
    assert lo < hi;
    i := hi - 1;
    if hs[i] == h {
      CountMonotone(hs, WindowStart(hi, threshold), lo, hi, h);
      TripsAtCountsWindow(hs, i, threshold);
    } else {
      assert hs[lo..hi] == hs[lo..i] + [hs[i]];
      i := RepetitionTrips(hs, h, lo, i, threshold);
    }
  }

  /** Over any history, detection fires at some prompt exactly when some hash
      occurs threshold or more times within Reach consecutive prompts. */
  lemma DetectionComplete(hs: seq<string>, threshold: int)
    requires threshold > 0
    ensures (exists i: nat :: i < |hs| && TripsAt(hs, i, threshold)) <==>
            (exists h, lo, hi :: Repeats(hs, h, lo, hi, threshold))
  {
    if exists h, lo, hi :: Repeats(hs, h, lo, hi, threshold) {
      var h, lo, hi :| Repeats(hs, h, lo, hi, threshold);
      var i := RepetitionTrips(hs, h, lo, hi, threshold);
    }
    if exists i: nat :: i < |hs| && TripsAt(hs, i, threshold) {
      var i: nat :| i < |hs| && TripsAt(hs, i, threshold);
      TripsAtCountsWindow(hs, i, threshold);
      assert Repeats(hs, hs[i], WindowStart(i + 1, threshold), i + 1, threshold);
    }
  }

  // ---- runs of the firewall -----------------------------------------------------------------------------

  /** The request puts a prompt into the history of run r. */
  predicate Prompts(cfg: Config, f: Fw, op: Op, r: string) {
    && op.Request? && ReachesLock(f, cfg, op.target, op.remote, op.now)
    && TargetRunKey(op.target) == r && r != "" && op.hash != "" && cfg.loopThreshold > 0
  }

  /** The sweep of this request drops the history of r, idle for the eviction time. */
  predicate Drops(cfg: Config, f: Fw, op: Op, r: string) {
    && op.Request? && ReachesLock(f, cfg, op.target, op.remote, op.now)
    && r in f.loops && r !in GC(f, cfg, op.now).loops
  }

  /** The prompts of run r since its history was last dropped. */
  function Seen(cfg: Config, ops: seq<Op>, r: string): seq<string> {
    if ops == [] then []
    else
      var pre, op := ops[..|ops| - 1], ops[|ops| - 1];
      var f := Run(cfg, pre).fw;
      (if Drops(cfg, f, op, r) then [] else Seen(cfg, pre, r)) + if Prompts(cfg, f, op, r) then [op.hash] else []
  }

  /** The loop check of this request trips. */
  predicate Loops(cfg: Config, f: Fw, op: Op) {
    && op.Request? && ReachesLock(f, cfg, op.target, op.remote, op.now)
    && LoopChecked(GC(f, cfg, op.now), cfg, TargetRunKey(op.target), op.hash, op.now).1
  }

  lemma {:induction false} CheckVelocitiesLoops(f: Fw, scopes: seq<Scope>, usd: real, tok: int, sec: nat)
    ensures CheckVelocities(f, scopes, usd, tok, sec).0.loops == f.loops
    decreases |scopes|
  {
    if scopes != [] {
      var k := scopes[0].key;
      CheckVelocitiesLoops(if HasVelocityCap(scopes[0].limits) && k in f.scopes then Touched(f, k, sec) else f, scopes[1..], usd, tok, sec);
    }
  }

  lemma {:induction false} ReserveAllLoops(f: Fw, scopes: seq<Scope>, usd: real, tok: int, now: nat)
    ensures ReserveAll(f, scopes, usd, tok, now).loops == f.loops
    decreases |scopes|
  {
    if scopes != [] {
      ReserveAllLoops(ReserveOne(f, scopes[0].key, usd, tok, now), scopes[1..], usd, tok, now);
    }
  }

  lemma CheckReserveLoops(f: Fw, scopes: seq<Scope>, usd: real, tok: int, now: nat)
    ensures CheckReserve(f, scopes, usd, tok, now).0.loops == f.loops
  {
    CheckVelocitiesLoops(f, scopes, usd, tok, Unix(now));
    ReserveAllLoops(CheckVelocities(f, scopes, usd, tok, Unix(now)).0, scopes, usd, tok, now);
  }

  /** Under the lock: what is remembered, and that a loop denies and kills. */
  lemma LockedLoops(f: Fw, cfg: Config, scopes: seq<Scope>, run: string, hash: string, runMax: real, usd: real, tok: int, now: nat)
    ensures var (g, tripped, v) := EnterLocked(f, cfg, scopes, run, hash, runMax, usd, tok, now);
            var (l, looped) := LoopChecked(GC(f, cfg, now), cfg, run, hash, now);
            && g.loops == l.loops
            && (tripped <==> looped || !RunFits(l, run, usd, runMax))
            && (tripped <==> v == Denied(Killed))
  {
    var c := CheckLoopBudget(GC(f, cfg, now), cfg, run, hash, usd, runMax, now).0;
    CheckReserveLoops(c, scopes, usd, tok, now);
  }

  lemma {:induction false} ReconcileLoops(f: Fw, ks: seq<string>, unbook: bool, usd: real, tok: int, sec: nat)
    ensures BookAll(f, ks, sec, usd, tok).loops == f.loops && ReleaseAll(f, ks, unbook, usd, tok, sec).loops == f.loops
    decreases |ks|
  {
    if ks != [] {
      ReconcileLoops(BookOne(f, ks[0], sec, usd, tok), ks[1..], unbook, usd, tok, sec);
      ReconcileLoops(ReleaseOne(f, ks[0], unbook, usd, tok, sec), ks[1..], unbook, usd, tok, sec);
    }
  }

  /** Only requests that reach the lock touch the histories. */
  lemma StepLoops(cfg: Config, s: Sys, op: Op)
    ensures Step(cfg, s, op).fw.loops ==
            if op.Request? && ReachesLock(s.fw, cfg, op.target, op.remote, op.now)
            then LoopChecked(GC(s.fw, cfg, op.now), cfg, TargetRunKey(op.target), op.hash, op.now).0.loops
            else s.fw.loops
  {
    match op
    case Request(t, hash, usd, tok, remote, now) =>
      hide EnterLocked, LoopChecked;
      var f := IsKilled(s.fw, cfg, TargetRunKey(t), remote, now).0;
      LockedLoops(f, cfg, TargetScopes(cfg, t), TargetRunKey(t), hash, TargetRunMax(cfg, t), Floor0(usd), ClampTok(tok), now);
      SweptSame(s.fw, f, cfg, TargetRunKey(t), hash, now);
    case SettleOp(i, usd, tok, now) =>
      if i < |s.tickets| {
        ReconcileLoops(s.fw, s.tickets[i].keys, false, usd - s.tickets[i].usd, tok - s.tickets[i].tok, Unix(now));
      }
    case ReleaseOp(i, now) =>
      if i < |s.tickets| {
        var t := s.tickets[i];
        ReconcileLoops(s.fw, t.keys, !t.settled, t.usd, t.tok, Unix(now));
      }
    case KillRun(_, _) =>
    case RunKilled(_, _, _) =>
  }

  /** The kill check changes nothing the loop check reads. */
  lemma SweptSame(f: Fw, g: Fw, cfg: Config, run: string, hash: string, now: nat)
    requires g == f.(kills := g.kills)
    ensures LoopChecked(GC(g, cfg, now), cfg, run, hash, now).0.loops == LoopChecked(GC(f, cfg, now), cfg, run, hash, now).0.loops
    ensures LoopChecked(GC(g, cfg, now), cfg, run, hash, now).1 == LoopChecked(GC(f, cfg, now), cfg, run, hash, now).1
  {
  }

  /** loops keeps for r the history of the prompts hs. */
  predicate Keeps(loops: map<string, LoopVal>, r: string, hs: seq<string>, threshold: int) {
    (r in loops <==> hs != []) && (r in loops ==> loops[r].recent == History(hs, threshold))
  }

  lemma SweptKeeps(cfg: Config, f: Fw, now: nat, r: string, hs: seq<string>, threshold: int)
    requires Keeps(f.loops, r, hs, threshold)
    ensures Keeps(GC(f, cfg, now).loops, r, if r in f.loops && r !in GC(f, cfg, now).loops then [] else hs, threshold)
  {
    hide History;
  }

  lemma RememberedKeeps(f: Fw, cfg: Config, run: string, hash: string, now: nat, r: string, hs: seq<string>)
    requires Keeps(f.loops, r, hs, cfg.loopThreshold)
    ensures Keeps(LoopChecked(f, cfg, run, hash, now).0.loops, r,
                  if run == r && r != "" && cfg.loopThreshold > 0 && hash != "" then hs + [hash] else hs, cfg.loopThreshold)
  {
    hide Remember, Trips;
    assert (hs + [hash])[..|hs|] == hs;
    assert History([], cfg.loopThreshold) == [];
    assert History(hs + [hash], cfg.loopThreshold) == Remember(History(hs, cfg.loopThreshold), hash, cfg.loopThreshold);
  }

  lemma HistoryStep(cfg: Config, f: Fw, loops: map<string, LoopVal>, op: Op, r: string, before: seq<string>)
    requires Keeps(f.loops, r, before, cfg.loopThreshold)
    requires loops == if op.Request? && ReachesLock(f, cfg, op.target, op.remote, op.now)
                      then LoopChecked(GC(f, cfg, op.now), cfg, TargetRunKey(op.target), op.hash, op.now).0.loops
                      else f.loops
    ensures var kept := if Drops(cfg, f, op, r) then [] else before;
            Keeps(loops, r, if Prompts(cfg, f, op, r) then kept + [op.hash] else kept, cfg.loopThreshold)
  {
    hide ReachesLock, TargetRunKey, Keeps, GC, LoopChecked;
    if op.Request? && ReachesLock(f, cfg, op.target, op.remote, op.now) {
      SweptKeeps(cfg, f, op.now, r, before, cfg.loopThreshold);
      RememberedKeeps(GC(f, cfg, op.now), cfg, TargetRunKey(op.target), op.hash, op.now, r, if Drops(cfg, f, op, r) then [] else before);
    }
  }

  /** In every run, whatever else happens on the instance, the history kept for r is that of the
      prompts of r since it was last dropped. */
  lemma {:induction false} FirewallFollowsHistory(cfg: Config, ops: seq<Op>, r: string)
    ensures Keeps(Run(cfg, ops).fw.loops, r, Seen(cfg, ops, r), cfg.loopThreshold)
  {
    if ops != [] {
      var pre, op := ops[..|ops| - 1], ops[|ops| - 1];
      var s, before := Run(cfg, pre), Seen(cfg, pre, r);
      FirewallFollowsHistory(cfg, pre, r);
      StepLoops(cfg, s, op);
      hide Step, Prompts, Drops, History;
      HistoryStep(cfg, s.fw, Step(cfg, s, op).fw.loops, op, r, before);
      assert before + [] == before;
    }
  }

  /** The loop check reads what the sweep left of the history. */
  lemma LoopsReadsHistory(cfg: Config, f: Fw, op: Op, r: string, before: seq<string>)
    requires Prompts(cfg, f, op, r)
    requires Keeps(f.loops, r, before, cfg.loopThreshold)
    ensures Loops(cfg, f, op) <==>
            Trips(History(if Drops(cfg, f, op, r) then [] else before, cfg.loopThreshold), op.hash, cfg.loopThreshold)
  {
    hide ReachesLock, TargetRunKey, Trips;
  }

  /** The loop check trips on a prompt exactly when its history says so. */
  lemma LoopsIff(cfg: Config, ops: seq<Op>, op: Op, r: string)
    requires Prompts(cfg, Run(cfg, ops).fw, op, r)
    ensures var hs := Seen(cfg, ops + [op], r);
            |hs| > 0 && (Loops(cfg, Run(cfg, ops).fw, op) <==> TripsAt(hs, |hs| - 1, cfg.loopThreshold))
  {
    hide ReachesLock, TargetRunKey, Loops, Run, History, Trips, Drops;
    var f := Run(cfg, ops).fw;
    assert (ops + [op])[..|ops|] == ops;
    FirewallFollowsHistory(cfg, ops, r);
    LoopsReadsHistory(cfg, f, op, r, Seen(cfg, ops, r));
    var kept := if Drops(cfg, f, op, r) then [] else Seen(cfg, ops, r);
    assert Seen(cfg, ops + [op], r) == kept + [op.hash];
    assert (kept + [op.hash])[..|kept|] == kept;
  }

  /** A prompt that trips is denied and its run killed; one whose run has budget is told so only then. */
  lemma LoopsDeny(cfg: Config, f: Fw, op: Op)
    requires op.Request? && ReachesLock(f, cfg, op.target, op.remote, op.now)
    ensures var v := Enter(f, cfg, op.target, op.hash, op.usd, op.tok, op.remote, op.now).1;
            && (Loops(cfg, f, op) ==> v == Denied(Killed))
            && (RunFits(GC(f, cfg, op.now), TargetRunKey(op.target), Floor0(op.usd), TargetRunMax(cfg, op.target)) ==>
                  (v == Denied(Killed) <==> Loops(cfg, f, op)))
  {
    hide EnterLocked, GC, LoopChecked, RunFits, DoKill, RunScopes, WellFormedChain, FlatScopes, TargetRunKey, TargetRunMax, TargetScopes;
    var Request(t, hash, usd, tok, remote, now) := op;
    var g := IsKilled(f, cfg, TargetRunKey(t), remote, now).0;
    LockedLoops(g, cfg, TargetScopes(cfg, t), TargetRunKey(t), hash, TargetRunMax(cfg, t), Floor0(usd), ClampTok(tok), now);
    SweptSame(f, g, cfg, TargetRunKey(t), hash, now);
    SweptFits(f, g, cfg, TargetRunKey(t), hash, Floor0(usd), TargetRunMax(cfg, t), now);
  }

  lemma SweptFits(f: Fw, g: Fw, cfg: Config, run: string, hash: string, usd: real, runMax: real, now: nat)
    requires g == f.(kills := g.kills)
    ensures RunFits(LoopChecked(GC(g, cfg, now), cfg, run, hash, now).0, run, usd, runMax) == RunFits(GC(f, cfg, now), run, usd, runMax)
  {
    assert LoopChecked(GC(g, cfg, now), cfg, run, hash, now).0.scopes == GC(f, cfg, now).scopes;
  }

  ghost predicate LoopsIn(cfg: Config, ops: seq<Op>, r: string, i: nat) {
    i < |ops| && Prompts(cfg, Run(cfg, ops[..i]).fw, ops[i], r) && Loops(cfg, Run(cfg, ops[..i]).fw, ops[i])
  }

  /** Where in a run the prompt was asked that the history says trips. */
  lemma {:induction false} TripFound(cfg: Config, ops: seq<Op>, r: string, j: nat) returns (i: nat)
    requires j < |Seen(cfg, ops, r)| && TripsAt(Seen(cfg, ops, r), j, cfg.loopThreshold)
    ensures LoopsIn(cfg, ops, r, i)
  {
    var n := |ops| - 1;
    var pre, op := ops[..n], ops[n];
    assert pre + [op] == ops;
    var hs := Seen(cfg, ops, r);
    if Prompts(cfg, Run(cfg, pre).fw, op, r) && j == |hs| - 1 {
      LoopsIff(cfg, pre, op, r);
      i := n;
    } else {
      hide Prompts, Drops, Run, Loops;
      assert hs[..|Seen(cfg, pre, r)|] == Seen(cfg, pre, r) && Seen(cfg, pre, r)[..j] == hs[..j];
      i := TripFound(cfg, pre, r, j);
      assert pre[..i] == ops[..i];
    }
  }

  /** Some hash came threshold times within one history length, the history not dropped meanwhile. */
  ghost predicate RepeatsIn(cfg: Config, ops: seq<Op>, r: string, n: nat) {
    n <= |ops| && cfg.loopThreshold > 0 && exists h, lo, hi :: Repeats(Seen(cfg, ops[..n], r), h, lo, hi, cfg.loopThreshold)
  }

  lemma LoopIsRepeat(cfg: Config, ops: seq<Op>, r: string, i: nat)
    requires LoopsIn(cfg, ops, r, i)
    ensures RepeatsIn(cfg, ops, r, i + 1)
  {
    hide Seen, Loops, ReachesLock, TargetRunKey, Run;
    assert ops[..i] + [ops[i]] == ops[..i + 1];
    LoopsIff(cfg, ops[..i], ops[i], r);
    var hs := Seen(cfg, ops[..i + 1], r);
    TripsAtCountsWindow(hs, |hs| - 1, cfg.loopThreshold);
    assert Repeats(hs, hs[|hs| - 1], WindowStart(|hs|, cfg.loopThreshold), |hs|, cfg.loopThreshold);
  }

  lemma RepeatLoops(cfg: Config, ops: seq<Op>, r: string, n: nat) returns (i: nat)
    requires RepeatsIn(cfg, ops, r, n)
    ensures LoopsIn(cfg, ops, r, i)
  {
    hide Seen, Run, Prompts, Loops;
    var h, lo, hi :| Repeats(Seen(cfg, ops[..n], r), h, lo, hi, cfg.loopThreshold);
    var j := RepetitionTrips(Seen(cfg, ops[..n], r), h, lo, hi, cfg.loopThreshold);
    i := TripFound(cfg, ops[..n], r, j);
    assert ops[..n][..i] == ops[..i];
  }

  /** In every run, some prompt of r trips the loop check if and only if some hash comes threshold
      times or more within Reach consecutive prompts of r, its history not dropped meanwhile. */
  lemma DetectionInRuns(cfg: Config, ops: seq<Op>, r: string)
    ensures (exists i: nat :: LoopsIn(cfg, ops, r, i)) <==> (exists n: nat :: RepeatsIn(cfg, ops, r, n))
  {
    hide LoopsIn, RepeatsIn;
    if exists i: nat :: LoopsIn(cfg, ops, r, i) {
      var i: nat :| LoopsIn(cfg, ops, r, i);
      LoopIsRepeat(cfg, ops, r, i);
    }
    if exists n: nat :: RepeatsIn(cfg, ops, r, n) {
      var n: nat :| RepeatsIn(cfg, ops, r, n);
      var i := RepeatLoops(cfg, ops, r, n);
    }
  }

  /** A hash that comes threshold times with no more than threshold other prompts in between trips. */
  lemma RepeatedPromptTrips(cfg: Config, ops: seq<Op>, r: string, n: nat, h: string, lo: nat, hi: nat) returns (i: nat)
    requires n <= |ops| && cfg.loopThreshold > 0
    requires var hs := Seen(cfg, ops[..n], r);
             lo <= hi <= |hs| && multiset(hs[lo..hi])[h] == cfg.loopThreshold && hi - lo <= 2 * cfg.loopThreshold
    ensures LoopsIn(cfg, ops, r, i)
  {
    hide Seen, LoopsIn;
    assert Repeats(Seen(cfg, ops[..n], r), h, lo, hi, cfg.loopThreshold);
    i := RepeatLoops(cfg, ops, r, n);
  }
}
