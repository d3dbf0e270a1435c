/** A killed run stays killed for as long as it keeps being asked about. */
module KillSafety {
  import opened KillStore
  import opened WindowLog
  import opened FirewallSpec
  import opened FirewallRuns

  /** The clock reading of an operation. */
  function At(op: Op): nat {
    match op
    case Request(_, _, _, _, _, now) => now
    case SettleOp(_, _, _, now) => now
    case ReleaseOp(_, now) => now
    case KillRun(_, now) => now
    case RunKilled(_, _, now) => now
  }

  /** Operations that ask about, or kill, run r. A request reaches the kill check only on an
      enabled firewall with a well-formed chain. */
  predicate Touches(cfg: Config, op: Op, r: string) {
    match op
    case Request(t, _, _, _, _, _) => cfg.enabled && (t.Chain? ==> WellFormedChain(t.scopes)) && TargetRunKey(t) == r
    case KillRun(run, _) => run == r
    case RunKilled(run, _, _) => run == r
    case _ => false
  }

  ghost predicate Ordered(ops: seq<Op>, from: nat) {
    forall i :: 0 <= i < |ops| ==> from <= At(ops[i]) && forall j :: i < j < |ops| ==> At(ops[i]) <= At(ops[j])
  }

  /** No two consecutive operations on r are more than ttl apart; the last one before ops
      was at time last. */
  predicate Spaced(cfg: Config, ops: seq<Op>, r: string, last: int) {
    if ops == [] then true
    else if Touches(cfg, ops[0], r) then At(ops[0]) - last <= cfg.kill.ttl && Spaced(cfg, ops[1..], r, At(ops[0]))
    else Spaced(cfg, ops[1..], r, last)
  }

  function RunFrom(cfg: Config, s: Sys, ops: seq<Op>): Sys
    decreases |ops|
  {
    if ops == [] then s else RunFrom(cfg, Step(cfg, s, ops[0]), ops[1..])
  }

  /** What the firewall answers about r: a check says killed, a request is not admitted. */
  ghost predicate Refuses(cfg: Config, s: Sys, op: Op) {
    match op
    case Request(t, hash, usd, tok, remote, now) => Enter(s.fw, cfg, t, hash, usd, tok, remote, now).1 == Denied(Killed)
    case RunKilled(run, remote, now) => IsKilled(s.fw, cfg, run, remote, now).1
    case KillRun(run, now) => KillStep(s.fw.kills, cfg.kill, run, now).1
    case _ => true
  }

  predicate KilledAt(s: Sys, r: string, last: int) {
    r in s.fw.kills.m && s.fw.kills.m[r] == last
  }

  lemma StoreKeepsOther(s: KillVal, cfg: KillConfig, run: string, r: string, now: int)
    requires r in s.m && run != r && now - s.m[r] <= cfg.ttl
    ensures r in KillStep(s, cfg, run, now).0.m && KillStep(s, cfg, run, now).0.m[r] == s.m[r]
    ensures r in KilledStep(s, cfg, run, now).0.m && KilledStep(s, cfg, run, now).0.m[r] == s.m[r]
    ensures r in Swept(s, cfg, now).m && Swept(s, cfg, now).m[r] == s.m[r]
  {
  }

  lemma {:induction false} ReserveAllKills(f: Fw, scopes: seq<Scope>, usd: real, tok: int, now: nat)
    ensures ReserveAll(f, scopes, usd, tok, now).kills == f.kills
    decreases |scopes|
  {
    if scopes != [] {
      ReserveAllKills(ReserveOne(f, scopes[0].key, usd, tok, now), scopes[1..], usd, tok, now);
    }
  }

  lemma {:induction false} CheckVelocitiesKills(f: Fw, scopes: seq<Scope>, usd: real, tok: int, sec: nat)
    ensures CheckVelocities(f, scopes, usd, tok, sec).0.kills == f.kills
    decreases |scopes|
  {
    if scopes != [] {
      var sc := scopes[0];
      if HasVelocityCap(sc.limits) && sc.key in f.scopes {
        CheckVelocitiesKills(Touched(f, sc.key, sec), scopes[1..], usd, tok, sec);
      } else {
        CheckVelocitiesKills(f, scopes[1..], usd, tok, sec);
      }
    }
  }

  lemma EnterLockedKills(f: Fw, cfg: Config, scopes: seq<Scope>, runKey: string, hash: string, runMax: real,
                         usd: real, tok: int, now: nat)
    ensures EnterLocked(f, cfg, scopes, runKey, hash, runMax, usd, tok, now).0.kills == GC(f, cfg, now).kills
  {
    var b := GC(f, cfg, now);
    var g := CheckLoopBudget(b, cfg, runKey, hash, usd, runMax, now).0;
    assert g.kills == b.kills;
    CheckVelocitiesKills(g, scopes, usd, tok, Unix(now));
    ReserveAllKills(CheckVelocities(g, scopes, usd, tok, Unix(now)).0, scopes, usd, tok, now);
  }

  lemma {:induction false} BookAllKills(f: Fw, ks: seq<string>, sec: nat, dUSD: real, dTok: int)
    ensures BookAll(f, ks, sec, dUSD, dTok).kills == f.kills
    decreases |ks|
  {
    if ks != [] {
      BookAllKills(BookOne(f, ks[0], sec, dUSD, dTok), ks[1..], sec, dUSD, dTok);
    }
  }

  lemma {:induction false} ReleaseAllKills(f: Fw, ks: seq<string>, unbook: bool, usd: real, tok: int, sec: nat)
    ensures ReleaseAll(f, ks, unbook, usd, tok, sec).kills == f.kills
    decreases |ks|
  {
    if ks != [] {
      ReleaseAllKills(ReleaseOne(f, ks[0], unbook, usd, tok, sec), ks[1..], unbook, usd, tok, sec);
    }
  }

  /** The kill map a request can leave behind, by how far it got: not at all, refused by the
      kill check, decided under the lock, or tripped and killed. */
  lemma RequestKills(cfg: Config, s: Sys, op: Op)
    requires op.Request?
    ensures var run := TargetRunKey(op.target);
            var k1 := KilledStep(s.fw.kills, cfg.kill, run, op.now).0;
            var k2 := Swept(k1, cfg.kill, op.now);
            var k := Step(cfg, s, op).fw.kills;
            || k == s.fw.kills
            || (run != "" && k == k1)
            || k == Swept(s.fw.kills, cfg.kill, op.now)
            || (run != "" && (k == k2 || k == KillStep(k1, cfg.kill, run, op.now).0 || k == KillStep(k2, cfg.kill, run, op.now).0))
  {
    var Request(t, hash, usd, tok, remote, now) := op;
    var run := TargetRunKey(t);
    var g := IsKilled(s.fw, cfg, run, remote, now).0;
    EnterLockedKills(g, cfg, TargetScopes(cfg, t), run, hash, TargetRunMax(cfg, t), Floor0(usd), ClampTok(tok), now);
    if run == "" {
    }
  }

  lemma RequestKeepsKill(cfg: Config, s: Sys, op: Op, r: string, last: int)
    requires op.Request? && KilledAt(s, r, last) && At(op) - last <= cfg.kill.ttl && r != ""
    ensures Touches(cfg, op, r) ==> KilledAt(Step(cfg, s, op), r, At(op)) && Refuses(cfg, s, op)
    ensures !Touches(cfg, op, r) ==> KilledAt(Step(cfg, s, op), r, last)
  {
    var run, now := TargetRunKey(op.target), op.now;
    if !Touches(cfg, op, r) && run != r {
      RequestKills(cfg, s, op);
      StoreKeepsOther(s.fw.kills, cfg.kill, run, r, now);
      var k1 := KilledStep(s.fw.kills, cfg.kill, run, now).0;
      StoreKeepsOther(k1, cfg.kill, run, r, now);
      StoreKeepsOther(Swept(k1, cfg.kill, now), cfg.kill, run, r, now);
    }
  }

  lemma ReconcileKills(cfg: Config, s: Sys, op: Op)
    requires op.SettleOp? || op.ReleaseOp?
    ensures Step(cfg, s, op).fw.kills == s.fw.kills
  {
    if op.i < |s.tickets| {
      var t := s.tickets[op.i];
      if op.SettleOp? {
        BookAllKills(s.fw, t.keys, Unix(op.now), op.usd - t.usd, op.tok - t.tok);
      } else {
        ReleaseAllKills(s.fw, t.keys, !t.settled, t.usd, t.tok, Unix(op.now));
      }
    }
  }

  lemma StepKeepsKill(cfg: Config, s: Sys, op: Op, r: string, last: int)
    requires KilledAt(s, r, last) && At(op) - last <= cfg.kill.ttl && r != ""
    ensures Touches(cfg, op, r) ==> KilledAt(Step(cfg, s, op), r, At(op)) && Refuses(cfg, s, op)
    ensures !Touches(cfg, op, r) ==> KilledAt(Step(cfg, s, op), r, last)
  {
    match op
    case Request(_, _, _, _, _, _) => RequestKeepsKill(cfg, s, op, r, last);
    case SettleOp(_, _, _, _) => ReconcileKills(cfg, s, op);
    case ReleaseOp(_, _) => ReconcileKills(cfg, s, op);
    case KillRun(run, now) =>
      if run != r {
        StoreKeepsOther(s.fw.kills, cfg.kill, run, r, now);
      }
    case RunKilled(run, _, now) =>
      if run != r {
        StoreKeepsOther(s.fw.kills, cfg.kill, run, r, now);
      }
  }

  predicate AnyTouch(cfg: Config, ops: seq<Op>, r: string) {
    exists i :: 0 <= i < |ops| && Touches(cfg, ops[i], r)
  }

  /** While an operation on r is still to come, no earlier clock reading is past r's ttl. */
  lemma {:induction false} StillLive(cfg: Config, ops: seq<Op>, r: string, from: nat, last: int)
    requires Ordered(ops, from) && Spaced(cfg, ops, r, last) && AnyTouch(cfg, ops, r)
    ensures from - last <= cfg.kill.ttl && At(ops[0]) - last <= cfg.kill.ttl
    decreases |ops|
  {
    if !Touches(cfg, ops[0], r) {
      var i :| 0 <= i < |ops| && Touches(cfg, ops[i], r);
      assert ops[1..][i - 1] == ops[i];
      StillLive(cfg, ops[1..], r, At(ops[0]), last);
    }
  }

  /** Once r is killed, every later check of r reports it killed and no request on r is
      admitted, whatever else happens in between, provided no two consecutive operations on
      r are more than ttl apart. */
  lemma KillHolds(cfg: Config, s: Sys, ops: seq<Op>, r: string, last: nat, i: nat)
    requires r != "" && KilledAt(s, r, last) && Ordered(ops, last) && Spaced(cfg, ops, r, last)
    requires i < |ops| && Touches(cfg, ops[i], r)
    ensures Refuses(cfg, RunFrom(cfg, s, ops[..i]), ops[i])
  {
    KillHoldsFrom(cfg, s, ops, r, last, last, i);
  }

  lemma {:induction false} KillHoldsFrom(cfg: Config, s: Sys, ops: seq<Op>, r: string, from: nat, last: nat, i: nat)
    requires r != "" && KilledAt(s, r, last) && Ordered(ops, from) && Spaced(cfg, ops, r, last)
    requires i < |ops| && Touches(cfg, ops[i], r)
    ensures Refuses(cfg, RunFrom(cfg, s, ops[..i]), ops[i])
    decreases |ops|
  {
    assert AnyTouch(cfg, ops, r);
    StillLive(cfg, ops, r, from, last);
    StepKeepsKill(cfg, s, ops[0], r, last);
    if i > 0 {
      var s' := Step(cfg, s, ops[0]);
      assert ops[1..][i - 1] == ops[i];
      assert ops[..i][1..] == ops[1..][..i - 1];
      KillHoldsFrom(cfg, s', ops[1..], r, At(ops[0]), if Touches(cfg, ops[0], r) then At(ops[0]) else last, i - 1);
    }
  }

  /** A kill that is reported as recorded is in force from that moment. */
  lemma KillTakesEffect(cfg: Config, s: Sys, r: string, now: nat)
    requires r != "" && KillStep(s.fw.kills, cfg.kill, r, now).1
    ensures KilledAt(Step(cfg, s, KillRun(r, now)), r, now)
  {
  }

  /** The kill map of a running firewall never exceeds its cap. */
  lemma {:induction false} KillMapBounded(cfg: Config, ops: seq<Op>)
    ensures |Run(cfg, ops).fw.kills.m| <= cfg.kill.cap
  {
    if ops != [] {
      var s := Run(cfg, ops[..|ops| - 1]);
      KillMapBounded(cfg, ops[..|ops| - 1]);
      var op := ops[|ops| - 1];
      match op
      case Request(t, hash, usd, tok, remote, now) =>
        var k1 := KilledStep(s.fw.kills, cfg.kill, TargetRunKey(t), now).0;
        RequestKills(cfg, s, op);
        CapKept(s.fw.kills, cfg.kill, TargetRunKey(t), now);
        CapKept(k1, cfg.kill, TargetRunKey(t), now);
        CapKept(Swept(k1, cfg.kill, now), cfg.kill, TargetRunKey(t), now);
      case SettleOp(_, _, _, _) => ReconcileKills(cfg, s, op);
      case ReleaseOp(_, _) => ReconcileKills(cfg, s, op);
      case KillRun(run, now) =>
        CapKept(s.fw.kills, cfg.kill, run, now);
      case RunKilled(run, _, now) =>
        CapKept(s.fw.kills, cfg.kill, run, now);
    }
  }
}
