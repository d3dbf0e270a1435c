/** What a request asks the firewall to enforce, told from the request alone, and that an admission
    enforces all of it and holds exactly that. */
module Targets {
  import opened WindowLog
  import opened FirewallSpec
  import opened FirewallAdmission
  import opened FirewallRuns
  import Keys

  /** A client's request asks for its own scope and its run's, each with the configured caps; a chain
      asks for its scopes. */
  predicate Asks(cfg: Config, t: Target, sc: Scope) {
    match t
    case Flat(client, runID) =>
      || (client != "" && sc == Scope("key", Keys.FlatClientKey(client), cfg.limits))
      || (runID != "" && sc == Scope("run", Keys.FlatRunKey(client, runID), cfg.limits))
    case Chain(scopes) => sc in scopes
  }

  ghost predicate TwoRuns(scopes: seq<Scope>) {
    exists i, j :: 0 <= i < j < |scopes| && scopes[i].name == "run" && scopes[j].name == "run"
  }

  /** A chain with an empty key, a key over 512 characters, or two scopes named run. */
  ghost predicate Malformed(t: Target) {
    t.Chain? && ((exists sc :: sc in t.scopes && (sc.key == "" || |sc.key| > 512)) || TwoRuns(t.scopes))
  }

  // ---- the firewall's reading of a request ----------------------------------------------------------------

  ghost predicate OneRun(scopes: seq<Scope>) {
    exists i :: 0 <= i < |scopes| && scopes[i].name == "run"
  }

  lemma RunsAppend(scopes: seq<Scope>, sc: Scope)
    ensures OneRun(scopes + [sc]) <==> OneRun(scopes) || sc.name == "run"
    ensures TwoRuns(scopes + [sc]) <==> TwoRuns(scopes) || (OneRun(scopes) && sc.name == "run")
  {
    var all := scopes + [sc];
    assert forall i :: 0 <= i < |scopes| ==> all[i] == scopes[i];
    if sc.name == "run" {
      assert all[|scopes|].name == "run";
      if OneRun(scopes) {
        var i :| 0 <= i < |scopes| && scopes[i].name == "run";
        assert all[i].name == "run";
      }
    }
    if OneRun(scopes) {
      var i :| 0 <= i < |scopes| && scopes[i].name == "run";
      assert all[i].name == "run";
    }
    if TwoRuns(scopes) {
      var i, j :| 0 <= i < j < |scopes| && scopes[i].name == "run" && scopes[j].name == "run";
      assert all[i].name == "run" && all[j].name == "run";
    }
  }

  lemma {:induction false} RunScopesCount(scopes: seq<Scope>)
    ensures |RunScopes(scopes)| >= 1 <==> OneRun(scopes)
    ensures |RunScopes(scopes)| >= 2 <==> TwoRuns(scopes)
  {
    if scopes != [] {
      hide OneRun, TwoRuns;
      var n := |scopes| - 1;
      RunScopesCount(scopes[..n]);
      RunsAppend(scopes[..n], scopes[n]);
      assert scopes == scopes[..n] + [scopes[n]];
    }
  }

  lemma MalformedIff(t: Target)
    ensures Malformed(t) <==> t.Chain? && !WellFormedChain(t.scopes)
  {
    if t.Chain? {
      RunScopesCount(t.scopes);
    }
  }

  lemma FlatKeysDiffer(client: string, runID: string)
    requires client != "" && runID != ""
    ensures Keys.FlatClientKey(client) != Keys.FlatRunKey(client, runID)
  {
    assert Keys.FlatClientKey(client)[0] == 'k' && Keys.FlatRunKey(client, runID)[0] == 'r';
  }

  lemma AsksFor(cfg: Config, t: Target, sc: Scope)
    requires !Malformed(t)
    ensures sc in TargetScopes(cfg, t) <==> Asks(cfg, t, sc)
    ensures Asks(cfg, t, sc) && sc.name == "run" ==>
              sc.key != "" && TargetRunKey(t) == sc.key && TargetRunMax(cfg, t) == sc.limits.usdPerRun
  {
    MalformedIff(t);
    if t.Chain? && sc in t.scopes && sc.name == "run" {
      assert sc in RunScopes(t.scopes);
    }
  }

  // ---- the theorems -------------------------------------------------------------------------------------------

  /** A malformed request is refused as such, and changes nothing; no other request is. */
  lemma MalformedIsRefused(cfg: Config, s: Sys, op: Op)
    requires op.Request? && cfg.enabled
    ensures Enter(s.fw, cfg, op.target, op.hash, op.usd, op.tok, op.remote, op.now).1 == Denied(BadChain) <==> Malformed(op.target)
    ensures Malformed(op.target) ==> Step(cfg, s, op) == s
  {
    hide EnterLocked, WellFormedChain, IsKilled;
    MalformedIff(op.target);
    LockedNeverMalformed(IsKilled(s.fw, cfg, TargetRunKey(op.target), op.remote, op.now).0, cfg, TargetScopes(cfg, op.target),
                         TargetRunKey(op.target), op.hash, TargetRunMax(cfg, op.target), Floor0(op.usd), ClampTok(op.tok), op.now);
  }

  lemma LockedNeverMalformed(f: Fw, cfg: Config, scopes: seq<Scope>, run: string, hash: string, runMax: real,
                             usd: real, tok: int, now: nat)
    ensures EnterLocked(f, cfg, scopes, run, hash, runMax, usd, tok, now).2 != Denied(BadChain)
  {
    hide CheckLoopBudget;
  }

  /** An admitted request holds its floored estimate on exactly the scopes it asks for, from that second
      on, and on the run it asks for if that has a budget. */
  lemma HoldsWhatItAsks(cfg: Config, s: Sys, op: Op)
    requires op.Request? && cfg.enabled && |Step(cfg, s, op).tickets| > |s.tickets|
    ensures var t := Step(cfg, s, op).tickets[|s.tickets|];
            && Step(cfg, s, op).tickets == s.tickets + [t] && !t.settled && !t.released
            && (forall k :: k in t.keys <==> exists sc :: Asks(cfg, op.target, sc) && sc.key == k)
            && t.usd == (if op.usd < 0.0 then 0.0 else op.usd) && t.tok == (if op.tok < 0 then 0 else op.tok)
            && t.at == op.now / 1_000_000_000
            && (forall sc :: Asks(cfg, op.target, sc) && sc.name == "run" && sc.limits.usdPerRun > 0.0 ==> t.runKey == sc.key)
  {
    hide Enter, TargetScopes, TargetRunKey, TargetRunMax, Asks, Malformed;
    MalformedIsRefused(cfg, s, op);
    EnterTicket(s.fw, cfg, op.target, op.hash, op.usd, op.tok, op.remote, op.now);
    var t := Step(cfg, s, op).tickets[|s.tickets|];
    forall k
      ensures k in t.keys <==> exists sc :: Asks(cfg, op.target, sc) && sc.key == k
    {
      AskedKeys(cfg, op.target, k);
    }
    forall sc | Asks(cfg, op.target, sc) && sc.name == "run" && sc.limits.usdPerRun > 0.0
      ensures t.runKey == sc.key
    {
      AsksFor(cfg, op.target, sc);
    }
  }

  lemma AskedKeys(cfg: Config, t: Target, k: string)
    requires !Malformed(t)
    ensures k in ScopeKeys(TargetScopes(cfg, t)) <==> exists sc :: Asks(cfg, t, sc) && sc.key == k
  {
    hide TargetScopes, Asks, Malformed;
    var scopes := TargetScopes(cfg, t);
    if k in ScopeKeys(scopes) {
      var sc := NamedScope(scopes, k);
      AsksFor(cfg, t, sc);
    }
    if sc :| Asks(cfg, t, sc) && sc.key == k {
      AsksFor(cfg, t, sc);
      var i :| 0 <= i < |scopes| && scopes[i] == sc;
      assert ScopeKeys(scopes)[i] == k;
    }
  }

  /** In every reachable state, a request is admitted only if every scope it asks for had a slot free, and
      room in both windows or nothing in them; the run it asks for is then within its budget. */
  lemma AskedCapsRespected(cfg: Config, ops: seq<Op>, op: Op, sc: Scope)
    requires ActualsNonNegative(ops) && op.Request? && cfg.enabled && Asks(cfg, op.target, sc)
    requires |Step(cfg, Run(cfg, ops), op).tickets| > |Run(cfg, ops).tickets|
    ensures var f, usd, tok := Run(cfg, ops).fw, Floor0(op.usd), ClampTok(op.tok);
            && (sc.limits.concurrent > 0 ==> Inflight(f, sc.key) < sc.limits.concurrent)
            && (sc.limits.usdPerMin > 0.0 ==>
                  SumUSD(f, sc.key, Unix(op.now)) + usd <= sc.limits.usdPerMin || Empty(f, sc.key, Unix(op.now)))
            && (sc.limits.tokPerMin > 0 ==>
                  SumTok(f, sc.key, Unix(op.now)) + tok as real <= sc.limits.tokPerMin as real || Empty(f, sc.key, Unix(op.now)))
            && (sc.name == "run" && sc.limits.usdPerRun > 0.0 ==>
                  RunUSD(Step(cfg, Run(cfg, ops), op).fw, sc.key) <= sc.limits.usdPerRun)
  {
    hide Enter, TargetScopes, TargetRunKey, TargetRunMax, Asks, Malformed, Run, ConcurrencyFits;
    var s := Run(cfg, ops);
    MalformedIsRefused(cfg, s, op);
    AccountingExact(cfg, ops);
    AsksFor(cfg, op.target, sc);
    AdmittedFits(s.fw, cfg, op.target, op.hash, op.usd, op.tok, op.remote, op.now);
    assert ConcurrencyFits(s.fw, sc) && WindowFits(s.fw, sc, Floor0(op.usd), ClampTok(op.tok), Unix(op.now));
    SlotFree(s.fw, sc);
  }

  lemma SlotFree(f: Fw, sc: Scope)
    requires ConcurrencyFits(f, sc)
    ensures sc.limits.concurrent > 0 ==> Inflight(f, sc.key) < sc.limits.concurrent
  {
  }

  /** Nothing counts in the windows of k. */
  predicate Empty(f: Fw, k: string, sec: int) {
    SumUSD(f, k, sec) == 0.0 && SumTok(f, k, sec) == 0.0
  }
}
