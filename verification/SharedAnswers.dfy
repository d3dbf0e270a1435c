/** What one admission in front of the shared store answers, by how the store call ended. */
module SharedAnswers {
  import opened WindowLog
  import opened FirewallSpec
  import opened FirewallSteps
  import opened FirewallAdmission
  import opened SharedSpec
  import opened SharedMode

  /** The store answered: it decides, nothing counts as degraded, and a refusal changes nothing in it,
      names the first scope that does not pass and why, and gives the run's estimate back. */
  ghost predicate StoreDecides(g: Gate, h: Gate, a: Answered, scopes: seq<Scope>, b: string, usd: real, tok: int, id: string, now: nat) {
    var caps := SharedCaps(scopes);
    && h.degraded == g.degraded
    && (a.Granted? <==> forall c :: c in caps ==> CheckOne(g.shared, c, usd, tok, Unix(now)) == Reserved)
    && (a.Granted? ==> a == Granted(ByStore(CapKeys(caps), id), b) && h.fw == g.fw)
    && (a.Rejected? ==>
          && h.shared == g.shared
          && (b != "" ==> RunUSD(h.fw, b) == Floor0(RunUSD(g.fw, b) - if b in g.fw.scopes then usd else 0.0))
          && match a.why
             case Velocity(name, wait) =>
               wait == 60 && exists i: nat :: i < |caps| && Blames(g.shared, caps, i, usd, tok, Unix(now), Breach(name, false))
             case Concurrency(name) =>
               exists i: nat :: i < |caps| && Blames(g.shared, caps, i, usd, tok, Unix(now), Breach(name, true))
             case _ => false)
  }

  /** The store call was lost: that is counted, and the instance decides on its own windows and counts. */
  ghost predicate InstanceDecides(g: Gate, h: Gate, a: Answered, scopes: seq<Scope>, b: string, usd: real, tok: int, now: nat) {
    && h.degraded == g.degraded + 1
    && (a.Granted? <==> ChainFits(g.fw, scopes, usd, tok, Unix(now)))
    && (a.Granted? ==> a == Granted(ByInstance(ScopeKeys(scopes)), b))
    && (a.Rejected? ==> Tells(g.fw, scopes, usd, tok, Unix(now), a.why))
  }

  lemma StoreAnswers(g: Gate, scopes: seq<Scope>, b: string, usd: real, tok: int, id: string, now: nat, ttl: int)
    ensures var (h, a) := StorePart(g, scopes, SharedCaps(scopes), b, usd, tok, id, NoFault, now, ttl);
            StoreDecides(g, h, a, scopes, b, usd, tok, id, now)
  {
    hide SharedSpec.ReserveAll, CheckOne, Blames, SharedCaps, CheckReserve, CheckAll;
    RefusalNames(g.shared, SharedCaps(scopes), usd, tok, id, Unix(now), ttl);
    CheckAllPasses(g.shared, SharedCaps(scopes), usd, tok, Unix(now));
  }

  lemma InstanceAnswers(g: Gate, scopes: seq<Scope>, b: string, usd: real, tok: int, id: string, fault: Fault, now: nat, ttl: int)
    requires ValidFw(g.fw) && !fault.NoFault?
    ensures var (h, a) := StorePart(g, scopes, SharedCaps(scopes), b, usd, tok, id, fault, now, ttl);
            InstanceDecides(g, h, a, scopes, b, usd, tok, now)
  {
    hide SharedSpec.Reserve, CheckReserve, Tells, ChainFits, SharedCaps;
    CheckReservePasses(g.fw, scopes, usd, tok, now);
    CheckReserveTells(g.fw, scopes, usd, tok, now);
  }

  /** No scope of the chain has a cap that the store keeps. */
  ghost predicate Unbounded(scopes: seq<Scope>) {
    forall sc :: sc in scopes ==> sc.limits.usdPerMin <= 0.0 && sc.limits.tokPerMin <= 0 && sc.limits.concurrent <= 0
  }

  lemma UnboundedIff(scopes: seq<Scope>)
    ensures Unbounded(scopes) <==> SharedCaps(scopes) == []
  {
    if SharedCaps(scopes) == [] {
      forall sc | sc in scopes
        ensures !StoreCapped(sc.limits)
      {
        assert StoreCapped(sc.limits) ==> CapFor(sc) in SharedCaps(scopes);
      }
    } else {
      assert SharedCaps(scopes)[0] in SharedCaps(scopes);
    }
  }

  /** A request that trips is denied without asking the store; one with nothing to ask for goes through;
      any other is decided by the store, or by the instance when the call is lost. */
  lemma AnswersSay(g: Gate, cfg: Config, scopes: seq<Scope>, run: string, hash: string, runMax: real, usd: real, tok: int,
                   id: string, fault: Fault, now: nat, ttl: int)
    requires ValidFw(g.fw)
    ensures var (h, a) := EnterShared(g, cfg, scopes, run, hash, runMax, usd, tok, id, fault, now, ttl);
            var (f, tripped, b) := CheckLoopBudget(FirewallSpec.GC(g.fw, cfg, now), cfg, run, hash, usd, runMax, now);
            if tripped then a == Rejected(Killed) && h.shared == g.shared && h.degraded == g.degraded
            else if Unbounded(scopes) then h == g.(fw := f) && a == Granted(Unheld, b)
            else if fault.NoFault? then StoreDecides(g.(fw := f), h, a, scopes, b, usd, tok, id, now)
            else InstanceDecides(g.(fw := f), h, a, scopes, b, usd, tok, now)
  {
    hide StorePart, StoreDecides, InstanceDecides, CheckLoopBudget, FirewallSpec.GC, Unbounded;
    var (f, tripped, b) := CheckLoopBudget(FirewallSpec.GC(g.fw, cfg, now), cfg, run, hash, usd, runMax, now);
    GCReadings(g.fw, cfg, now);
    CheckLoopBudgetReadings(FirewallSpec.GC(g.fw, cfg, now), cfg, run, hash, usd, runMax, now);
    UnboundedIff(scopes);
    if fault.NoFault? {
      StoreAnswers(g.(fw := f), scopes, b, usd, tok, id, now, ttl);
    } else {
      InstanceAnswers(g.(fw := f), scopes, b, usd, tok, id, fault, now, ttl);
    }
  }
}
