/** enterShared as it runs: one instance's firewall in front of the shared store. */
module SharedGate {
  import opened WindowLog
  import opened FirewallSpec
  import opened Firewalls
  import opened SharedSpec
  import opened SharedMode
  import opened RedisStore

  class Entrance {
    const fw: Firewall
    const store: Redis
    var degraded: nat

    ghost predicate Valid()
      reads this, fw, fw.Footprint(), store
    {
      fw.Valid() && store.Valid() && store !in fw.Footprint() && this !in fw.Footprint()
    }

    ghost function View(): Gate
      reads this, fw, fw.kills, store
    {
      Gate(fw.View(), store.spec, degraded)
    }

    constructor (fw: Firewall, store: Redis)
      requires fw.Valid() && store.Valid() && store !in fw.Footprint()
      ensures Valid() && View() == Gate(fw.View(), store.spec, 0) && this.fw == fw && this.store == store
    {
      this.fw, this.store, degraded := fw, store, 0;
    }

    /** The parallel slices the store expects: capped scopes only. */
    method CapsFor(scopes: seq<Scope>) returns (caps: seq<Cap>)
      ensures caps == SharedCaps(scopes)
    {
      caps := [];
      for i := |scopes| downto 0
        invariant caps == SharedCaps(scopes[i..])
      {
        assert scopes[i..][1..] == scopes[i + 1..];
        var sc := scopes[i];
        if sc.limits.usdPerMin > 0.0 || sc.limits.tokPerMin > 0 || sc.limits.concurrent > 0 {
          caps := [Cap(sc.key, sc.name, sc.limits.usdPerMin, sc.limits.tokPerMin, sc.limits.concurrent)] + caps;
        }
      }
      assert scopes[0..] == scopes;
    }

    /** The store call; a lost one may still have taken effect. */
    method CallStore(caps: seq<Cap>, usd: real, tok: int, id: string, fault: Fault, now: nat) returns (a: Answer)
      requires Valid() && store.clock <= Unix(now) && usd >= 0.0 && tok >= 0
      modifies store
      ensures Valid() && fw.View() == old(fw.View()) && store.clock <= Unix(now)
      ensures var (s, b) := SharedSpec.Reserve(old(store.spec), caps, usd, tok, id, Unix(now), store.ttl);
              store.spec == (if fault.LostBefore? then old(store.spec) else s) && (fault.NoFault? ==> a == b)
    {
      a := Reserved;
      fw.DomainFacts();
      hide Firewall.Valid;
      if !fault.LostBefore? {
        a := store.Reserve(caps, usd, tok, id, Unix(now));
      }
      fw.Untouched();
    }

    /** The store could not be reached: this instance decides alone. */
    method FallBack(scopes: seq<Scope>, budgetKey: string, usd: real, tok: int, now: nat) returns (answer: Answered)
      requires Valid()
      modifies this`degraded, fw`scopes, fw`owner, fw`contents, fw.owner.Keys
      ensures Valid() && degraded == old(degraded) + 1 && fresh(fw.owner.Keys - old(fw.owner).Keys)
      ensures var (f, denied) := CheckReserve(old(fw.View()), scopes, usd, tok, now);
              && fw.View() == (if denied.Some? then Unreserved(f, budgetKey, usd) else f)
              && answer == if denied.Some? then Rejected(denied.value) else Granted(ByInstance(ScopeKeys(scopes)), budgetKey)
    {
      fw.DomainFacts();
      hide Firewall.Valid;
      degraded := degraded + 1;
      fw.Untouched();
      var denied := fw.ReserveScopesLocal(scopes, budgetKey, usd, tok, now);
      return if denied.Some? then Rejected(denied.value) else Granted(ByInstance(ScopeKeys(scopes)), budgetKey);
    }

    /** The store said no: the budget reserved on the instance is rolled back. */
    method RollBack(budgetKey: string, usd: real)
      requires Valid()
      modifies fw`contents, fw.owner.Keys
      ensures Valid() && fw.View() == Unreserved(old(fw.View()), budgetKey, usd)
    {
      fw.DomainFacts();
      hide Firewall.Valid;
      fw.Unreserve(budgetKey, usd);
    }

    /** What is left of admission once the instance's own checks have passed. */
    method AskStore(scopes: seq<Scope>, caps: seq<Cap>, budgetKey: string, usd: real, tok: int,
                    id: string, fault: Fault, now: nat) returns (answer: Answered)
      requires Valid() && store.clock <= Unix(now) && usd >= 0.0 && tok >= 0
      modifies this`degraded, store, fw`scopes, fw`owner, fw`contents, fw.owner.Keys
      ensures Valid()
      ensures (View(), answer) == StorePart(old(View()), scopes, caps, budgetKey, usd, tok, id, fault, now, store.ttl)
    {
      hide Firewall.Valid, CheckReserve, Unreserved, SharedSpec.Reserve;
      var a := CallStore(caps, usd, tok, id, fault, now);
      if !fault.NoFault? {
        answer := FallBack(scopes, budgetKey, usd, tok, now);
      } else if a.Breach? {
        RollBack(budgetKey, usd);
        answer := Rejected(if a.concurrency then Concurrency(a.scope) else Velocity(a.scope, WINDOW));
      } else {
        answer := Granted(ByStore(CapKeys(caps), id), budgetKey);
      }
    }

    /** The instance's own checks, and the kill that an automatic trip issues. */
    method CheckHere(runKey: string, hash: string, runMax: real, usd: real, now: nat) returns (tripped: bool, budgetKey: string)
      requires Valid()
      modifies fw`scopes, fw`owner, fw`contents, fw`loops, fw`lastGC, fw.kills, fw.owner.Keys
      ensures Valid() && fresh(fw.owner.Keys - old(fw.owner).Keys)
      ensures var (f, t, b) := CheckLoopBudget(FirewallSpec.GC(old(fw.View()), fw.cfg, now), fw.cfg, runKey, hash, usd, runMax, now);
              tripped == t && budgetKey == b && fw.View() == if t then DoKill(f, fw.cfg, runKey, now) else f
    {
      fw.DomainFacts();
      hide Firewall.Valid, CheckLoopBudget, FirewallSpec.GC;
      tripped, budgetKey := fw.ReserveLocal(runKey, hash, usd, runMax, now);
      if tripped {
        fw.DomainFacts();
        var _ := fw.DoKill(runKey, now);
      }
    }

    /** Admits one request that is not killed. */
    method Enter(scopes: seq<Scope>, runKey: string, hash: string, runMax: real, usd: real, tok: int,
                 id: string, fault: Fault, now: nat) returns (answer: Answered)
      requires Valid() && store.clock <= Unix(now) && usd >= 0.0 && tok >= 0
      modifies this`degraded, store
      modifies fw`scopes, fw`owner, fw`contents, fw`loops, fw`lastGC, fw.kills, fw.owner.Keys
      ensures Valid()
      ensures (View(), answer)
           == EnterShared(old(View()), fw.cfg, scopes, runKey, hash, runMax, usd, tok, id, fault, now, store.ttl)
    {
      hide Firewall.Valid, CheckLoopBudget, FirewallSpec.GC, StorePart;
      var tripped, budgetKey := CheckHere(runKey, hash, runMax, usd, now);
      if tripped {
        return Rejected(Killed);
      }
      var caps := CapsFor(scopes);
      if caps == [] {
        return Granted(Unheld, budgetKey);
      }
      answer := AskStore(scopes, caps, budgetKey, usd, tok, id, fault, now);
    }
  }
}
