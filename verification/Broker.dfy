/** Provider quotas: one request against a vendor's shared limits, taken before dispatch and
    kept or given back afterwards. */
module Broker {
  import opened SharedSpec
  import opened RedisStore

  const RETRY_AFTER_SEC: int := 60

  /** A vendor's quota per minute; 0 disables a dimension. */
  datatype Limit = Limit(rpm: nat, tpm: nat)

  predicate Any(l: Limit) {
    l.rpm > 0 || l.tpm > 0
  }

  function ProviderKey(provider: string): string {
    "prov:" + provider
  }

  /** Requests are counted in the store's dollar dimension. */
  function QuotaCap(provider: string, l: Limit): Cap {
    Cap(ProviderKey(provider), "provider", l.rpm as real, l.tpm, 0)
  }

  datatype LeaseVal = LeaseVal(key: string, hold: string, estTok: nat, rpm: bool, tpm: bool, settled: bool, released: bool)

  /** Settle keeps the request counted and moves the tokens to what was used. */
  function Settled(s: Shared, le: LeaseVal, actualTok: int, now: int): (Shared, LeaseVal) {
    if le.settled || le.released then (s, le)
    else (Adjust(s, [le.key], 0.0, if le.tpm then actualTok - le.estTok else 0, now), le.(settled := true))
  }

  /** Release takes back the dimensions that were reserved, unless the lease was settled. */
  function GivenBack(s: Shared, le: LeaseVal, now: int): (Shared, LeaseVal) {
    if le.released then (s, le)
    else (Release(s, [le.key], le.hold, if le.rpm then 1.0 else 0.0, if le.tpm then le.estTok else 0, le.settled, now),
          le.(released := true))
  }

  /** However a lease is settled and released, the store sees at most one settle, or one
      release, of it: after the first of either, only a release of a settled lease does anything
      (it drops the hold), and after that nothing does. */
  lemma ReconciledOnce(s: Shared, le: LeaseVal, t1: int, t2: int, now1: int, now2: int)
    ensures var (s1, l1) := Settled(s, le, t1, now1); Settled(s1, l1, t2, now2) == (s1, l1)
    ensures var (s1, l1) := Settled(s, le, t1, now1);
            GivenBack(s1, l1, now2).0.logs == s1.logs
    ensures var (s1, l1) := GivenBack(s, le, now1); Settled(s1, l1, t2, now2) == (s1, l1) && GivenBack(s1, l1, now2) == (s1, l1)
  {
    var (s1, l1) := Settled(s, le, t1, now1);
    assert FreeHolds(s1, [l1.key], l1.hold) == FreeHolds(FreeOne(s1, l1.key, l1.hold), [l1.key][1..], l1.hold);
    assert FreeHolds(s1, [l1.key], l1.hold).logs == s1.logs;
  }

  class Lease {
    const store: Redis
    const key: string
    const hold: string
    const estTok: nat
    const rpm: bool
    const tpm: bool
    var settled: bool
    var released: bool

    ghost function View(): LeaseVal
      reads this
    {
      LeaseVal(key, hold, estTok, rpm, tpm, settled, released)
    }

    constructor (store: Redis, key: string, hold: string, estTok: nat, rpm: bool, tpm: bool)
      ensures this.store == store && View() == LeaseVal(key, hold, estTok, rpm, tpm, false, false)
    {
      this.store, this.key, this.hold, this.estTok, this.rpm, this.tpm := store, key, hold, estTok, rpm, tpm;
      settled, released := false, false;
    }

    method Settle(actualTok: int, now: int)
      requires store.Valid() && store.clock <= now
      modifies this`settled, store
      ensures store.Valid() && (store.spec, View()) == Settled(old(store.spec), old(View()), actualTok, now)
    {
      if settled || released {
        return;
      }
      settled := true;
      var dt := 0;
      if tpm {
        dt := actualTok - estTok;
      }
      store.Adjust([key], 0.0, dt, now);
    }

    method Release(now: int)
      requires store.Valid() && store.clock <= now
      modifies this`released, store
      ensures store.Valid() && (store.spec, View()) == GivenBack(old(store.spec), old(View()), now)
    {
      if released {
        return;
      }
      released := true;
      var count, tok := 0.0, 0;
      if rpm {
        count := 1.0;
      }
      if tpm {
        tok := estTok;
      }
      store.Release([key], hold, count, tok, settled, now);
    }
  }

  class Broker {
    const store: Redis?
    const limits: map<string, Limit>
    var degraded: nat

    predicate Active(provider: string) {
      store != null && provider in limits && Any(limits[provider])
    }

    /** A store is there and the provider has a quota in some dimension. */
    ghost predicate Metered(provider: string) {
      store != null && provider in limits && (limits[provider].rpm > 0 || limits[provider].tpm > 0)
    }

    /** What the store does with a request against the provider's quota. */
    ghost function Taken(s: Shared, provider: string, estTok: nat, hold: string, now: int, ttl: int): (Shared, Answer)
      requires Metered(provider)
    {
      SharedSpec.Reserve(s, [QuotaCap(provider, limits[provider])], 1.0, estTok, hold, now, ttl)
    }

    constructor (store: Redis?, limits: map<string, Limit>)
      ensures this.store == store && this.limits == limits && degraded == 0
    {
      this.store, this.limits, degraded := store, limits, 0;
    }

    /** Takes one request of the provider's quota. Without a quota, or when the store cannot be
        reached, the request is admitted with nothing held. */
    method Reserve(provider: string, estTok: nat, hold: string, fault: Fault, now: int)
      returns (lease: Lease?, admitted: bool, retryAfterSec: int)
      requires Active(provider) ==> store.Valid() && store.clock <= now
      modifies this`degraded, if Active(provider) then {store} else {}
      ensures !Metered(provider) ==> lease == null && admitted && degraded == old(degraded)
      ensures Metered(provider) ==> store.Valid()
      ensures Metered(provider) ==> var s := Taken(old(store.spec), provider, estTok, hold, now, store.ttl).0;
                store.spec == if fault.LostBefore? then old(store.spec) else s
      ensures Metered(provider) && !fault.NoFault? ==> lease == null && admitted && degraded == old(degraded) + 1
      ensures Metered(provider) && fault.NoFault? ==> degraded == old(degraded) && (lease != null <==> admitted)
      ensures Metered(provider) && fault.NoFault? ==>
                admitted == (Taken(old(store.spec), provider, estTok, hold, now, store.ttl).1 == Reserved)
      ensures Metered(provider) && fault.NoFault? && !admitted ==> retryAfterSec == 60
      ensures Metered(provider) && lease != null ==> fresh(lease) && lease.store == store
      ensures Metered(provider) && lease != null ==>
                lease.View() == LeaseVal(ProviderKey(provider), hold, estTok, limits[provider].rpm > 0,
                                         limits[provider].tpm > 0, false, false)
    {
      if !Active(provider) {
        return null, true, 0;
      }
      var l := limits[provider];
      var a := Answer.Reserved;
      if !fault.LostBefore? {
        a := store.Reserve([QuotaCap(provider, l)], 1.0, estTok, hold, now);
      }
      if !fault.NoFault? {
        degraded := degraded + 1;
        return null, true, 0;
      }
      if a != Answer.Reserved {
        return null, false, RETRY_AFTER_SEC;
      }
      lease := new Lease(store, ProviderKey(provider), hold, estTok, l.rpm > 0, l.tpm > 0);
      return lease, true, 0;
    }
  }
}
