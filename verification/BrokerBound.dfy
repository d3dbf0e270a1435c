/** The request quota of a provider across all replicas. */
module BrokerBound {
  import opened WindowLog
  import opened SharedSpec
  import opened Broker
  import Keys

  datatype BOp =
    | Take(provider: string, limit: Limit, estTok: nat, now: int)
    | Keep(i: nat, actualTok: int, now: int)
    | GiveBack(i: nat, now: int)

  /** A lease handed out, with the provider and the second it was taken for. */
  datatype Taken = Taken(provider: string, at: int, lease: LeaseVal)

  datatype BSys = BSys(shared: Shared, leases: seq<Taken>)

  function BStep(s: BSys, op: BOp, ttl: int): BSys {
    match op
    case Take(p, l, estTok, now) =>
      if !Any(l) then s
      else
        var hold := Keys.Itoa(|s.leases|);
        var (sh, a) := Reserve(s.shared, [QuotaCap(p, l)], 1.0, estTok, hold, now, ttl);
        BSys(sh, if a == Reserved
                 then s.leases + [Taken(p, now, LeaseVal(ProviderKey(p), hold, estTok, l.rpm > 0, l.tpm > 0, false, false))]
                 else s.leases)
    case Keep(i, actualTok, now) =>
      if i >= |s.leases| then s
      else
        var (sh, le) := Settled(s.shared, s.leases[i].lease, actualTok, now);
        BSys(sh, s.leases[i := s.leases[i].(lease := le)])
    case GiveBack(i, now) =>
      if i >= |s.leases| then s
      else
        var (sh, le) := GivenBack(s.shared, s.leases[i].lease, now);
        BSys(sh, s.leases[i := s.leases[i].(lease := le)])
  }

  function BRun(ops: seq<BOp>, ttl: int): BSys {
    if ops == [] then BSys(EmptyShared, []) else BStep(BRun(ops[..|ops| - 1], ttl), ops[|ops| - 1], ttl)
  }

  /** Requests to p taken in the seconds [lo, hi]. */
  function CountTaken(ls: seq<Taken>, p: string, lo: int, hi: int): nat {
    if ls == [] then 0
    else
      var t := ls[|ls| - 1];
      CountTaken(ls[..|ls| - 1], p, lo, hi) + if t.provider == p && lo <= t.at <= hi then 1 else 0
  }

  lemma {:induction false} CountUpdate(ls: seq<Taken>, i: nat, le: LeaseVal, p: string, lo: int, hi: int)
    requires i < |ls|
    ensures CountTaken(ls[i := ls[i].(lease := le)], p, lo, hi) == CountTaken(ls, p, lo, hi)
  {
    var n := |ls| - 1;
    var ms := ls[i := ls[i].(lease := le)];
    if i == n {
      assert ms[..n] == ls[..n];
    } else {
      assert ms[..n] == ls[..n][i := ls[i].(lease := le)];
      CountUpdate(ls[..n], i, le, p, lo, hi);
    }
  }

  lemma {:induction false} CountWider(ls: seq<Taken>, p: string, lo: int, hi: int, lo': int, hi': int)
    requires lo' <= lo && forall i :: 0 <= i < |ls| ==> ls[i].at <= hi'
    ensures CountTaken(ls, p, lo, hi) <= CountTaken(ls, p, lo', hi')
  {
    if ls != [] {
      CountWider(ls[..|ls| - 1], p, lo, hi, lo', hi');
    }
  }

  /** A release of an unsettled lease gives its request back. */
  function BackFrom(s: BSys, op: BOp, p: string): real {
    if op.GiveBack? && op.i < |s.leases| && s.leases[op.i].provider == p && !s.leases[op.i].lease.settled && !s.leases[op.i].lease.released
    then 1.0 else 0.0
  }

  /** The requests to p given back in a run, and when. */
  function Backs(ops: seq<BOp>, p: string, ttl: int): Log {
    if ops == [] then []
    else
      var pre, op := ops[..|ops| - 1], ops[|ops| - 1];
      Backs(pre, p, ttl) + [Entry(op.now, BackFrom(BRun(pre, ttl), op, p))]
  }

  /** How many requests to p were given back in the seconds [lo, hi]. */
  function CountBack(ops: seq<BOp>, p: string, ttl: int, lo: int, hi: int): real {
    Signed(Backs(ops, p, ttl), lo, hi)
  }

  // ---- the invariant --------------------------------------------------------------------------------------------

  /** The log of a provider is one entry of 1 per request taken, less those given back. */
  ghost predicate LogIsCount(s: BSys, backs: Log, p: string) {
    forall lo, hi {:trigger CountTaken(s.leases, p, lo, hi)} ::
      Signed(LogAt(s.shared, Dollars, ProviderKey(p)), lo, hi) == CountTaken(s.leases, p, lo, hi) as real - Signed(backs, lo, hi)
  }

  function InMinute(s: BSys, p: string, lo: int): nat {
    CountTaken(s.leases, p, lo, lo + WINDOW - 1)
  }

  ghost predicate WithinQuota(s: BSys, backs: Log, p: string, rpm: nat) {
    forall lo {:trigger InMinute(s, p, lo)} :: InMinute(s, p, lo) as real <= rpm as real + Signed(backs, lo, lo + WINDOW - 1)
  }

  /** A lease is for its provider's quota; those of p count a request each. */
  ghost predicate LeasesOf(ls: seq<Taken>, p: string) {
    forall i {:trigger ls[i]} :: 0 <= i < |ls| ==> ls[i].lease.key == ProviderKey(ls[i].provider) && (ls[i].provider == p ==> ls[i].lease.rpm)
  }

  ghost predicate TakenBy(ls: seq<Taken>, now: int) {
    forall i :: 0 <= i < |ls| ==> ls[i].at <= now
  }

  ghost predicate QuotaInv(s: BSys, backs: Log, p: string, rpm: nat, now: int) {
    && LogIsCount(s, backs, p) && NonNegativeLog(backs) && LeasesOf(s.leases, p)
    && TakenBy(s.leases, now) && WithinQuota(s, backs, p, rpm)
  }

  lemma ProviderKeysDiffer(p: string, q: string)
    requires ProviderKey(p) == ProviderKey(q)
    ensures p == q
  {
    Keys.PrefixCancel("prov:", p, q);
  }

  lemma OneCap(s: Shared, c: Cap, tok: int, hold: string, now: int, ttl: int)
    requires c.conc == 0
    ensures var (s', a) := Reserve(s, [c], 1.0, tok, hold, now, ttl);
            && (a == Reserved ==> s' == ReserveOne(s, c, 1.0, tok, hold, now, ttl) && CheckOne(s, c, 1.0, tok, now) == Reserved)
            && (a != Reserved ==> s' == s)
  {
    assert ReserveAll(s, [c], 1.0, tok, hold, now, ttl) == ReserveAll(ReserveOne(s, c, 1.0, tok, hold, now, ttl), [c][1..], 1.0, tok, hold, now, ttl);
    assert CheckAll(s, [c][1..], 1.0, tok, now) == Reserved;
  }

  /** A step that moves the log of p by delta at now, where as many requests to p were taken, and more
      were given back. */
  lemma CountsMove(s: BSys, s': BSys, backs: Log, p: string, rpm: nat, before: int, now: int, taken: bool, back: real)
    requires QuotaInv(s, backs, p, rpm, before) && before <= now && back >= 0.0
    requires LeasesOf(s'.leases, p) && TakenBy(s'.leases, now)
    requires forall lo, hi {:trigger Signed(LogAt(s'.shared, Dollars, ProviderKey(p)), lo, hi)} ::
               Signed(LogAt(s'.shared, Dollars, ProviderKey(p)), lo, hi) == Signed(LogAt(s.shared, Dollars, ProviderKey(p)), lo, hi)
                 + if lo <= now <= hi then (if taken then 1.0 else 0.0) - back else 0.0
    requires forall lo, hi {:trigger CountTaken(s'.leases, p, lo, hi)} ::
               CountTaken(s'.leases, p, lo, hi) == CountTaken(s.leases, p, lo, hi) + if taken && lo <= now <= hi then 1 else 0
    requires taken ==> WindowSum(LogAt(s.shared, Dollars, ProviderKey(p)), now) + 1.0 <= rpm as real
    ensures QuotaInv(s', backs + [Entry(now, back)], p, rpm, now)
  {
    hide LogAt, Signed, CountTaken, WindowSum;
    var k := ProviderKey(p);
    var backs' := backs + [Entry(now, back)];
    forall lo, hi {:trigger CountTaken(s'.leases, p, lo, hi)}
      ensures Signed(LogAt(s'.shared, Dollars, k), lo, hi) == CountTaken(s'.leases, p, lo, hi) as real - Signed(backs', lo, hi)
    {
      SignedAppend(backs, Entry(now, back), lo, hi);
      assert Signed(LogAt(s.shared, Dollars, k), lo, hi) == CountTaken(s.leases, p, lo, hi) as real - Signed(backs, lo, hi);
    }
    forall lo {:trigger InMinute(s', p, lo)}
      ensures InMinute(s', p, lo) as real <= rpm as real + Signed(backs', lo, lo + WINDOW - 1)
    {
      var hi := lo + WINDOW - 1;
      SignedAppend(backs, Entry(now, back), lo, hi);
      assert InMinute(s, p, lo) as real <= rpm as real + Signed(backs, lo, hi);
      if taken && lo <= now <= hi {
        CountWider(s.leases, p, lo, hi, lo, now);
        SignedWithinWindow(LogAt(s.shared, Dollars, k), lo, now);
        SignedWithin(backs, lo, now, hi);
        assert Signed(LogAt(s.shared, Dollars, k), lo, now) == CountTaken(s.leases, p, lo, now) as real - Signed(backs, lo, now);
      }
    }
  }

  lemma TakeKeepsQuota(s: BSys, backs: Log, op: BOp, p: string, rpm: nat, before: int, ttl: int)
    requires QuotaInv(s, backs, p, rpm, before) && op.Take? && before <= op.now && rpm > 0
    requires op.provider == p ==> op.limit.rpm == rpm
    ensures QuotaInv(BStep(s, op, ttl), backs + [Entry(op.now, 0.0)], p, rpm, op.now)
  {
    hide QuotaInv, Reserve;
    var s' := BStep(s, op, ttl);
    var k, taken := ProviderKey(p), |s'.leases| > |s.leases| && op.provider == p;
    var c := QuotaCap(op.provider, op.limit);
    OneCap(s.shared, c, op.estTok, Keys.Itoa(|s.leases|), op.now, ttl);
    LeasesTaken(s, backs, op, p, rpm, before, ttl);
    if op.provider != p && ProviderKey(op.provider) == k {
      ProviderKeysDiffer(op.provider, p);
    }
    forall lo, hi {:trigger Signed(LogAt(s'.shared, Dollars, k), lo, hi)}
      ensures Signed(LogAt(s'.shared, Dollars, k), lo, hi) == Signed(LogAt(s.shared, Dollars, k), lo, hi)
                + if lo <= op.now <= hi then (if taken then 1.0 else 0.0) - 0.0 else 0.0
    {
      SignedAppend(LogAt(s.shared, Dollars, k), Entry(op.now, 1.0), lo, hi);
    }
    CountsMove(s, s', backs, p, rpm, before, op.now, taken, 0.0);
  }

  lemma LeasesTaken(s: BSys, backs: Log, op: BOp, p: string, rpm: nat, before: int, ttl: int)
    requires QuotaInv(s, backs, p, rpm, before) && op.Take? && before <= op.now && rpm > 0
    requires op.provider == p ==> op.limit.rpm == rpm
    ensures var s' := BStep(s, op, ttl);
            && LeasesOf(s'.leases, p) && TakenBy(s'.leases, op.now)
            && forall lo, hi {:trigger CountTaken(s'.leases, p, lo, hi)} ::
                 CountTaken(s'.leases, p, lo, hi) ==
                 CountTaken(s.leases, p, lo, hi) + if |s'.leases| > |s.leases| && op.provider == p && lo <= op.now <= hi then 1 else 0
  {
    hide Reserve, LogIsCount, WithinQuota;
    var s' := BStep(s, op, ttl);
    if |s'.leases| > |s.leases| {
      assert s'.leases[..|s.leases|] == s.leases;
    }
  }

  lemma ReconcileKeepsQuota(s: BSys, backs: Log, op: BOp, p: string, rpm: nat, before: int, ttl: int)
    requires QuotaInv(s, backs, p, rpm, before) && !op.Take? && before <= op.now
    ensures QuotaInv(BStep(s, op, ttl), backs + [Entry(op.now, BackFrom(s, op, p))], p, rpm, op.now)
  {
    hide Settled, GivenBack, CountTaken, LogIsCount, WithinQuota, Signed;
    var s' := BStep(s, op, ttl);
    if op.i < |s.leases| {
      var t := s.leases[op.i];
      MovesOnce(s.shared, t.lease, if op.Keep? then op.actualTok else 0, op.now, p);
      if ProviderKey(t.provider) == ProviderKey(p) {
        ProviderKeysDiffer(t.provider, p);
      }
      forall lo, hi {:trigger CountTaken(s'.leases, p, lo, hi)}
        ensures CountTaken(s'.leases, p, lo, hi) == CountTaken(s.leases, p, lo, hi)
      {
        CountUpdate(s.leases, op.i, s'.leases[op.i].lease, p, lo, hi);
      }
    }
    CountsMove(s, s', backs, p, rpm, before, op.now, false, BackFrom(s, op, p));
  }

  /** Settling leaves the requests of p alone; a release takes one back from an unsettled lease of p. */
  lemma MovesOnce(s: Shared, le: LeaseVal, actualTok: int, now: int, p: string)
    ensures LogAt(Settled(s, le, actualTok, now).0, Dollars, ProviderKey(p)) == LogAt(s, Dollars, ProviderKey(p))
    ensures Settled(s, le, actualTok, now).1 == le.(settled := Settled(s, le, actualTok, now).1.settled)
    ensures GivenBack(s, le, now).1 == le.(released := true)
    ensures forall lo, hi {:trigger Signed(LogAt(GivenBack(s, le, now).0, Dollars, ProviderKey(p)), lo, hi)} ::
              Signed(LogAt(GivenBack(s, le, now).0, Dollars, ProviderKey(p)), lo, hi) == Signed(LogAt(s, Dollars, ProviderKey(p)), lo, hi)
                - if !le.settled && !le.released && le.rpm && le.key == ProviderKey(p) && lo <= now <= hi then 1.0 else 0.0
  {
    var d := if le.tpm then actualTok - le.estTok else 0;
    var s1, log := FreeHolds(s, [le.key], le.hold), LogAt(s, Dollars, ProviderKey(p));
    assert Adjust(s, [le.key], 0.0, d, now) == Adjust(AdjustOne(s, le.key, 0.0, d, now), [le.key][1..], 0.0, d, now);
    assert s1 == FreeHolds(FreeOne(s, le.key, le.hold), [le.key][1..], le.hold);
    var one, tok := if le.rpm then 1.0 else 0.0, if le.tpm then le.estTok else 0;
    assert Adjust(s1, [le.key], -one, -tok, now) == Adjust(AdjustOne(s1, le.key, -one, -tok, now), [le.key][1..], -one, -tok, now);
    forall lo, hi {:trigger Signed(LogAt(GivenBack(s, le, now).0, Dollars, ProviderKey(p)), lo, hi)}
      ensures Signed(LogAt(GivenBack(s, le, now).0, Dollars, ProviderKey(p)), lo, hi) == Signed(log, lo, hi)
                - if !le.settled && !le.released && le.rpm && le.key == ProviderKey(p) && lo <= now <= hi then 1.0 else 0.0
    {
      SignedAppend(log, Entry(now, -1.0), lo, hi);
    }
  }

  ghost predicate GoodRun(ops: seq<BOp>, p: string, rpm: nat) {
    && (forall i :: 0 <= i < |ops| && ops[i].Take? && ops[i].provider == p ==> ops[i].limit.rpm == rpm)
    && (forall i, j :: 0 <= i < j < |ops| ==> ops[i].now <= ops[j].now)
  }

  lemma StartQuota(p: string, rpm: nat, now: int)
    ensures QuotaInv(BSys(EmptyShared, []), [], p, rpm, now)
  {
    assert forall lo, hi :: CountTaken([], p, lo, hi) == 0 && Signed([], lo, hi) == 0.0;
  }

  lemma {:induction false} QuotaHolds(ops: seq<BOp>, p: string, rpm: nat, ttl: int)
    requires rpm > 0 && GoodRun(ops, p, rpm)
    ensures QuotaInv(BRun(ops, ttl), Backs(ops, p, ttl), p, rpm, if ops == [] then 0 else ops[|ops| - 1].now)
  {
    hide QuotaInv, BStep;
    if ops == [] {
      StartQuota(p, rpm, 0);
    } else {
      var pre, op := ops[..|ops| - 1], ops[|ops| - 1];
      var s, backs := BRun(pre, ttl), Backs(pre, p, ttl);
      QuotaHolds(pre, p, rpm, ttl);
      var before := if pre == [] then op.now else pre[|pre| - 1].now;
      StartQuota(p, rpm, before);
      match op
      case Take(_, _, _, _) => TakeKeepsQuota(s, backs, op, p, rpm, before, ttl);
      case Keep(_, _, _) => ReconcileKeepsQuota(s, backs, op, p, rpm, before, ttl);
      case GiveBack(_, _) => ReconcileKeepsQuota(s, backs, op, p, rpm, before, ttl);
    }
  }

  /** In any sixty seconds, over all replicas, the requests to a provider let through are at most RPM
      and those given back in these seconds, as long as store calls succeed. */
  lemma RequestsWithinQuota(ops: seq<BOp>, p: string, rpm: nat, ttl: int, lo: int)
    requires rpm > 0 && GoodRun(ops, p, rpm)
    ensures CountTaken(BRun(ops, ttl).leases, p, lo, lo + 59) as real <= rpm as real + CountBack(ops, p, ttl, lo, lo + 59)
  {
    QuotaHolds(ops, p, rpm, ttl);
    assert InMinute(BRun(ops, ttl), p, lo) as real <= rpm as real + CountBack(ops, p, ttl, lo, lo + WINDOW - 1);
  }
}
