/** The tokens of a provider's quota: what its leases book in the store, told from the calls alone, and
    the bound that gives. */
module BrokerTokens {
  import opened WindowLog
  import opened SharedSpec
  import opened SameMinute
  import opened StoreVelocity
  import opened Broker
  import opened BrokerBound
  import Keys

  // ---- the calls -----------------------------------------------------------------------------------------------

  /** The calls that were given a lease, in order. */
  function Granted(ops: seq<BOp>, ttl: int): seq<BOp> {
    if ops == [] then []
    else
      var pre := ops[..|ops| - 1];
      Granted(pre, ttl) + if |BRun(ops, ttl).leases| > |BRun(pre, ttl).leases| then [ops[|ops| - 1]] else []
  }

  /** The call settles or releases lease i. */
  predicate Ends(op: BOp, i: nat) {
    !op.Take? && op.i == i
  }

  /** Lease i has been settled or released since it was granted. */
  predicate Ended(ops: seq<BOp>, i: nat, ttl: int) {
    ops != [] &&
    var pre := ops[..|ops| - 1];
    Ended(pre, i, ttl) || (Ends(ops[|ops| - 1], i) && i < |Granted(pre, ttl)|)
  }

  /** Lease i counts tokens of p. */
  predicate Counts(gs: seq<BOp>, i: nat, p: string) {
    i < |gs| && gs[i].Take? && gs[i].provider == p && gs[i].limit.tpm > 0
  }

  /** The last call is given a lease that counts tokens of p. */
  predicate Takes(ops: seq<BOp>, p: string, ttl: int)
    requires ops != []
  {
    var pre, op := ops[..|ops| - 1], ops[|ops| - 1];
    op.Take? && op.provider == p && op.limit.tpm > 0 && |Granted(ops, ttl)| > |Granted(pre, ttl)|
  }

  /** The tokens the last call moves: its estimate when it takes a lease, and when it is the first to end
      one, the actual less the estimate for a settle and the estimate turned for a release. */
  function Moved(ops: seq<BOp>, p: string, ttl: int): int
    requires ops != []
  {
    var pre, op := ops[..|ops| - 1], ops[|ops| - 1];
    var gs := Granted(pre, ttl);
    if op.Take? then (if Takes(ops, p, ttl) then op.estTok else 0)
    else if !Counts(gs, op.i, p) || Ended(pre, op.i, ttl) then 0
    else if op.Keep? then op.actualTok - gs[op.i].estTok
    else 0 - gs[op.i].estTok
  }

  /** The moves of a run, each at the second of its call. */
  function Moves(ops: seq<BOp>, p: string, ttl: int): Log {
    if ops == [] then [] else Moves(ops[..|ops| - 1], p, ttl) + [Entry(ops[|ops| - 1].now, Moved(ops, p, ttl) as real)]
  }

  /** The estimates of the leases granted. */
  function Estimates(ops: seq<BOp>, p: string, ttl: int): Log {
    if ops == [] then []
    else
      var op := ops[|ops| - 1];
      Estimates(ops[..|ops| - 1], p, ttl) + [Entry(op.now, if Takes(ops, p, ttl) then op.estTok as real else 0.0)]
  }

  /** The moves downward. */
  function Downs(ops: seq<BOp>, p: string, ttl: int): Log {
    if ops == [] then [] else Downs(ops[..|ops| - 1], p, ttl) + [Entry(ops[|ops| - 1].now, Floor0(-(Moved(ops, p, ttl) as real)))]
  }

  // ---- the leases --------------------------------------------------------------------------------------------------

  /** Lease i is what call i was granted, and has ended when a call ended it. */
  ghost predicate LeaseIs(t: Taken, g: BOp, ended: bool) {
    && g.Take? && t.provider == g.provider && t.lease.key == ProviderKey(g.provider)
    && t.lease.estTok == g.estTok && t.lease.tpm == (g.limit.tpm > 0) && (ended <==> t.lease.settled || t.lease.released)
  }

  ghost predicate LeasesAre(ls: seq<Taken>, ops: seq<BOp>, ttl: int) {
    var gs := Granted(ops, ttl);
    |ls| == |gs| && forall i {:trigger ls[i]} {:trigger gs[i]} :: 0 <= i < |ls| ==> LeaseIs(ls[i], gs[i], Ended(ops, i, ttl))
  }

  lemma {:induction false} NotEndedYet(ops: seq<BOp>, i: nat, ttl: int)
    requires i >= |Granted(ops, ttl)|
    ensures !Ended(ops, i, ttl)
  {
    if ops != [] {
      NotEndedYet(ops[..|ops| - 1], i, ttl);
    }
  }

  /** What a step does to the leases. */
  lemma StepLeases(s: BSys, op: BOp, ttl: int)
    ensures var s' := BStep(s, op, ttl);
            && |s.leases| <= |s'.leases|
            && (forall i {:trigger s'.leases[i]} :: 0 <= i < |s.leases| ==>
                  var a, b := s.leases[i], s'.leases[i];
                  && b.provider == a.provider && b.lease.key == a.lease.key && b.lease.estTok == a.lease.estTok && b.lease.tpm == a.lease.tpm
                  && (b.lease.settled || b.lease.released <==> a.lease.settled || a.lease.released || Ends(op, i)))
            && (|s'.leases| > |s.leases| ==>
                  op.Take? && |s'.leases| == |s.leases| + 1 && LeaseIs(s'.leases[|s.leases|], op, false))
  {
    hide Reserve, Adjust, Release;
  }

  lemma {:induction false} LeasesHold(ops: seq<BOp>, ttl: int)
    ensures LeasesAre(BRun(ops, ttl).leases, ops, ttl)
  {
    if ops != [] {
      hide BStep, Ended;
      var pre, op := ops[..|ops| - 1], ops[|ops| - 1];
      var s, s' := BRun(pre, ttl), BRun(ops, ttl);
      LeasesHold(pre, ttl);
      StepLeases(s, op, ttl);
      var n := |Granted(pre, ttl)|;
      NotEndedYet(pre, n, ttl);
      forall i {:trigger s'.leases[i]} | 0 <= i < |s'.leases|
        ensures LeaseIs(s'.leases[i], Granted(ops, ttl)[i], Ended(ops, i, ttl))
      {
        EndedStep(ops, i, ttl);
        if i < n {
          assert LeaseIs(s.leases[i], Granted(pre, ttl)[i], Ended(pre, i, ttl));
        }
      }
    }
  }

  lemma EndedStep(ops: seq<BOp>, i: nat, ttl: int)
    requires ops != []
    ensures Ended(ops, i, ttl) <==> Ended(ops[..|ops| - 1], i, ttl) || (Ends(ops[|ops| - 1], i) && i < |Granted(ops[..|ops| - 1], ttl)|)
  {
  }

  // ---- what is booked ------------------------------------------------------------------------------------------------

  /** A taken lease books its estimate in tokens. */
  lemma TakeBooks(s: BSys, op: BOp, p: string, ttl: int)
    requires op.Take?
    ensures var s' := BStep(s, op, ttl);
            LogAt(s'.shared, Tokens, ProviderKey(p)) ==
            Appended(LogAt(s.shared, Tokens, ProviderKey(p)), |s'.leases| > |s.leases| && op.provider == p && op.limit.tpm > 0, op.now, op.estTok as real)
  {
    OneCap(s.shared, QuotaCap(op.provider, op.limit), op.estTok, Keys.Itoa(|s.leases|), op.now, ttl);
    hide Reserve;
    if ProviderKey(op.provider) == ProviderKey(p) {
      ProviderKeysDiffer(op.provider, p);
    }
  }

  /** A lease ended for the first time books what it moves. */
  lemma EndBooks(s: Shared, le: LeaseVal, actualTok: int, now: int, k: string)
    ensures LogAt(Settled(s, le, actualTok, now).0, Tokens, k) ==
            Appended(LogAt(s, Tokens, k), !le.settled && !le.released && le.tpm && le.key == k && actualTok != le.estTok, now, (actualTok - le.estTok) as real)
    ensures LogAt(GivenBack(s, le, now).0, Tokens, k) ==
            Appended(LogAt(s, Tokens, k), !le.settled && !le.released && le.tpm && le.key == k && le.estTok != 0, now, (0 - le.estTok) as real)
  {
    var d := if le.tpm then actualTok - le.estTok else 0;
    var s1 := FreeHolds(s, [le.key], le.hold);
    assert Adjust(s, [le.key], 0.0, d, now) == Adjust(AdjustOne(s, le.key, 0.0, d, now), [le.key][1..], 0.0, d, now);
    assert s1 == FreeHolds(FreeOne(s, le.key, le.hold), [le.key][1..], le.hold);
    var one, tok := if le.rpm then 1.0 else 0.0, if le.tpm then le.estTok else 0;
    assert Adjust(s1, [le.key], -one, -tok, now) == Adjust(AdjustOne(s1, le.key, -one, -tok, now), [le.key][1..], -one, -tok, now);
  }

  /** Every step books exactly what its call moves. */
  lemma StepBooks(ops: seq<BOp>, p: string, ttl: int, lo: int, hi: int)
    requires ops != []
    ensures var k, op := ProviderKey(p), ops[|ops| - 1];
            Signed(LogAt(BRun(ops, ttl).shared, Tokens, k), lo, hi) ==
            Signed(LogAt(BRun(ops[..|ops| - 1], ttl).shared, Tokens, k), lo, hi) + if lo <= op.now <= hi then Moved(ops, p, ttl) as real else 0.0
  {
    hide Reserve, Settled, GivenBack, LogAt, Signed;
    var pre, op, k := ops[..|ops| - 1], ops[|ops| - 1], ProviderKey(p);
    var s := BRun(pre, ttl);
    var log := LogAt(s.shared, Tokens, k);
    LeasesHold(pre, ttl);
    LeasesHold(ops, ttl);
    SignedAppend(log, Entry(op.now, Moved(ops, p, ttl) as real), lo, hi);
    if op.Take? {
      TakeBooks(s, op, p, ttl);
    } else if op.i < |s.leases| {
      var t := s.leases[op.i];
      assert LeaseIs(t, Granted(pre, ttl)[op.i], Ended(pre, op.i, ttl));
      EndBooks(s.shared, t.lease, if op.Keep? then op.actualTok else 0, op.now, k);
      if ProviderKey(t.provider) == k {
        ProviderKeysDiffer(t.provider, p);
      }
    }
  }

  /** In every run, what was booked on a provider's tokens in any span of seconds is the estimates of the
      leases taken in it and, for each lease first settled or released in it, what that moved. */
  lemma {:induction false} TokensBooked(ops: seq<BOp>, p: string, ttl: int, lo: int, hi: int)
    ensures Signed(LogAt(BRun(ops, ttl).shared, Tokens, ProviderKey(p)), lo, hi) == Signed(Moves(ops, p, ttl), lo, hi)
  {
    if ops != [] {
      hide BStep, Moved;
      var pre, op := ops[..|ops| - 1], ops[|ops| - 1];
      TokensBooked(pre, p, ttl, lo, hi);
      StepBooks(ops, p, ttl, lo, hi);
      SignedAppend(Moves(pre, p, ttl), Entry(op.now, Moved(ops, p, ttl) as real), lo, hi);
    }
  }

  // ---- the bound ---------------------------------------------------------------------------------------------------------

  ghost predicate FixedTokens(ops: seq<BOp>, p: string, tpm: nat) {
    && (forall i :: 0 <= i < |ops| && ops[i].Take? && ops[i].provider == p ==> ops[i].limit.tpm == tpm)
    && (forall i, j :: 0 <= i < j < |ops| ==> ops[i].now <= ops[j].now)
  }

  /** A lease that counts tokens fits on top of what the store reads. */
  lemma TakenFits(s: BSys, op: BOp, ttl: int)
    requires op.Take? && op.limit.tpm > 0 && |BStep(s, op, ttl).leases| > |s.leases|
    ensures Used(s.shared, Tokens, ProviderKey(op.provider), op.now) + op.estTok as real <= op.limit.tpm as real
  {
    OneCap(s.shared, QuotaCap(op.provider, op.limit), op.estTok, Keys.Itoa(|s.leases|), op.now, ttl);
    hide Reserve;
  }

  lemma StepWithin(ops: seq<BOp>, p: string, tpm: nat, ttl: int)
    requires ops != [] && tpm > 0 && FixedTokens(ops, p, tpm)
    requires var pre := ops[..|ops| - 1];
             VInv(BRun(pre, ttl).shared, Estimates(pre, p, ttl), Downs(pre, p, ttl), ProviderKey(p), Tokens, tpm as real, ops[|ops| - 1].now)
    ensures VInv(BRun(ops, ttl).shared, Estimates(ops, p, ttl), Downs(ops, p, ttl), ProviderKey(p), Tokens, tpm as real, ops[|ops| - 1].now)
  {
    hide BStep, LogAt, Signed, VInv, Used, Granted;
    var pre, op, k := ops[..|ops| - 1], ops[|ops| - 1], ProviderKey(p);
    var s, s' := BRun(pre, ttl), BRun(ops, ttl);
    var est, fall := if Takes(ops, p, ttl) then op.estTok as real else 0.0, Floor0(-(Moved(ops, p, ttl) as real));
    assert est - fall <= Moved(ops, p, ttl) as real by {
      TakeMoves(ops, p, ttl);
    }
    forall lo, hi {:trigger Signed(LogAt(s'.shared, Tokens, k), lo, hi)}
      ensures Signed(LogAt(s'.shared, Tokens, k), lo, hi) >= Signed(LogAt(s.shared, Tokens, k), lo, hi) + if lo <= op.now <= hi then est - fall else 0.0
    {
      StepBooks(ops, p, ttl, lo, hi);
    }
    if Takes(ops, p, ttl) {
      TakesFit(ops, p, tpm, ttl);
    }
    LogsMove(s.shared, s'.shared, Estimates(pre, p, ttl), Downs(pre, p, ttl), k, Tokens, tpm as real, op.now, est, fall);
  }

  lemma TakeMoves(ops: seq<BOp>, p: string, ttl: int)
    requires ops != []
    ensures Takes(ops, p, ttl) ==> ops[|ops| - 1].Take? && Moved(ops, p, ttl) == ops[|ops| - 1].estTok
    ensures !Takes(ops, p, ttl) && ops[|ops| - 1].Take? ==> Moved(ops, p, ttl) == 0
  {
  }

  lemma TakesFit(ops: seq<BOp>, p: string, tpm: nat, ttl: int)
    requires ops != [] && tpm > 0 && FixedTokens(ops, p, tpm) && Takes(ops, p, ttl)
    ensures Used(BRun(ops[..|ops| - 1], ttl).shared, Tokens, ProviderKey(p), ops[|ops| - 1].now) + ops[|ops| - 1].estTok as real <= tpm as real
  {
    hide BStep, Used;
    var pre := ops[..|ops| - 1];
    LeasesHold(pre, ttl);
    LeasesHold(ops, ttl);
    TakenFits(BRun(pre, ttl), ops[|ops| - 1], ttl);
  }

  lemma StartWithin(k: string, tpm: nat, sec: int)
    ensures VInv(EmptyShared, [], [], k, Tokens, tpm as real, sec)
  {
  }

  lemma {:induction false} TokensWithin(ops: seq<BOp>, p: string, tpm: nat, ttl: int)
    requires tpm > 0 && FixedTokens(ops, p, tpm)
    ensures VInv(BRun(ops, ttl).shared, Estimates(ops, p, ttl), Downs(ops, p, ttl), ProviderKey(p), Tokens, tpm as real,
                 if ops == [] then 0 else ops[|ops| - 1].now)
  {
    hide VInv, BStep;
    if ops == [] {
      StartWithin(ProviderKey(p), tpm, 0);
    } else {
      var pre, op := ops[..|ops| - 1], ops[|ops| - 1];
      TokensWithin(pre, p, tpm, ttl);
      StartWithin(ProviderKey(p), tpm, op.now);
      if pre != [] {
        VInvLater(BRun(pre, ttl).shared, Estimates(pre, p, ttl), Downs(pre, p, ttl), ProviderKey(p), Tokens, tpm as real, pre[|pre| - 1].now, op.now);
      }
      StepWithin(ops, p, tpm, ttl);
    }
  }

  /** In any sixty seconds, over all replicas, the token estimates let through to a provider total at most
      TPM and what settles and releases took back in these seconds, as long as store calls succeed. */
  lemma TokensWithinQuota(ops: seq<BOp>, p: string, tpm: nat, ttl: int, lo: int)
    requires tpm > 0 && FixedTokens(ops, p, tpm)
    ensures Signed(Estimates(ops, p, ttl), lo, lo + 59) <= tpm as real + Signed(Downs(ops, p, ttl), lo, lo + 59)
  {
    TokensWithin(ops, p, tpm, ttl);
    assert StoreVelocity.InMinute(Estimates(ops, p, ttl), lo) <= tpm as real + StoreVelocity.InMinute(Downs(ops, p, ttl), lo);
  }
}
