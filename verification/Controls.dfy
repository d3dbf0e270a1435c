/** Per-client controls: the token bucket behind the request rate limit, and the monthly budget. */
module Controls {

  // ---- the bucket ---------------------------------------------------------------------------------------------

  /** Times are real seconds. A bucket that was never asked has no last time. */
  datatype BucketVal = BucketVal(tokens: real, last: real, primed: bool)

  datatype Rate = Rate(capacity: real, refill: real)

  /** A bucket exists only for a positive number of requests per minute. */
  ghost predicate ValidRate(r: Rate) {
    r.capacity >= 1.0 && r.refill > 0.0
  }

  function RateOf(rpm: nat): (r: Rate)
    requires rpm > 0
    ensures ValidRate(r)
  {
    Rate(rpm as real, rpm as real / 60.0)
  }

  function Min(a: real, b: real): real {
    if a < b then a else b
  }

  function Ceil(x: real): int {
    -((-x).Floor)
  }

  function FullBucket(r: Rate): BucketVal {
    BucketVal(r.capacity, 0.0, false)
  }

  function Topped(tokens: real, elapsed: real, r: Rate): real {
    Min(r.capacity, tokens + elapsed * r.refill)
  }

  /** The bucket as it stands at now; a clock that went back adds nothing. */
  function At(b: BucketVal, r: Rate, now: real): BucketVal {
    var last := if b.primed then b.last else now;
    if now > last then BucketVal(Topped(b.tokens, now - last, r), now, true)
    else BucketVal(b.tokens, last, true)
  }

  function Wait(tokens: real, r: Rate): int
    requires r.refill > 0.0
  {
    var w := Ceil((1.0 - tokens) / r.refill);
    if w < 1 then 1 else w
  }

  /** Takes one token if there is one; otherwise says how many whole seconds to wait. */
  function AllowAt(b: BucketVal, r: Rate, now: real): (BucketVal, bool, int)
    requires r.refill > 0.0
  {
    var c := At(b, r, now);
    if c.tokens >= 1.0 then (c.(tokens := c.tokens - 1.0), true, 0) else (c, false, Wait(c.tokens, r))
  }

  class Bucket {
    const rate: Rate
    var tokens: real
    var last: real
    var primed: bool

    ghost function View(): BucketVal
      reads this
    {
      BucketVal(tokens, last, primed)
    }

    constructor (rpm: nat)
      requires rpm > 0
      ensures rate == RateOf(rpm) && View() == FullBucket(rate)
    {
      rate := RateOf(rpm);
      tokens, last, primed := RateOf(rpm).capacity, 0.0, false;
    }

    method Allow(now: real) returns (ok: bool, retryAfterSec: int)
      requires rate.refill > 0.0
      modifies this
      ensures (View(), ok, retryAfterSec) == AllowAt(old(View()), rate, now)
    {
      hide Wait, Topped;
      if !primed {
        primed, last := true, now;
      }
      var elapsed := now - last;
      if elapsed > 0.0 {
        tokens := Topped(tokens, elapsed, rate);
        last := now;
      }
      if tokens >= 1.0 {
        tokens := tokens - 1.0;
        return true, 0;
      }
      return false, Wait(tokens, rate);
    }
  }

  // ---- runs of calls ----------------------------------------------------------------------------------------------

  ghost predicate Ordered(ts: seq<real>) {
    forall i, j :: 0 <= i < j < |ts| ==> ts[i] <= ts[j]
  }

  function BucketAfter(r: Rate, ts: seq<real>): BucketVal
    requires r.refill > 0.0
  {
    if ts == [] then FullBucket(r) else AllowAt(BucketAfter(r, ts[..|ts| - 1]), r, ts[|ts| - 1]).0
  }

  predicate AdmittedLast(r: Rate, ts: seq<real>)
    requires ts != [] && r.refill > 0.0
  {
    AllowAt(BucketAfter(r, ts[..|ts| - 1]), r, ts[|ts| - 1]).1
  }

  /** Calls admitted at times in [from, to]. */
  function AdmittedIn(r: Rate, ts: seq<real>, from: real, to: real): nat
    requires r.refill > 0.0
  {
    if ts == [] then 0
    else
      AdmittedIn(r, ts[..|ts| - 1], from, to) +
      if from <= ts[|ts| - 1] <= to && AdmittedLast(r, ts) then 1 else 0
  }

  lemma TokensStep(b: BucketVal, r: Rate, now: real)
    requires ValidRate(r) && 0.0 <= b.tokens <= r.capacity && (b.primed ==> b.last <= now)
    ensures var c := AllowAt(b, r, now).0; 0.0 <= c.tokens <= r.capacity && c.primed && c.last == now
  {
    assert b.primed ==> (now - b.last) * r.refill >= 0.0;
  }

  lemma {:induction false} TokensBounded(r: Rate, ts: seq<real>)
    requires ValidRate(r) && Ordered(ts)
    ensures var b := BucketAfter(r, ts);
            0.0 <= b.tokens <= r.capacity && (ts != [] ==> b.primed && b.last == ts[|ts| - 1]) && (ts == [] ==> !b.primed)
  {
    if ts != [] {
      hide AllowAt;
      var pre, now := ts[..|ts| - 1], ts[|ts| - 1];
      TokensBounded(r, pre);
      TokensStep(BucketAfter(r, pre), r, now);
    }
  }

  lemma {:induction false} NoneBefore(r: Rate, ts: seq<real>, from: real, to: real)
    requires r.refill > 0.0 && forall i :: 0 <= i < |ts| ==> ts[i] < from
    ensures AdmittedIn(r, ts, from, to) == 0
  {
    if ts != [] {
      NoneBefore(r, ts[..|ts| - 1], from, to);
    }
  }

  /** What refills between two times. */
  function Refills(r: Rate, from: real, to: real): real {
    r.refill * (to - from)
  }

  lemma RefillsAdd(r: Rate, a: real, b: real, c: real)
    requires r.refill > 0.0 && a <= b <= c
    ensures Refills(r, a, b) + Refills(r, b, c) == Refills(r, a, c)
    ensures Refills(r, a, b) >= 0.0 && Refills(r, b, c) >= 0.0
  {
  }

  /** One call leaves at most a full bucket, less what it took. */
  lemma FirstCall(r: Rate, b: BucketVal, now: real)
    requires ValidRate(r) && b.tokens <= r.capacity
    ensures var (c, ok, _) := AllowAt(b, r, now);
            c.tokens + (if ok then 1.0 else 0.0) <= r.capacity
  {
  }

  /** Between two calls a bucket gains at most what refills. */
  lemma Gained(b: BucketVal, r: Rate, now: real)
    requires ValidRate(r) && b.primed && b.last <= now
    ensures var (c, ok, _) := AllowAt(b, r, now);
            c.tokens + (if ok then 1.0 else 0.0) <= b.tokens + Refills(r, b.last, now)
  {
    assert (now - b.last) * r.refill == r.refill * (now - b.last);
    assert now == b.last ==> r.refill * (now - b.last) == 0.0;
  }

  /** What was admitted since from, plus what is left, fits what the bucket held and gained. */
  lemma {:induction false} Potential(r: Rate, ts: seq<real>, from: real, to: real)
    requires ValidRate(r) && Ordered(ts) && ts != [] && from <= ts[|ts| - 1] <= to
    ensures AdmittedIn(r, ts, from, to) as real + BucketAfter(r, ts).tokens <= r.capacity + Refills(r, from, ts[|ts| - 1])
  {
    hide Refills, AllowAt;
    var pre, now := ts[..|ts| - 1], ts[|ts| - 1];
    var b := BucketAfter(r, pre);
    TokensBounded(r, pre);
    if pre == [] || pre[|pre| - 1] < from {
      assert forall i :: 0 <= i < |pre| ==> pre[i] <= pre[|pre| - 1];
      NoneBefore(r, pre, from, to);
      FirstCall(r, b, now);
      RefillsAdd(r, from, from, now);
    } else {
      var before := pre[|pre| - 1];
      assert before == ts[|ts| - 2] && before <= now;
      Potential(r, pre, from, to);
      Gained(b, r, now);
      RefillsAdd(r, from, before, now);
    }
  }

  /** Over any interval no more calls are admitted than the capacity plus what refills in it. */
  lemma {:induction false} RateHolds(r: Rate, ts: seq<real>, from: real, to: real)
    requires ValidRate(r) && Ordered(ts) && from <= to
    ensures AdmittedIn(r, ts, from, to) as real <= r.capacity + Refills(r, from, to)
  {
    hide Refills, AllowAt;
    RefillsAdd(r, from, from, to);
    if ts != [] {
      var last := ts[|ts| - 1];
      if from <= last <= to {
        Potential(r, ts, from, to);
        TokensBounded(r, ts);
        RefillsAdd(r, from, last, to);
      } else {
        RateHolds(r, ts[..|ts| - 1], from, to);
      }
    }
  }

  // ---- any clock ---------------------------------------------------------------------------------------------------

  function Admitted(r: Rate, ts: seq<real>): nat
    requires r.refill > 0.0
  {
    if ts == [] then 0 else Admitted(r, ts[..|ts| - 1]) + if AdmittedLast(r, ts) then 1 else 0
  }

  /** The latest time the clock has shown. */
  function Latest(ts: seq<real>): real
    requires ts != []
  {
    var now := ts[|ts| - 1];
    if |ts| == 1 then now else var before := Latest(ts[..|ts| - 1]); if now > before then now else before
  }

  lemma AnyClockStep(b: BucketVal, r: Rate, now: real)
    requires ValidRate(r) && b.primed
    ensures var (c, ok, _) := AllowAt(b, r, now);
            var latest := if now > b.last then now else b.last;
            c.primed && c.last == latest && c.tokens + (if ok then 1.0 else 0.0) <= b.tokens + Refills(r, b.last, latest)
  {
    assert (now - b.last) * r.refill == r.refill * (now - b.last);
    assert r.refill * (b.last - b.last) == 0.0;
  }

  lemma AnyClockFirst(r: Rate, now: real)
    requires ValidRate(r)
    ensures var (c, ok, _) := AllowAt(FullBucket(r), r, now);
            c.primed && c.last == now && c.tokens + (if ok then 1.0 else 0.0) <= r.capacity
  {
  }

  lemma {:induction false} AnyClockPotential(r: Rate, ts: seq<real>)
    requires ValidRate(r) && ts != []
    ensures var b := BucketAfter(r, ts);
            && b.primed && b.last == Latest(ts) && ts[0] <= Latest(ts)
            && Admitted(r, ts) as real + b.tokens <= r.capacity + Refills(r, ts[0], Latest(ts))
  {
    hide AllowAt, Refills;
    var pre, now := ts[..|ts| - 1], ts[|ts| - 1];
    if pre == [] {
      assert BucketAfter(r, pre) == FullBucket(r) && Admitted(r, pre) == 0;
      AnyClockFirst(r, now);
      RefillsAdd(r, now, now, now);
    } else {
      AnyClockPotential(r, pre);
      AnyClockStep(BucketAfter(r, pre), r, now);
      RefillsAdd(r, ts[0], Latest(pre), Latest(ts));
    }
  }

  /** Whatever the clock does, back and forth, no more calls are admitted in all than the capacity and
      what refills from the first reading to the latest. */
  lemma RateHoldsAnyClock(r: Rate, ts: seq<real>)
    requires ValidRate(r) && ts != []
    ensures ts[0] <= Latest(ts) && Admitted(r, ts) as real <= r.capacity + Refills(r, ts[0], Latest(ts))
  {
    hide Refills, Admitted, BucketAfter, Latest;
    AnyClockPotential(r, ts);
    TokensNeverNegative(r, ts);
  }

  lemma {:induction false} TokensNeverNegative(r: Rate, ts: seq<real>)
    requires ValidRate(r)
    ensures BucketAfter(r, ts).tokens >= 0.0
  {
    if ts != [] {
      TokensNeverNegative(r, ts[..|ts| - 1]);
      NeverNegativeStep(BucketAfter(r, ts[..|ts| - 1]), r, ts[|ts| - 1]);
    }
  }

  lemma NeverNegativeStep(b: BucketVal, r: Rate, now: real)
    requires ValidRate(r) && b.tokens >= 0.0
    ensures AllowAt(b, r, now).0.tokens >= 0.0
  {
    if b.primed && now > b.last {
      ToppedNonNegative(b.tokens, now - b.last, r);
    }
    hide Topped;
  }

  lemma ToppedNonNegative(tokens: real, elapsed: real, r: Rate)
    requires ValidRate(r) && tokens >= 0.0 && elapsed > 0.0
    ensures Topped(tokens, elapsed, r) >= 0.0
  {
    Product(elapsed, r.refill);
  }

  lemma Product(x: real, y: real)
    requires x >= 0.0 && y >= 0.0
    ensures x * y >= 0.0
  {
  }

  /** After a denial, a call k whole seconds later, with none in between, succeeds exactly when k is
      at least the wait returned: it is the least such number. */
  lemma WaitIsLeast(b: BucketVal, r: Rate, now: real, k: nat)
    requires ValidRate(r) && (b.primed ==> b.last <= now) && !AllowAt(b, r, now).1
    ensures var (c, _, w) := AllowAt(b, r, now);
            AllowAt(c, r, now + k as real).1 <==> k >= w
  {
    var (c, _, w) := AllowAt(b, r, now);
    assert c.primed && c.last == now && c.tokens < 1.0 && w == Wait(c.tokens, r);
    hide AllowAt, At, Wait;
    WaitFills(c.tokens, r, k);
  }

  lemma WaitFills(tokens: real, r: Rate, k: nat)
    requires r.refill > 0.0 && tokens < 1.0
    ensures tokens + k as real * r.refill >= 1.0 <==> k >= Wait(tokens, r)
  {
    var need := (1.0 - tokens) / r.refill;
    hide Ceil;
    Scale(k as real, need, r.refill);
    Scale(0.0, need, r.refill);
  }

  lemma Scale(a: real, b: real, c: real)
    requires c > 0.0
    ensures a >= b <==> a * c >= b * c
  {
    if a < b {
      assert (b - a) * c > 0.0;
    } else {
      assert (a - b) * c >= 0.0;
    }
  }

  // ---- exactly which calls are admitted -------------------------------------------------------------------------

  /** Between calls i and the last one the bucket never overflowed, and it was full at call i. */
  ghost predicate FullAt(r: Rate, ts: seq<real>, i: nat)
    requires r.refill > 0.0
  {
    && i < |ts|
    && AdmittedIn(r, ts, ts[i], ts[|ts| - 1]) as real + BucketAfter(r, ts).tokens == r.capacity + Refills(r, ts[i], ts[|ts| - 1])
  }

  /** The bucket was full when some call came, and has gained all that refills since. */
  lemma {:induction false} FullSomewhere(r: Rate, ts: seq<real>) returns (i: nat)
    requires ValidRate(r) && Ordered(ts) && ts != []
    ensures FullAt(r, ts, i)
  {
    hide AllowAt, Refills;
    var pre, now := ts[..|ts| - 1], ts[|ts| - 1];
    var b := BucketAfter(r, pre);
    TokensBounded(r, pre);
    AllowLeaves(b, r, now);
    if pre == [] || (b.last < now && Topped(b.tokens, now - b.last, r) == r.capacity) {
      i := |ts| - 1;
      NoneBefore(r, pre, now, now);
      RefillsAdd(r, now, now, now);
    } else {
      i := FullSomewhere(r, pre);
      var before := pre[|pre| - 1];
      RefillsAdd(r, pre[i], before, now);
      WidenTo(r, pre, pre[i], before, now);
      assert ts[i] == pre[i];
    }
  }

  /** What one call leaves of the bucket. */
  lemma AllowLeaves(b: BucketVal, r: Rate, now: real)
    requires ValidRate(r) && 0.0 <= b.tokens <= r.capacity && (b.primed ==> b.last <= now)
    ensures var (c, ok, _) := AllowAt(b, r, now);
            var held := c.tokens + if ok then 1.0 else 0.0;
            && (ok <==> held >= 1.0)
            && (!b.primed ==> held == b.tokens)
            && (b.primed && (b.last == now || Topped(b.tokens, now - b.last, r) < r.capacity) ==>
                  held == b.tokens + Refills(r, b.last, now))
            && (b.primed && b.last < now ==> held == Topped(b.tokens, now - b.last, r))
  {
    assert b.primed ==> (now - b.last) * r.refill == r.refill * (now - b.last);
    assert b.last == now ==> r.refill * (now - b.last) == 0.0;
  }

  /** Calls after the last one are none. */
  lemma {:induction false} WidenTo(r: Rate, ts: seq<real>, from: real, to: real, later: real)
    requires r.refill > 0.0 && to <= later && forall i :: 0 <= i < |ts| ==> ts[i] <= to
    ensures AdmittedIn(r, ts, from, later) == AdmittedIn(r, ts, from, to)
  {
    if ts != [] {
      WidenTo(r, ts[..|ts| - 1], from, to, later);
    }
  }

  /** A burst of rpm, and rpm more a minute. */
  function Allowance(rpm: nat, from: real, to: real): real {
    rpm as real + rpm as real * (to - from) / 60.0
  }

  lemma AllowanceIs(rpm: nat, from: real, to: real)
    requires rpm > 0
    ensures RateOf(rpm).capacity + Refills(RateOf(rpm), from, to) == Allowance(rpm, from, to)
  {
  }

  /** One more call keeps to the allowance counted from from. */
  ghost predicate Room(rpm: nat, ts: seq<real>, from: real, now: real)
    requires rpm > 0
  {
    AdmittedIn(RateOf(rpm), ts, from, now) as real + 1.0 <= Allowance(rpm, from, now)
  }

  lemma AdmittedThen(r: Rate, ts: seq<real>, from: real)
    requires r.refill > 0.0 && ts != [] && from <= ts[|ts| - 1]
    ensures var pre, now := ts[..|ts| - 1], ts[|ts| - 1];
            AdmittedIn(r, ts, from, now) == AdmittedIn(r, pre, from, now) + if AdmittedLast(r, ts) then 1 else 0
  {
  }

  lemma AdmittedHasRoom(rpm: nat, ts: seq<real>, i: nat)
    requires rpm > 0 && Ordered(ts) && i < |ts| - 1 && AdmittedLast(RateOf(rpm), ts)
    ensures Room(rpm, ts[..|ts| - 1], ts[i], ts[|ts| - 1])
  {
    hide AdmittedIn, AdmittedLast, Refills, Allowance, RateOf;
    var r, now := RateOf(rpm), ts[|ts| - 1];
    AdmittedThen(r, ts, ts[i]);
    RateHolds(r, ts, ts[i], now);
    AllowanceIs(rpm, ts[i], now);
  }

  lemma DeniedHasNone(rpm: nat, ts: seq<real>) returns (i: nat)
    requires rpm > 0 && Ordered(ts) && ts != [] && !AdmittedLast(RateOf(rpm), ts)
    ensures i < |ts| - 1 && !Room(rpm, ts[..|ts| - 1], ts[i], ts[|ts| - 1])
  {
    hide AdmittedIn, AdmittedLast, Refills, Allowance, RateOf;
    var r, pre, now := RateOf(rpm), ts[..|ts| - 1], ts[|ts| - 1];
    i := FullSomewhere(r, ts);
    AdmittedThen(r, ts, ts[i]);
    AllowanceIs(rpm, ts[i], now);
    DeniedIsEmpty(r, ts);
    if i == |pre| {
      if pre == [] || pre[|pre| - 1] < now {
        assert forall k :: 0 <= k < |pre| ==> pre[k] <= pre[|pre| - 1];
        NoneBefore(r, pre, now, now);
        RefillsAdd(r, now, now, now);
        assert false;
      }
      i := i - 1;
      assert ts[i] == now;
    }
  }

  lemma DeniedIsEmpty(r: Rate, ts: seq<real>)
    requires r.refill > 0.0 && ts != [] && !AdmittedLast(r, ts)
    ensures BucketAfter(r, ts).tokens < 1.0
  {
  }

  /** With a limit of rpm calls a minute, a call is admitted if and only if, counted from every
      earlier call, it keeps to a burst of rpm and rpm more a minute. */
  lemma AdmittedIff(rpm: nat, ts: seq<real>)
    requires rpm > 0 && Ordered(ts) && ts != []
    ensures var pre, now := ts[..|ts| - 1], ts[|ts| - 1];
            AdmittedLast(RateOf(rpm), ts) <==> forall i :: 0 <= i < |pre| ==> Room(rpm, pre, pre[i], now)
  {
    hide AdmittedLast, Room, RateOf;
    if AdmittedLast(RateOf(rpm), ts) {
      var pre := ts[..|ts| - 1];
      forall i | 0 <= i < |pre|
        ensures Room(rpm, pre, pre[i], ts[|ts| - 1])
      {
        AdmittedHasRoom(rpm, ts, i);
      }
    } else {
      var i := DeniedHasNone(rpm, ts);
      assert ts[..|ts| - 1][i] == ts[i];
    }
  }

  // ---- the monthly budget -------------------------------------------------------------------------------------------

  datatype Spend = Spend(month: int, usd: real)

  /** A held amount, and what it was first settled for. */
  datatype Held = Held(amount: real, settled: bool, actual: real)

  function Rolled(s: Spend, month: int): Spend {
    if s.month != month then Spend(month, 0.0) else s
  }

  function Reserved(s: Spend, budget: real, est: real, month: int): (Spend, bool) {
    var c := Rolled(s, month);
    if budget > 0.0 && c.usd + est > budget then (c, false) else (c.(usd := c.usd + est), true)
  }

  function Settled(s: Spend, held: real, actual: real): Spend {
    var usd := s.usd + (actual - held);
    s.(usd := if usd < 0.0 then 0.0 else usd)
  }

  class ClientState {
    const budget: real
    var month: int
    var spentUSD: real

    ghost function View(): Spend
      reads this
    {
      Spend(month, spentUSD)
    }

    constructor (budget: real, month: int)
      ensures View() == Spend(month, 0.0) && this.budget == budget
    {
      this.budget, this.month, spentUSD := budget, month, 0.0;
    }

    method Reserve(est: real, now: int) returns (ok: bool)
      modifies this
      ensures (View(), ok) == Reserved(old(View()), budget, est, now)
    {
      if month != now {
        month, spentUSD := now, 0.0;
      }
      if budget > 0.0 && spentUSD + est > budget {
        return false;
      }
      spentUSD := spentUSD + est;
      return true;
    }

    method Settle(held: real, actual: real)
      modifies this
      ensures View() == Settled(old(View()), held, actual)
    {
      spentUSD := spentUSD + (actual - held);
      if spentUSD < 0.0 {
        spentUSD := 0.0;
      }
    }
  }

  datatype BudgetOp = Take(est: real, month: int) | Pay(i: nat, actual: real)

  /** Reservations from base on were taken since the clock last showed another month. */
  datatype Account = Account(spend: Spend, held: seq<Held>, base: nat, month: int)

  /** Operations of one client, at whatever months its clock shows. Nothing keeps a reservation from
      being settled again, or in a later month; either is booked on the spend of the day. */
  function BudgetStep(a: Account, op: BudgetOp, budget: real): Account {
    match op
    case Take(est, month) =>
      var (s, ok) := Reserved(a.spend, budget, est, month);
      Account(s, if ok then a.held + [Held(est, false, 0.0)] else a.held, if month == a.month then a.base else |a.held|, month)
    case Pay(i, actual) =>
      if i >= |a.held| then a
      else
        var h := a.held[i];
        a.(spend := Settled(a.spend, h.amount, actual),
           held := if h.settled then a.held else a.held[i := h.(settled := true, actual := actual)])
  }

  function BudgetRun(ops: seq<BudgetOp>, budget: real, month: int): Account {
    if ops == [] then Account(Spend(month, 0.0), [], 0, month)
    else BudgetStep(BudgetRun(ops[..|ops| - 1], budget, month), ops[|ops| - 1], budget)
  }

  function Counts(h: Held): real {
    if h.settled then h.actual else h.amount
  }

  /** How far a settle went above its estimate. */
  function Over(h: Held): real {
    if h.settled && h.actual > h.amount then h.actual - h.amount else 0.0
  }

  function Sum(hs: seq<Held>, over: bool): real {
    if hs == [] then 0.0 else Sum(hs[..|hs| - 1], over) + if over then Over(hs[|hs| - 1]) else Counts(hs[|hs| - 1])
  }

  lemma SumAppend(hs: seq<Held>, h: Held, over: bool)
    ensures Sum(hs + [h], over) == Sum(hs, over) + if over then Over(h) else Counts(h)
  {
    assert (hs + [h])[..|hs|] == hs;
  }

  lemma {:induction false} SumUpdate(hs: seq<Held>, i: nat, h: Held, over: bool)
    requires i < |hs|
    ensures Sum(hs[i := h], over) ==
            Sum(hs, over) - (if over then Over(hs[i]) else Counts(hs[i])) + (if over then Over(h) else Counts(h))
  {
    var n := |hs| - 1;
    if i == n {
      assert hs[i := h][..n] == hs[..n];
    } else {
      assert hs[i := h][..n] == hs[..n][i := h];
      SumUpdate(hs[..n], i, h, over);
    }
  }

  lemma {:induction false} SumCovers(hs: seq<Held>, i: int)
    requires forall j :: 0 <= j < |hs| ==> Counts(hs[j]) >= 0.0
    ensures Sum(hs, false) >= 0.0 && (0 <= i < |hs| ==> Sum(hs, false) >= Counts(hs[i]))
  {
    if hs != [] {
      SumCovers(hs[..|hs| - 1], i);
    }
  }

  ghost predicate NonNegativeOps(ops: seq<BudgetOp>) {
    forall i :: 0 <= i < |ops| ==> if ops[i].Take? then ops[i].est >= 0.0 else ops[i].actual >= 0.0
  }

  /** The reservations of the current month. */
  function Current(a: Account): seq<Held> {
    if a.base <= |a.held| then a.held[a.base..] else []
  }

  /** The client's spend is what this month's reservations were settled for and what is still held. */
  predicate Exact(a: Account) {
    a.spend.usd == Sum(Current(a), false)
  }

  /** Settling a reservation that is already settled, or that an earlier month took, moves the spend. */
  predicate Misbooks(a: Account, op: BudgetOp) {
    op.Pay? && op.i < |a.held| && (a.held[op.i].settled || op.i < a.base) && Settled(a.spend, a.held[op.i].amount, op.actual) != a.spend
  }

  ghost predicate Balanced(a: Account, budget: real) {
    && a.base <= |a.held| && a.spend.month == a.month && Exact(a)
    && (forall j {:trigger a.held[j]} :: 0 <= j < |a.held| ==> Counts(a.held[j]) >= 0.0)
    && (budget > 0.0 ==> a.spend.usd <= budget + Sum(Current(a), true))
    && Sum(Current(a), true) >= 0.0
  }

  /** A reservation is admitted exactly when the month's spend has room for it, and a month begins
      with nothing spent. */
  lemma TakeBalances(a: Account, est: real, month: int, budget: real)
    requires Balanced(a, budget) && est >= 0.0
    ensures var b := BudgetStep(a, Take(est, month), budget);
            var before := if month == a.month then Current(a) else [];
            && Balanced(b, budget)
            && Current(b) == (if budget <= 0.0 || Sum(before, false) + est <= budget then before + [Held(est, false, 0.0)] else before)
  {
    hide Sum;
    var h, b := Held(est, false, 0.0), BudgetStep(a, Take(est, month), budget);
    var before := if month == a.month then Current(a) else [];
    NoSum();
    SumAppend(before, h, false);
    SumAppend(before, h, true);
    assert Current(b) == (if Reserved(a.spend, budget, est, month).1 then before + [h] else before);
  }

  lemma NoSum()
    ensures Sum([], false) == 0.0 == Sum([], true)
  {
  }

  lemma PayBalances(a: Account, i: nat, actual: real, budget: real)
    requires Balanced(a, budget) && actual >= 0.0
    ensures if Misbooks(a, Pay(i, actual)) then !Exact(BudgetStep(a, Pay(i, actual), budget))
            else Balanced(BudgetStep(a, Pay(i, actual), budget), budget)
  {
    hide Sum;
    var b := BudgetStep(a, Pay(i, actual), budget);
    if i < a.base || i >= |a.held| {
      assert Current(b) == Current(a);
    } else if !a.held[i].settled {
      var h, cur := a.held[i].(settled := true, actual := actual), Current(a);
      assert Current(b) == cur[i - a.base := h] && cur[i - a.base] == a.held[i];
      SumCovers(cur, i - a.base);
      SumUpdate(cur, i - a.base, h, false);
      SumUpdate(cur, i - a.base, h, true);
    }
  }

  /** The spend is exact at every point of the run. */
  predicate AlwaysExact(ops: seq<BudgetOp>, budget: real, month: int) {
    Exact(BudgetRun(ops, budget, month)) && (ops != [] ==> AlwaysExact(ops[..|ops| - 1], budget, month))
  }

  predicate NeverMisbooks(ops: seq<BudgetOp>, budget: real, month: int) {
    ops != [] ==>
      NeverMisbooks(ops[..|ops| - 1], budget, month) && !Misbooks(BudgetRun(ops[..|ops| - 1], budget, month), ops[|ops| - 1])
  }

  /** A client's spend is exactly the settled actuals plus the live estimates of the month, and it
      exceeds the budget by no more than settles went above their estimates, as long as no second
      or late settle of a reservation moves it. */
  lemma {:induction false} BudgetHolds(ops: seq<BudgetOp>, budget: real, month: int)
    requires NonNegativeOps(ops) && NeverMisbooks(ops, budget, month)
    ensures Balanced(BudgetRun(ops, budget, month), budget)
  {
    if ops == [] {
      NothingSpent(budget, month);
      NoSum();
    } else {
      hide Balanced, BudgetStep, Misbooks;
      var a, op := BudgetRun(ops[..|ops| - 1], budget, month), ops[|ops| - 1];
      BudgetHolds(ops[..|ops| - 1], budget, month);
      match op
      case Take(est, m) => TakeBalances(a, est, m, budget);
      case Pay(i, actual) => PayBalances(a, i, actual, budget);
    }
  }

  /** The spend is exact throughout if and only if no settle of a reservation that is already settled
      or of an earlier month moves it. */
  lemma {:induction false} SpendExactIff(ops: seq<BudgetOp>, budget: real, month: int)
    requires NonNegativeOps(ops)
    ensures AlwaysExact(ops, budget, month) <==> NeverMisbooks(ops, budget, month)
  {
    hide Balanced, BudgetStep, Misbooks, Exact;
    if ops == [] {
      NothingSpent(budget, month);
    } else {
      var pre, op := ops[..|ops| - 1], ops[|ops| - 1];
      var a := BudgetRun(pre, budget, month);
      SpendExactIff(pre, budget, month);
      if NeverMisbooks(pre, budget, month) {
        BudgetHolds(pre, budget, month);
        match op
        case Take(est, m) => TakeStaysExact(a, est, m, budget);
        case Pay(i, actual) =>
          PayBalances(a, i, actual, budget);
          if !Misbooks(a, op) {
            BudgetHolds(ops, budget, month);
            BalancedIsExact(BudgetRun(ops, budget, month), budget);
          }
      }
    }
  }

  lemma NothingSpent(budget: real, month: int)
    ensures BudgetRun([], budget, month) == Account(Spend(month, 0.0), [], 0, month) && Exact(BudgetRun([], budget, month))
  {
  }

  lemma BalancedIsExact(a: Account, budget: real)
    requires Balanced(a, budget)
    ensures Exact(a)
  {
  }

  lemma TakeStaysExact(a: Account, est: real, month: int, budget: real)
    requires Balanced(a, budget) && est >= 0.0
    ensures Exact(BudgetStep(a, Take(est, month), budget)) && !Misbooks(a, Take(est, month))
  {
    TakeBalances(a, est, month, budget);
  }

  lemma ThreeSteps(x: BudgetOp, y: BudgetOp, z: BudgetOp, budget: real, month: int)
    ensures BudgetRun([x, y, z], budget, month)
            == BudgetStep(BudgetStep(BudgetStep(Account(Spend(month, 0.0), [], 0, month), x, budget), y, budget), z, budget)
  {
    hide BudgetStep;
    NothingSpent(budget, month);
    assert [x][..0] == [] && [x, y][..1] == [x] && [x, y, z][..2] == [x, y];
    assert BudgetRun([x], budget, month) == BudgetStep(BudgetRun([], budget, month), x, budget);
    assert BudgetRun([x, y], budget, month) == BudgetStep(BudgetRun([x], budget, month), y, budget);
  }

  /** A reservation settled at first and then at again, a run of three calls: the second settle is
      booked on top of the first. */
  lemma SecondSettleIsBooked(est: real, first: real, again: real, budget: real, month: int)
    requires est >= 0.0 && first >= 0.0 && again >= 0.0 && (budget > 0.0 ==> est <= budget)
    ensures var a := BudgetRun([Take(est, month), Pay(0, first), Pay(0, again)], budget, month);
            && Current(a) == [Held(est, true, first)]
            && a.spend.usd == (if first + again < est then 0.0 else first + (again - est))
            && (Exact(a) <==> again == est || (first == 0.0 && again < est))
  {
    hide BudgetRun, Sum;
    ThreeSteps(Take(est, month), Pay(0, first), Pay(0, again), budget, month);
    NoSum();
    SumAppend([], Held(est, true, first), false);
    assert [] + [Held(est, true, first)] == [Held(est, true, first)];
  }

  /** A reservation taken in one month and settled in the next, a run of three calls: the difference
      from its estimate is booked on the new month, which never held that estimate. */
  lemma LateSettleIsBooked(est: real, other: real, actual: real, budget: real, month: int, next: int)
    requires month != next && est >= 0.0 && other >= 0.0 && actual >= 0.0
    requires budget > 0.0 ==> est <= budget && other <= budget
    ensures var a := BudgetRun([Take(est, month), Take(other, next), Pay(0, actual)], budget, month);
            && Current(a) == [Held(other, false, 0.0)]
            && a.spend.usd == (if other + actual < est then 0.0 else other + (actual - est))
            && (Exact(a) <==> actual == est || (other == 0.0 && actual < est))
  {
    hide BudgetRun, Sum;
    ThreeSteps(Take(est, month), Take(other, next), Pay(0, actual), budget, month);
    NoSum();
    SumAppend([], Held(other, false, 0.0), false);
    assert [] + [Held(other, false, 0.0)] == [Held(other, false, 0.0)];
  }

  /** No reservation is settled twice. */
  ghost predicate PaidOnce(ops: seq<BudgetOp>) {
    forall m, n :: 0 <= m < n < |ops| && ops[m].Pay? && ops[n].Pay? ==> ops[m].i != ops[n].i
  }

  /** The month does not change. */
  ghost predicate WithinMonth(ops: seq<BudgetOp>, month: int) {
    forall m :: 0 <= m < |ops| && ops[m].Take? ==> ops[m].month == month
  }

  lemma {:induction false} SettledWasPaid(ops: seq<BudgetOp>, budget: real, month: int, i: nat)
    requires var a := BudgetRun(ops, budget, month); i < |a.held| && a.held[i].settled
    ensures exists m :: 0 <= m < |ops| && ops[m].Pay? && ops[m].i == i
  {
    hide Reserved, Settled;
    var pre, op := ops[..|ops| - 1], ops[|ops| - 1];
    var a := BudgetRun(pre, budget, month);
    if i < |a.held| && a.held[i].settled {
      SettledWasPaid(pre, budget, month, i);
      var m :| 0 <= m < |pre| && pre[m].Pay? && pre[m].i == i;
      assert ops[m] == pre[m];
    } else {
      assert op == ops[|ops| - 1] && op.Pay? && op.i == i;
    }
  }

  lemma {:induction false} AllCurrent(ops: seq<BudgetOp>, budget: real, month: int)
    requires WithinMonth(ops, month)
    ensures var a := BudgetRun(ops, budget, month); a.base == 0 && a.month == month
  {
    if ops != [] {
      AllCurrent(ops[..|ops| - 1], budget, month);
    }
  }

  /** Settling each reservation at most once, as the dispatch loop does, and in its own month never
      books anything astray. */
  lemma {:induction false} PaidOnceNeverMisbooks(ops: seq<BudgetOp>, budget: real, month: int)
    requires PaidOnce(ops) && WithinMonth(ops, month)
    ensures NeverMisbooks(ops, budget, month)
  {
    if ops != [] {
      var pre, op := ops[..|ops| - 1], ops[|ops| - 1];
      PaidOnceNeverMisbooks(pre, budget, month);
      AllCurrent(pre, budget, month);
      if Misbooks(BudgetRun(pre, budget, month), op) {
        SettledWasPaid(pre, budget, month, op.i);
      }
    }
  }
}
