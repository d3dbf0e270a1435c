/** What settles and releases leave in the shared store, however often they are applied and
    whichever of their calls are lost. */
module GuardEffect {
  import opened WindowLog
  import opened SharedSpec
  import opened SharedMode
  import opened SameMinute
  import opened Guard
  import opened Keys
  import V = VelocityBound
  import F = FirewallSpec

  /** The seconds from lo to hi. */
  datatype Span = Span(lo: int, hi: int) {
    predicate Has(sec: int) {
      lo <= sec <= hi
    }

    /** What was booked in a log in these seconds. */
    function Booked(log: Log): real {
      Signed(log, lo, hi)
    }
  }

  lemma BookedAppended(log: Log, here: bool, sec: int, delta: real, sp: Span)
    ensures sp.Booked(Appended(log, here, sec, delta)) == sp.Booked(log) + if here && sp.Has(sec) then delta else 0.0
  {
    SignedAppend(log, Entry(sec, delta), sp.lo, sp.hi);
  }

  // ---- what a reservation counts for ---------------------------------------------------------------------

  /** What one application adds to the windows of its reservation. */
  function Move(r: Reservation, a: Done, d: Dim): real {
    match a.go.action
    case SettleTo(usd, tok) => if a.first.LostBefore? then 0.0 else V.Amount(Floor0(usd) - r.usd, ClampTok(tok) - r.tok, d)
    case GiveBack => if a.first.NoFault? && !a.second.LostBefore? then V.Amount(-r.usd, -r.tok, d) else 0.0
  }

  /** Whether an application gives the hold back. */
  predicate Frees(a: Done) {
    match a.go.action
    case SettleTo(_, _) => !a.second.LostBefore?
    case GiveBack => !a.first.LostBefore?
  }

  function Moves(ap: seq<Done>, r: Reservation, n: nat, d: Dim, sp: Span): real {
    if ap == [] then 0.0
    else
      var a := ap[|ap| - 1];
      Moves(ap[..|ap| - 1], r, n, d, sp) + if a.go.nonce == n && sp.Has(a.at) then Move(r, a, d) else 0.0
  }

  /** An estimate held and all that was applied to it, as far as booked in the span. */
  function Net(t: Token, ap: seq<Done>, n: nat, d: Dim, lease: nat, sp: Span): real {
    (if sp.Has(t.exp - lease) then V.Amount(t.r.usd, t.r.tok, d) else 0.0) + Moves(ap, t.r, n, d, sp)
  }

  /** Over the first n tokens, what the reservations naming k count for in the span. */
  function SumNet(tokens: seq<Token>, ap: seq<Done>, n: nat, k: string, d: Dim, lease: nat, sp: Span): real
    requires n <= |tokens|
  {
    if n == 0 then 0.0
    else
      var t := tokens[n - 1];
      SumNet(tokens, ap, n - 1, k, d, lease, sp) + if k in t.r.storeKeys then Net(t, ap, n - 1, d, lease, sp) else 0.0
  }

  ghost predicate Freed(ap: seq<Done>, n: nat) {
    exists i :: 0 <= i < |ap| && ap[i].go.nonce == n && Frees(ap[i])
  }

  lemma MovesAppend(ap: seq<Done>, a: Done, r: Reservation, n: nat, d: Dim, sp: Span)
    ensures Moves(ap + [a], r, n, d, sp) == Moves(ap, r, n, d, sp) + if a.go.nonce == n && sp.Has(a.at) then Move(r, a, d) else 0.0
  {
    assert (ap + [a])[..|ap|] == ap;
  }

  lemma FreedAppend(ap: seq<Done>, a: Done, n: nat)
    ensures Freed(ap + [a], n) <==> Freed(ap, n) || (a.go.nonce == n && Frees(a))
  {
    var after := ap + [a];
    assert after[|ap|] == a && forall i :: 0 <= i < |ap| ==> after[i] == ap[i];
  }

  lemma {:induction false} SumNetApplied(tokens: seq<Token>, ap: seq<Done>, a: Done, n: nat, k: string, d: Dim, lease: nat, sp: Span)
    requires n <= |tokens| && a.go.nonce < |tokens|
    ensures var r := tokens[a.go.nonce].r;
            SumNet(tokens, ap + [a], n, k, d, lease, sp) == SumNet(tokens, ap, n, k, d, lease, sp) +
            if a.go.nonce < n && k in r.storeKeys && sp.Has(a.at) then Move(r, a, d) else 0.0
  {
    if n > 0 {
      hide Move, Moves;
      SumNetApplied(tokens, ap, a, n - 1, k, d, lease, sp);
      MovesAppend(ap, a, tokens[n - 1].r, n - 1, d, sp);
    }
  }

  lemma {:induction false} SumNetIssued(tokens: seq<Token>, t: Token, ap: seq<Done>, n: nat, k: string, d: Dim, lease: nat, sp: Span)
    requires n <= |tokens|
    ensures SumNet(tokens + [t], ap, n, k, d, lease, sp) == SumNet(tokens, ap, n, k, d, lease, sp)
  {
    if n > 0 {
      SumNetIssued(tokens, t, ap, n - 1, k, d, lease, sp);
    }
  }

  lemma {:induction false} NeverApplied(ap: seq<Done>, r: Reservation, n: nat, d: Dim, sp: Span)
    requires forall i :: 0 <= i < |ap| ==> ap[i].go.nonce != n
    ensures Moves(ap, r, n, d, sp) == 0.0
  {
    if ap != [] {
      NeverApplied(ap[..|ap| - 1], r, n, d, sp);
    }
  }

  // ---- one application ---------------------------------------------------------------------------------------

  lemma MovedBy(s: Shared, r: Reservation, dU: real, dT: int, now: int, k: string, d: Dim, sp: Span)
    requires Distinct(r.storeKeys)
    ensures sp.Booked(LogAt(Adjust(s, r.storeKeys, dU, dT, now), d, k)) ==
            sp.Booked(LogAt(s, d, k)) + if k in r.storeKeys && sp.Has(now) then V.Amount(dU, dT, d) else 0.0
    ensures HoldsAt(Adjust(s, r.storeKeys, dU, dT, now), k) == HoldsAt(s, k)
  {
    AdjustAppends(s, r.storeKeys, dU, dT, now, k, d);
    AdjustKeepsHolds(s, r.storeKeys, dU, dT, now);
    BookedAppended(LogAt(s, d, k), k in r.storeKeys && V.Amount(dU, dT, d) != 0.0, now, V.Amount(dU, dT, d), sp);
  }

  lemma FreedBy(s: Shared, r: Reservation, k: string, d: Dim)
    ensures LogAt(FreeHolds(s, r.storeKeys, r.hold), d, k) == LogAt(s, d, k)
    ensures HoldsAt(FreeHolds(s, r.storeKeys, r.hold), k) == if k in r.storeKeys then HoldsAt(s, k) - {r.hold} else HoldsAt(s, k)
  {
    FreeHoldsKeepsLogs(s, r.storeKeys, r.hold);
    FreeHoldsLeavesOthers(s, r.storeKeys, r.hold, k);
  }

  /** One application moves each window of the reservation from the estimate to the actual, or to
      nothing, and gives the hold back, unless the call that does so is lost on its way. */
  lemma ReconcileMoves(s: Shared, r: Reservation, a: Done, k: string, d: Dim, sp: Span)
    requires Distinct(r.storeKeys)
    ensures var s' := Reconcile(s, r, a.go.action, a.at, a.first, a.second);
            && sp.Booked(LogAt(s', d, k)) == sp.Booked(LogAt(s, d, k)) + (if k in r.storeKeys && sp.Has(a.at) then Move(r, a, d) else 0.0)
            && HoldsAt(s', k) == if k in r.storeKeys && Frees(a) then HoldsAt(s, k) - {r.hold} else HoldsAt(s, k)
  {
    hide Adjust, FreeHolds, Span.Booked;
    match a.go.action
    case SettleTo(usd, tok) =>
      var dU, dT := Floor0(usd) - r.usd, ClampTok(tok) - r.tok;
      MovedBy(s, r, dU, dT, a.at, k, d, sp);
      FreedBy(Carried(s, Adjust(s, r.storeKeys, dU, dT, a.at), a.first), r, k, d);
    case GiveBack =>
      FreedBy(s, r, k, d);
      MovedBy(FreeHolds(s, r.storeKeys, r.hold), r, -r.usd, -r.tok, a.at, k, d, sp);
  }

  // ---- the invariant ------------------------------------------------------------------------------------------

  /** A chain names a key once, and whenever it names k it caps k in dimension d. */
  ghost predicate CapsHold(e: Event, k: string, d: Dim) {
    e.Hold? ==> DistinctCaps(e.caps) && forall c :: c in e.caps && c.key == k ==> CapIn(c, d) > 0.0
  }

  /** Holds in the store belong to reservations that no application has freed. */
  ghost predicate HoldsOpen(s: GSys, k: string) {
    forall n: nat {:trigger HoldID(n)} :: HoldID(n) in HoldsAt(s.shared, k) ==>
      n < |s.tokens| && k in s.tokens[n].r.storeKeys && !Freed(s.applied, n)
  }

  ghost predicate TokensOK(s: GSys, lease: nat) {
    && (forall n {:trigger s.tokens[n]} :: 0 <= n < |s.tokens| ==>
          s.tokens[n].r.hold == HoldID(n) && Distinct(s.tokens[n].r.storeKeys) && 0 <= s.tokens[n].exp - lease <= s.clock)
    && (forall i {:trigger s.applied[i]} :: 0 <= i < |s.applied| ==> s.applied[i].go.nonce < |s.tokens| && 0 <= s.applied[i].at <= s.clock)
  }

  ghost predicate Balanced(s: GSys, k: string, d: Dim, lease: nat, sp: Span) {
    sp.Booked(LogAt(s.shared, d, k)) == SumNet(s.tokens, s.applied, |s.tokens|, k, d, lease, sp)
  }

  ghost predicate EffectInv(s: GSys, k: string, d: Dim, lease: nat, sp: Span) {
    TokensOK(s, lease) && HoldsOpen(s, k) && Balanced(s, k, d, lease, sp)
  }

  lemma CapsNamed(caps: seq<Cap>, k: string, d: Dim)
    requires forall c :: c in caps && c.key == k ==> CapIn(c, d) > 0.0
    ensures Bounds(caps, k, d) <==> k in CapKeys(caps)
  {
    if k in CapKeys(caps) {
      var i :| 0 <= i < |caps| && CapKeys(caps)[i] == k;
      assert caps[i] in caps;
    }
    if Bounds(caps, k, d) {
      var c :| c in caps && c.key == k;
      var i :| 0 <= i < |caps| && caps[i] == c;
      assert CapKeys(caps)[i] == k;
    }
  }

  ghost predicate Admits(s: GSys, e: Event, ttl: int)
    requires e.Hold?
  {
    Reserve(s.shared, e.caps, Floor0(e.usd), e.tok, HoldID(|s.tokens|), s.clock, ttl).1 == Reserved
  }

  lemma HeldBalances(s: GSys, e: Event, lease: nat, ttl: int, k: string, d: Dim, sp: Span)
    requires EffectInv(s, k, d, lease, sp) && e.Hold? && CapsHold(e, k, d) && Admits(s, e, ttl)
    ensures Balanced(DoHold(s, e, lease, ttl), k, d, lease, sp)
  {
    hide HoldsOpen, SharedSpec.ReserveAll, CheckAll, Span.Booked, Bounds;
    var n, id, usd := |s.tokens|, HoldID(|s.tokens|), Floor0(e.usd);
    var s' := DoHold(s, e, lease, ttl);
    StoreReserveAppends(s.shared, e.caps, usd, e.tok, id, s.clock, ttl, k, d);
    CapsNamed(e.caps, k, d);
    BookedAppended(LogAt(s.shared, d, k), Bounds(e.caps, k, d), s.clock, V.Amount(usd, e.tok, d), sp);
    SumNetIssued(s.tokens, s'.tokens[n], s.applied, n, k, d, lease, sp);
    NeverApplied(s.applied, s'.tokens[n].r, n, d, sp);
    assert s'.tokens == s.tokens + [s'.tokens[n]];
  }

  lemma HeldHoldsOpen(s: GSys, e: Event, lease: nat, ttl: int, k: string, d: Dim, sp: Span)
    requires EffectInv(s, k, d, lease, sp) && e.Hold? && CapsHold(e, k, d) && Admits(s, e, ttl)
    ensures HoldsOpen(DoHold(s, e, lease, ttl), k)
  {
    hide Balanced;
    var n, id := |s.tokens|, HoldID(|s.tokens|);
    var s' := DoHold(s, e, lease, ttl);
    ReserveAllHolds(s.shared, e.caps, Floor0(e.usd), e.tok, id, s.clock, ttl, k);
    forall m: nat {:trigger HoldID(m)} | HoldID(m) in HoldsAt(s'.shared, k)
      ensures m < |s'.tokens| && k in s'.tokens[m].r.storeKeys && !Freed(s'.applied, m)
    {
      if HoldID(m) == id {
        ItoaInjective(m, n);
      }
    }
  }

  lemma HoldKeepsEffect(s: GSys, e: Event, lease: nat, ttl: int, k: string, d: Dim, sp: Span)
    requires EffectInv(s, k, d, lease, sp) && e.Hold? && CapsHold(e, k, d)
    ensures EffectInv(DoHold(s, e, lease, ttl), k, d, lease, sp)
  {
    if Admits(s, e, ttl) {
      HeldBalances(s, e, lease, ttl, k, d, sp);
      HeldHoldsOpen(s, e, lease, ttl, k, d, sp);
      hide HoldsOpen, Balanced, Reserve;
    }
  }

  lemma ApplyKeepsEffect(s: GSys, i: nat, first: Fault, second: Fault, k: string, d: Dim, lease: nat, sp: Span)
    requires EffectInv(s, k, d, lease, sp) && i < |s.going| && s.going[i].nonce < |s.tokens|
    ensures EffectInv(DoApply(s, i, first, second), k, d, lease, sp)
  {
    hide Reconcile, Move, Frees, Freed, SumNet, Span.Booked;
    var r, a := s.tokens[s.going[i].nonce].r, Done(s.going[i], first, second, s.clock);
    var s' := DoApply(s, i, first, second);
    ReconcileMoves(s.shared, r, a, k, d, sp);
    SumNetApplied(s.tokens, s.applied, a, |s.tokens|, k, d, lease, sp);
    forall n: nat {:trigger HoldID(n)} | HoldID(n) in HoldsAt(s'.shared, k)
      ensures n < |s'.tokens| && k in s'.tokens[n].r.storeKeys && !Freed(s'.applied, n)
    {
      FreedAppend(s.applied, a, n);
    }
  }

  ghost predicate AllCapped(es: seq<Event>, k: string, d: Dim) {
    forall i :: 0 <= i < |es| ==> CapsHold(es[i], k, d)
  }

  /** In every run, with every claim and store call failing at will and reservations applied any
      number of times: what was booked on a scope in any span of seconds is exactly the estimates
      held in it and what each application in it moved, and no reservation that was given back
      holds a slot. */
  lemma {:induction false} EveryApplicationCounts(es: seq<Event>, lease: nat, ttl: int, k: string, d: Dim, sp: Span)
    requires AllCapped(es, k, d)
    ensures EffectInv(Run(es, lease, ttl), k, d, lease, sp)
  {
    if es != [] {
      hide EffectInv, DoHold, DoApply;
      var s, e := Run(es[..|es| - 1], lease, ttl), es[|es| - 1];
      EveryApplicationCounts(es[..|es| - 1], lease, ttl, k, d, sp);
      match e
      case Hold(_, _, _) => HoldKeepsEffect(s, e, lease, ttl, k, d, sp);
      case Apply(i, first, second) =>
        if i < |s.going| && s.going[i].nonce < |s.tokens| {
          ApplyKeepsEffect(s, i, first, second, k, d, lease, sp);
        }
      case Verify(_, _) => OtherKeepsEffect(s, e, lease, ttl, k, d, sp);
      case Claim(_, _) => OtherKeepsEffect(s, e, lease, ttl, k, d, sp);
      case Tick(_) => OtherKeepsEffect(s, e, lease, ttl, k, d, sp);
    } else {
      assert Run(es, lease, ttl) == GStart;
    }
  }

  lemma OtherKeepsEffect(s: GSys, e: Event, lease: nat, ttl: int, k: string, d: Dim, sp: Span)
    requires EffectInv(s, k, d, lease, sp) && !e.Hold? && !e.Apply?
    ensures EffectInv(Step(s, e, lease, ttl), k, d, lease, sp)
  {
    hide SumNet, Freed, Span.Booked;
  }

  /** So the store reads at least the estimates held in the last minute and what the applications of
      that minute moved. */
  lemma ReadsAtLeastBooked(es: seq<Event>, lease: nat, ttl: int, k: string, d: Dim)
    requires AllCapped(es, k, d)
    ensures var s := Run(es, lease, ttl);
            SumNet(s.tokens, s.applied, |s.tokens|, k, d, lease, Span(s.clock - 59, s.clock)) <= Used(s.shared, d, k, s.clock)
  {
    hide Run, SumNet, Total, Signed, HoldsOpen;
    var s := Run(es, lease, ttl);
    EveryApplicationCounts(es, lease, ttl, k, d, Span(s.clock - WINDOW + 1, s.clock));
    TotalBounds(LogAt(s.shared, d, k), s.clock - WINDOW + 1, WINDOW);
  }

  // ---- applied at most once ---------------------------------------------------------------------------------

  /** The first action applied to a nonce. */
  function Fate(ap: seq<Done>, n: nat): F.Option<Action> {
    if ap == [] then F.None
    else
      var before := Fate(ap[..|ap| - 1], n);
      if before.Some? then before else if ap[|ap| - 1].go.nonce == n then F.Some(ap[|ap| - 1].go.action) else F.None
  }

  function Owed(r: Reservation, fate: F.Option<Action>, d: Dim): real {
    match fate
    case None => V.Amount(r.usd, r.tok, d)
    case Some(SettleTo(usd, tok)) => V.Amount(Floor0(usd), ClampTok(tok), d)
    case Some(GiveBack) => 0.0
  }

  ghost predicate CallsThrough(ap: seq<Done>) {
    forall i :: 0 <= i < |ap| ==> ap[i].first.NoFault? && ap[i].second.NoFault?
  }

  /** Applied at most once, a reservation counts its estimate while it is open, and then its actual
      usage or nothing. */
  lemma {:induction false} NetIsOwed(t: Token, ap: seq<Done>, n: nat, d: Dim, lease: nat, sp: Span)
    requires CallsThrough(ap) && TimesApplied(ap, n) <= 1
    requires sp.Has(t.exp - lease) && forall i :: 0 <= i < |ap| ==> sp.Has(ap[i].at)
    ensures Net(t, ap, n, d, lease, sp) == Owed(t.r, Fate(ap, n), d)
    ensures TimesApplied(ap, n) == 0 <==> Fate(ap, n).None?
  {
    if ap != [] {
      NetIsOwed(t, ap[..|ap| - 1], n, d, lease, sp);
    }
  }

  /** Over the first n tokens, what the reservations naming k should count for. */
  function SumOwed(tokens: seq<Token>, ap: seq<Done>, n: nat, k: string, d: Dim): real
    requires n <= |tokens|
  {
    if n == 0 then 0.0
    else
      var r := tokens[n - 1].r;
      SumOwed(tokens, ap, n - 1, k, d) + if k in r.storeKeys then Owed(r, Fate(ap, n - 1), d) else 0.0
  }

  lemma {:induction false} SumNetIsOwed(tokens: seq<Token>, ap: seq<Done>, n: nat, k: string, d: Dim, lease: nat, sp: Span)
    requires n <= |tokens| && CallsThrough(ap) && forall m: nat :: TimesApplied(ap, m) <= 1
    requires forall i :: 0 <= i < n ==> sp.Has(tokens[i].exp - lease)
    requires forall i :: 0 <= i < |ap| ==> sp.Has(ap[i].at)
    ensures SumNet(tokens, ap, n, k, d, lease, sp) == SumOwed(tokens, ap, n, k, d)
  {
    if n > 0 {
      SumNetIsOwed(tokens, ap, n - 1, k, d, lease, sp);
      NetIsOwed(tokens[n - 1], ap, n - 1, d, lease, sp);
    }
  }

  ghost predicate StoreUp(es: seq<Event>) {
    forall i :: 0 <= i < |es| && es[i].Apply? ==> es[i].first.NoFault? && es[i].second.NoFault?
  }

  lemma {:induction false} StoreUpCallsThrough(es: seq<Event>, lease: nat, ttl: int)
    requires StoreUp(es)
    ensures CallsThrough(Run(es, lease, ttl).applied)
  {
    if es != [] {
      hide Reserve, Reconcile;
      StoreUpCallsThrough(es[..|es| - 1], lease, ttl);
    }
  }

  /** However often tokens are replayed, and on whichever replicas, what was booked on a scope so far
      sums to the estimates of the open reservations and the actuals of the settled ones, and no
      reconciled reservation holds a slot, unless some reservation is claimed a lease or more
      after a claim of it was won. */
  lemma ReplaysCountOnce(es: seq<Event>, lease: nat, ttl: int, k: string, d: Dim, n: nat)
    requires ClaimStoreUp(es) && StoreUp(es) && AllCapped(es, k, d)
    requires forall m: nat :: !LateClaim(es, m, lease, ttl)
    ensures var s := Run(es, lease, ttl);
            && Span(0, s.clock).Booked(LogAt(s.shared, d, k)) == SumOwed(s.tokens, s.applied, |s.tokens|, k, d)
            && (Fate(s.applied, n).Some? ==> HoldID(n) !in HoldsAt(s.shared, k))
  {
    var s := Run(es, lease, ttl);
    EveryApplicationCounts(es, lease, ttl, k, d, Span(0, s.clock));
    StoreUpCallsThrough(es, lease, ttl);
    forall m: nat
      ensures TimesApplied(s.applied, m) <= 1
    {
      AppliedAtMostOnce(es, lease, ttl, m);
      RecordsStayExact(es, lease, ttl);
      AllChecked(s.granted, m);
    }
    SumNetIsOwed(s.tokens, s.applied, |s.tokens|, k, d, lease, Span(0, s.clock));
    if Fate(s.applied, n).Some? {
      FateFrees(s.applied, n);
    }
  }

  lemma {:induction false} FateFrees(ap: seq<Done>, n: nat)
    requires CallsThrough(ap) && Fate(ap, n).Some?
    ensures Freed(ap, n)
  {
    var k := |ap| - 1;
    if Fate(ap[..k], n).Some? {
      FateFrees(ap[..k], n);
    } else {
      assert ap[k].go.nonce == n && Frees(ap[k]);
    }
  }
}
