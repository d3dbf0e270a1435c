/** The decision API: a reservation travels as a token that any replica can settle or release,
    any number of times. Checking the token, claiming its nonce and applying it to the shared
    store are separate steps of concurrent handlers, and every call to the store may fail. */
module Guard {
  import opened WindowLog
  import opened SharedSpec
  import opened SharedMode

  /** What a token carries of a reservation held in the shared store. */
  datatype Reservation = Reservation(storeKeys: seq<string>, hold: string, usd: real, tok: int)

  /** An unforgeable token. Its nonce is its place among the tokens issued. */
  datatype Token = Token(exp: int, r: Reservation)

  datatype Action = SettleTo(usd: real, tok: int) | GiveBack

  /** A handler that found its token genuine and unexpired, and has not yet claimed it. */
  datatype Handler = Handler(nonce: nat, action: Action)

  /** A handler told to go ahead at second at; claimed is false when the claim store failed and the
      handler goes ahead regardless. */
  datatype Go = Go(nonce: nat, action: Action, at: int, claimed: bool)

  /** An action applied at second at, and how its two store calls ended. */
  datatype Done = Done(go: Go, first: Fault, second: Fault, at: int)

  /** claims maps a nonce to the second its claim expires at. going holds the handlers that have not
      yet applied their action; granted and applied are history. */
  datatype GSys = GSys(shared: Shared, tokens: seq<Token>, claims: map<nat, int>, pending: seq<Handler>,
                       going: seq<Go>, granted: seq<Go>, applied: seq<Done>, clock: nat)

  /** Applying an action makes two store calls; first and second say how they end. */
  datatype Event =
    | Hold(caps: seq<Cap>, usd: real, tok: nat)
    | Verify(nonce: nat, action: Action)
    | Claim(h: nat, fault: Fault)
    | Apply(g: nat, first: Fault, second: Fault)
    | Tick(secs: nat)

  const GStart := GSys(EmptyShared, [], map[], [], [], [], [], 0)

  /** The lease, in whole seconds. */
  function Lease(requestTimeout: nat): nat {
    requestTimeout + 60
  }

  function Carried(before: Shared, after: Shared, fault: Fault): Shared {
    if fault.LostBefore? then before else after
  }

  /** A settle moves the estimate to the actual usage and then frees the hold, whether or not the
      first call went through; a release frees the hold and, only if that call succeeded, takes the
      estimate back. A negative actual counts as zero. */
  function Reconcile(s: Shared, r: Reservation, a: Action, now: int, first: Fault, second: Fault): Shared {
    match a
    case SettleTo(usd, tok) =>
      var s1 := Carried(s, Adjust(s, r.storeKeys, Floor0(usd) - r.usd, ClampTok(tok) - r.tok, now), first);
      Carried(s1, FreeHolds(s1, r.storeKeys, r.hold), second)
    case GiveBack =>
      var s1 := Carried(s, FreeHolds(s, r.storeKeys, r.hold), first);
      if !first.NoFault? then s1 else Carried(s1, Adjust(s1, r.storeKeys, -r.usd, -r.tok, now), second)
  }

  /** SET NX: a claim succeeds when none is recorded or the recorded one has expired. */
  predicate Free(s: GSys, nonce: nat) {
    nonce in s.claims ==> s.claims[nonce] <= s.clock
  }

  function Record(s: GSys, nonce: nat, lease: nat): map<nat, int> {
    if Free(s, nonce) then s.claims[nonce := s.clock + lease] else s.claims
  }

  function Grant(s: GSys, h: Handler, claimed: bool): GSys {
    var g := Go(h.nonce, h.action, s.clock, claimed);
    s.(going := s.going + [g], granted := s.granted + [g])
  }

  function DoHold(s: GSys, e: Event, lease: nat, ttl: int): GSys
    requires e.Hold?
  {
    var id := HoldID(|s.tokens|);
    var (sh, a) := Reserve(s.shared, e.caps, Floor0(e.usd), e.tok, id, s.clock, ttl);
    if a == Reserved
    then s.(shared := sh, tokens := s.tokens + [Token(s.clock + lease, Reservation(CapKeys(e.caps), id, Floor0(e.usd), e.tok))])
    else s.(shared := sh)
  }

  function DoClaim(s: GSys, i: nat, fault: Fault, lease: nat): GSys
    requires i < |s.pending|
  {
    var h := s.pending[i];
    var s' := s.(pending := s.pending[..i] + s.pending[i + 1..]);
    match fault
    case LostBefore => Grant(s', h, false)
    case LostAfter => Grant(s'.(claims := Record(s, h.nonce, lease)), h, false)
    case NoFault =>
      if Free(s, h.nonce) then Grant(s'.(claims := Record(s, h.nonce, lease)), h, true) else s'
  }

  function DoApply(s: GSys, i: nat, first: Fault, second: Fault): GSys
    requires i < |s.going| && s.going[i].nonce < |s.tokens|
  {
    var g := s.going[i];
    s.(shared := Reconcile(s.shared, s.tokens[g.nonce].r, g.action, s.clock, first, second),
       going := s.going[..i] + s.going[i + 1..], applied := s.applied + [Done(g, first, second, s.clock)])
  }

  function Step(s: GSys, e: Event, lease: nat, ttl: int): GSys {
    match e
    case Hold(_, _, _) => DoHold(s, e, lease, ttl)
    case Verify(nonce, action) =>
      if nonce < |s.tokens| && s.clock < s.tokens[nonce].exp then s.(pending := s.pending + [Handler(nonce, action)]) else s
    case Claim(i, fault) => if i < |s.pending| then DoClaim(s, i, fault, lease) else s
    case Apply(i, first, second) =>
      if i < |s.going| && s.going[i].nonce < |s.tokens| then DoApply(s, i, first, second) else s
    case Tick(secs) => s.(clock := s.clock + secs)
  }

  function Run(es: seq<Event>, lease: nat, ttl: int): GSys {
    if es == [] then GStart else Step(Run(es[..|es| - 1], lease, ttl), es[|es| - 1], lease, ttl)
  }

  lemma RunThen(es: seq<Event>, e: Event, lease: nat, ttl: int)
    ensures Run(es + [e], lease, ttl) == Step(Run(es, lease, ttl), e, lease, ttl)
  {
    assert (es + [e])[..|es|] == es;
  }

  // ---- claims of one nonce --------------------------------------------------------------------------------

  /** Every claim that was won is still recorded, for at least the lease. */
  ghost predicate ClaimsRecorded(s: GSys, lease: nat) {
    forall i {:trigger s.granted[i]} :: 0 <= i < |s.granted| && s.granted[i].claimed ==>
      s.granted[i].nonce in s.claims && s.granted[i].at + lease <= s.claims[s.granted[i].nonce]
  }

  ghost predicate HandlersKnown(s: GSys) {
    && (forall i {:trigger s.pending[i]} :: 0 <= i < |s.pending| ==> s.pending[i].nonce < |s.tokens|)
    && (forall i {:trigger s.going[i]} :: 0 <= i < |s.going| ==> s.going[i].nonce < |s.tokens|)
  }

  /** A token was issued no later than it was claimed, so its lease ends no later than the claim. */
  ghost predicate InTime(s: GSys, lease: nat) {
    && (forall n {:trigger s.tokens[n]} :: 0 <= n < |s.tokens| ==> s.tokens[n].exp <= s.clock + lease)
    && (forall i {:trigger s.granted[i]} :: 0 <= i < |s.granted| ==>
          && s.granted[i].nonce < |s.tokens| && s.granted[i].at <= s.clock
          && s.tokens[s.granted[i].nonce].exp <= s.granted[i].at + lease)
  }

  ghost predicate ClaimsApart(s: GSys, lease: nat) {
    forall i, j {:trigger s.granted[i], s.granted[j]} :: 0 <= i < j < |s.granted| ==>
      s.granted[i].claimed && s.granted[j].claimed && s.granted[i].nonce == s.granted[j].nonce ==>
        s.granted[i].at + lease <= s.granted[j].at
  }

  ghost predicate ClaimInv(s: GSys, lease: nat) {
    HandlersKnown(s) && ClaimsRecorded(s, lease) && InTime(s, lease) && ClaimsApart(s, lease)
  }

  lemma GrantKeepsClaims(s: GSys, h: Handler, claims: map<nat, int>, claimed: bool, lease: nat)
    requires ClaimInv(s, lease) && h.nonce < |s.tokens|
    requires claims == s.claims || claims == Record(s, h.nonce, lease)
    requires claimed ==> Free(s, h.nonce) && claims == Record(s, h.nonce, lease)
    ensures ClaimInv(Grant(s.(claims := claims), h, claimed), lease)
  {
    var s' := Grant(s.(claims := claims), h, claimed);
    assert forall i :: 0 <= i < |s.granted| ==> s'.granted[i] == s.granted[i];
  }

  lemma HoldKeepsClaims(s: GSys, e: Event, lease: nat, ttl: int)
    requires ClaimInv(s, lease) && e.Hold?
    ensures ClaimInv(DoHold(s, e, lease, ttl), lease)
  {
    hide Reserve;
    var s' := DoHold(s, e, lease, ttl);
    assert forall n :: 0 <= n < |s.tokens| ==> s'.tokens[n] == s.tokens[n];
  }

  lemma ClaimKeepsClaims(s: GSys, i: nat, fault: Fault, lease: nat)
    requires ClaimInv(s, lease) && i < |s.pending|
    ensures ClaimInv(DoClaim(s, i, fault, lease), lease)
  {
    var h, s' := s.pending[i], s.(pending := s.pending[..i] + s.pending[i + 1..]);
    assert ClaimInv(s', lease);
    GrantKeepsClaims(s', h, if fault.LostBefore? then s.claims else Record(s, h.nonce, lease),
                     fault.NoFault? && Free(s, h.nonce), lease);
  }

  lemma OtherKeepsClaims(s: GSys, e: Event, lease: nat, ttl: int)
    requires ClaimInv(s, lease) && !e.Hold? && !e.Claim?
    ensures ClaimInv(Step(s, e, lease, ttl), lease)
  {
    hide Reconcile;
  }

  lemma {:induction false} ClaimsHold(es: seq<Event>, lease: nat, ttl: int)
    ensures ClaimInv(Run(es, lease, ttl), lease)
  {
    if es != [] {
      hide ClaimInv, DoHold, DoClaim, DoApply;
      var s, e := Run(es[..|es| - 1], lease, ttl), es[|es| - 1];
      ClaimsHold(es[..|es| - 1], lease, ttl);
      match e
      case Hold(_, _, _) => HoldKeepsClaims(s, e, lease, ttl);
      case Claim(i, fault) =>
        if i < |s.pending| {
          ClaimKeepsClaims(s, i, fault, lease);
        }
      case Verify(_, _) => OtherKeepsClaims(s, e, lease, ttl);
      case Apply(_, _, _) => OtherKeepsClaims(s, e, lease, ttl);
      case Tick(_) => OtherKeepsClaims(s, e, lease, ttl);
    }
  }

  /** A claim outlives its token: whoever wins a second claim of a nonce does so a lease after
      the first, when the token has expired. */
  lemma SecondClaimAfterExpiry(es: seq<Event>, lease: nat, ttl: int, i: nat, j: nat)
    requires var s := Run(es, lease, ttl);
             && i < j < |s.granted| && s.granted[i].claimed && s.granted[j].claimed
             && s.granted[i].nonce == s.granted[j].nonce
    ensures var s := Run(es, lease, ttl);
            && s.granted[i].at + lease <= s.granted[j].at
            && s.granted[j].nonce < |s.tokens| && s.tokens[s.granted[j].nonce].exp <= s.granted[j].at
  {
    ClaimsHold(es, lease, ttl);
  }

  // ---- at most once -----------------------------------------------------------------------------------------

  function Times(gs: seq<Go>, n: nat): nat {
    if gs == [] then 0 else Times(gs[..|gs| - 1], n) + if gs[|gs| - 1].nonce == n then 1 else 0
  }

  function TimesApplied(ap: seq<Done>, n: nat): nat {
    if ap == [] then 0 else TimesApplied(ap[..|ap| - 1], n) + if ap[|ap| - 1].go.nonce == n then 1 else 0
  }

  lemma AppliedAppend(ap: seq<Done>, a: Done, n: nat)
    ensures TimesApplied(ap + [a], n) == TimesApplied(ap, n) + if a.go.nonce == n then 1 else 0
  {
    assert (ap + [a])[..|ap|] == ap;
  }

  function TimesClaimed(gs: seq<Go>, n: nat): nat {
    if gs == [] then 0 else TimesClaimed(gs[..|gs| - 1], n) + if gs[|gs| - 1].nonce == n && gs[|gs| - 1].claimed then 1 else 0
  }

  /** Go-aheads for a nonce given although its claim could not be checked. */
  function TimesUnchecked(gs: seq<Go>, n: nat): nat {
    if gs == [] then 0 else TimesUnchecked(gs[..|gs| - 1], n) + if gs[|gs| - 1].nonce == n && !gs[|gs| - 1].claimed then 1 else 0
  }

  lemma TimesAppend(gs: seq<Go>, g: Go, n: nat)
    ensures Times(gs + [g], n) == Times(gs, n) + if g.nonce == n then 1 else 0
    ensures TimesClaimed(gs + [g], n) == TimesClaimed(gs, n) + if g.nonce == n && g.claimed then 1 else 0
    ensures TimesUnchecked(gs + [g], n) == TimesUnchecked(gs, n) + if g.nonce == n && !g.claimed then 1 else 0
  {
    assert (gs + [g])[..|gs|] == gs;
  }

  lemma {:induction false} TimesSplit(gs: seq<Go>, n: nat)
    ensures Times(gs, n) == TimesClaimed(gs, n) + TimesUnchecked(gs, n)
  {
    if gs != [] {
      TimesSplit(gs[..|gs| - 1], n);
    }
  }

  lemma {:induction false} ClaimedWitness(gs: seq<Go>, n: nat) returns (i: nat)
    requires TimesClaimed(gs, n) > 0
    ensures i < |gs| && gs[i].nonce == n && gs[i].claimed
  {
    var k := |gs| - 1;
    if gs[k].nonce == n && gs[k].claimed {
      i := k;
    } else {
      i := ClaimedWitness(gs[..k], n);
    }
  }

  /** e claims n when an earlier claim of n that was won is a lease old or older. */
  ghost predicate LateStep(s: GSys, e: Event, n: nat, lease: nat) {
    && e.Claim? && e.h < |s.pending| && s.pending[e.h].nonce == n
    && exists i {:trigger s.granted[i]} :: 0 <= i < |s.granted| && s.granted[i].nonce == n && s.granted[i].claimed
                                           && s.granted[i].at + lease <= s.clock
  }

  ghost predicate LateClaim(es: seq<Event>, n: nat, lease: nat, ttl: int) {
    es != [] &&
    (LateClaim(es[..|es| - 1], n, lease, ttl) || LateStep(Run(es[..|es| - 1], lease, ttl), es[|es| - 1], n, lease))
  }

  lemma StepGrants(s: GSys, e: Event, lease: nat, ttl: int, n: nat)
    ensures var s' := Step(s, e, lease, ttl);
            || s'.granted == s.granted
            || (e.Claim? && e.h < |s.pending| && var h := s.pending[e.h];
                var g := Go(h.nonce, h.action, s.clock, e.fault.NoFault?);
                s'.granted == s.granted + [g] && (g.claimed ==> Free(s, h.nonce)))
  {
    hide Reserve, Reconcile;
  }

  /** Without a late claim a nonce is claimed at most once. */
  lemma {:induction false} ClaimedAtMostOnce(es: seq<Event>, lease: nat, ttl: int, n: nat)
    requires !LateClaim(es, n, lease, ttl)
    ensures TimesClaimed(Run(es, lease, ttl).granted, n) <= 1
  {
    if es != [] {
      var s, e := Run(es[..|es| - 1], lease, ttl), es[|es| - 1];
      var s' := Step(s, e, lease, ttl);
      ClaimedAtMostOnce(es[..|es| - 1], lease, ttl, n);
      ClaimsHold(es[..|es| - 1], lease, ttl);
      StepGrants(s, e, lease, ttl, n);
      hide Step;
      if s'.granted != s.granted {
        TimesAppend(s.granted, s'.granted[|s.granted|], n);
        if TimesClaimed(s.granted, n) > 0 {
          var i := ClaimedWitness(s.granted, n);
          assert s.granted[i].at + lease <= s.claims[n];
        }
      }
    }
  }

  ghost predicate AllGranted(s: GSys, n: nat) {
    Times(s.granted, n) == TimesApplied(s.applied, n) + Times(s.going, n)
  }

  lemma ClaimKeepsGranted(s: GSys, i: nat, fault: Fault, lease: nat, n: nat)
    requires AllGranted(s, n) && i < |s.pending|
    ensures AllGranted(DoClaim(s, i, fault, lease), n)
  {
    hide Times, TimesApplied;
    var g := Go(s.pending[i].nonce, s.pending[i].action, s.clock, fault.NoFault?);
    TimesAppend(s.granted, g, n);
    TimesAppend(s.going, g, n);
  }

  lemma ApplyKeepsGranted(s: GSys, i: nat, first: Fault, second: Fault, n: nat)
    requires AllGranted(s, n) && i < |s.going| && s.going[i].nonce < |s.tokens|
    ensures AllGranted(DoApply(s, i, first, second), n)
  {
    hide Times, TimesApplied, Reconcile;
    AppliedAppend(s.applied, Done(s.going[i], first, second, s.clock), n);
    TimesRemove(s.going, i, n);
  }

  lemma HoldKeepsGranted(s: GSys, e: Event, lease: nat, ttl: int, n: nat)
    requires AllGranted(s, n) && e.Hold?
    ensures AllGranted(DoHold(s, e, lease, ttl), n)
  {
    hide Times, TimesApplied, Reserve;
  }

  /** Every action applied was granted, and those granted and not yet applied are going. */
  lemma {:induction false} AppliedWasGranted(es: seq<Event>, lease: nat, ttl: int, n: nat)
    ensures AllGranted(Run(es, lease, ttl), n)
  {
    if es != [] {
      hide Times, TimesApplied, DoHold, DoClaim, DoApply;
      var s, e := Run(es[..|es| - 1], lease, ttl), es[|es| - 1];
      AppliedWasGranted(es[..|es| - 1], lease, ttl, n);
      match e
      case Hold(_, _, _) => HoldKeepsGranted(s, e, lease, ttl, n);
      case Claim(i, fault) =>
        if i < |s.pending| {
          ClaimKeepsGranted(s, i, fault, lease, n);
        }
      case Apply(i, first, second) =>
        if i < |s.going| && s.going[i].nonce < |s.tokens| {
          ApplyKeepsGranted(s, i, first, second, n);
        }
      case Verify(_, _) =>
      case Tick(_) =>
    }
  }

  lemma {:induction false} TimesRemove(gs: seq<Go>, i: nat, n: nat)
    requires i < |gs|
    ensures Times(gs[..i] + gs[i + 1..], n) == Times(gs, n) - if gs[i].nonce == n then 1 else 0
  {
    var k := |gs| - 1;
    if i == k {
      assert gs[..i] + gs[i + 1..] == gs[..k];
    } else {
      var rest := gs[..i] + gs[i + 1..];
      assert rest[..|rest| - 1] == gs[..k][..i] + gs[..k][i + 1..];
      TimesRemove(gs[..k], i, n);
    }
  }

  /** Over any replicas and any replay of tokens to settle or release, a reservation is applied at
      most once, plus once for each time the claim store failed for it, unless it is claimed a lease
      or more after a claim of it was won. */
  lemma AppliedAtMostOnce(es: seq<Event>, lease: nat, ttl: int, n: nat)
    requires !LateClaim(es, n, lease, ttl)
    ensures var s := Run(es, lease, ttl);
            TimesApplied(s.applied, n) <= Times(s.granted, n) <= 1 + TimesUnchecked(s.granted, n)
  {
    var s := Run(es, lease, ttl);
    ClaimedAtMostOnce(es, lease, ttl, n);
    AppliedWasGranted(es, lease, ttl, n);
    TimesSplit(s.granted, n);
  }

  // ---- exactly when ------------------------------------------------------------------------------------------

  ghost predicate ClaimStoreUp(es: seq<Event>) {
    forall i :: 0 <= i < |es| && es[i].Claim? ==> es[i].fault.NoFault?
  }

  /** While the claim store is up, every go-ahead was claimed and the recorded claims are theirs. */
  ghost predicate RecordsExact(s: GSys, lease: nat) {
    && (forall i {:trigger s.granted[i]} :: 0 <= i < |s.granted| ==> s.granted[i].claimed)
    && (forall n {:trigger s.claims[n]} :: n in s.claims ==>
          exists i :: 0 <= i < |s.granted| && s.granted[i].nonce == n && s.claims[n] == s.granted[i].at + lease)
  }

  lemma GrantKeepsRecords(s: GSys, h: Handler, lease: nat)
    requires RecordsExact(s, lease) && Free(s, h.nonce)
    ensures RecordsExact(Grant(s.(claims := Record(s, h.nonce, lease)), h, true), lease)
  {
    var s' := Grant(s.(claims := Record(s, h.nonce, lease)), h, true);
    forall n {:trigger s'.claims[n]} | n in s'.claims
      ensures exists i :: 0 <= i < |s'.granted| && s'.granted[i].nonce == n && s'.claims[n] == s'.granted[i].at + lease
    {
      if n == h.nonce {
        assert s'.granted[|s.granted|].nonce == n;
      } else {
        var i :| 0 <= i < |s.granted| && s.granted[i].nonce == n && s.claims[n] == s.granted[i].at + lease;
        assert s'.granted[i] == s.granted[i];
      }
    }
  }

  lemma StepKeepsRecords(s: GSys, e: Event, lease: nat, ttl: int)
    requires RecordsExact(s, lease) && (e.Claim? ==> e.fault.NoFault?)
    ensures RecordsExact(Step(s, e, lease, ttl), lease)
  {
    hide Reserve, Reconcile;
    if e.Claim? && e.h < |s.pending| && Free(s, s.pending[e.h].nonce) {
      GrantKeepsRecords(s.(pending := s.pending[..e.h] + s.pending[e.h + 1..]), s.pending[e.h], lease);
    } else {
      hide Step;
    }
  }

  lemma {:induction false} RecordsStayExact(es: seq<Event>, lease: nat, ttl: int)
    requires ClaimStoreUp(es)
    ensures RecordsExact(Run(es, lease, ttl), lease)
  {
    if es != [] {
      hide Step, RecordsExact;
      RecordsStayExact(es[..|es| - 1], lease, ttl);
      StepKeepsRecords(Run(es[..|es| - 1], lease, ttl), es[|es| - 1], lease, ttl);
    } else {
      assert GStart.claims == map[];
    }
  }

  lemma {:induction false} TimesTwo(gs: seq<Go>, n: nat, i: nat, j: nat)
    requires i < j < |gs| && gs[i].nonce == n && gs[j].nonce == n
    ensures Times(gs, n) >= 2
  {
    var k := |gs| - 1;
    if j < k {
      TimesTwo(gs[..k], n, i, j);
    } else {
      TimesOne(gs[..k], n, i);
    }
  }

  lemma {:induction false} TimesOne(gs: seq<Go>, n: nat, i: nat)
    requires i < |gs| && gs[i].nonce == n
    ensures Times(gs, n) >= 1
  {
    if i < |gs| - 1 {
      TimesOne(gs[..|gs| - 1], n, i);
    }
  }

  /** A late claim is won, or another was before it. */
  lemma LateStepGrants(s: GSys, e: Event, lease: nat, ttl: int, n: nat)
    requires RecordsExact(s, lease) && ClaimsRecorded(s, lease) && LateStep(s, e, n, lease) && e.fault.NoFault?
    ensures Times(Step(s, e, lease, ttl).granted, n) >= 2
  {
    hide Reserve, Reconcile, Times, Record;
    var i :| 0 <= i < |s.granted| && s.granted[i].nonce == n && s.granted[i].claimed && s.granted[i].at + lease <= s.clock;
    TimesOne(s.granted, n, i);
    if Free(s, n) {
      TimesAppend(s.granted, Go(n, s.pending[e.h].action, s.clock, true), n);
    } else {
      RecordOfAnother(s, lease, n, i);
      hide Step;
    }
  }

  /** A claim in force where an old one was won belongs to another go-ahead. */
  lemma RecordOfAnother(s: GSys, lease: nat, n: nat, i: nat)
    requires RecordsExact(s, lease) && !Free(s, n)
    requires i < |s.granted| && s.granted[i].nonce == n && s.granted[i].at + lease <= s.clock
    ensures Times(s.granted, n) >= 2
  {
    hide Times;
    var k: int :| 0 <= k < |s.granted| && s.granted[k].nonce == n && s.claims[n] == s.granted[k].at + lease;
    TimesTwo(s.granted, n, if i < k then i else k, if i < k then k else i);
  }

  lemma {:induction false} LateClaimGrantsTwice(es: seq<Event>, lease: nat, ttl: int, n: nat)
    requires ClaimStoreUp(es) && LateClaim(es, n, lease, ttl)
    ensures Times(Run(es, lease, ttl).granted, n) >= 2
  {
    var pre, e := es[..|es| - 1], es[|es| - 1];
    var s := Run(pre, lease, ttl);
    if LateClaim(pre, n, lease, ttl) {
      LateClaimGrantsTwice(pre, lease, ttl, n);
      StepGrants(s, e, lease, ttl, n);
      hide Step;
      if Step(s, e, lease, ttl).granted != s.granted {
        TimesAppend(s.granted, Step(s, e, lease, ttl).granted[|s.granted|], n);
      }
    } else {
      RecordsStayExact(pre, lease, ttl);
      ClaimsHold(pre, lease, ttl);
      LateStepGrants(s, e, lease, ttl, n);
    }
  }

  lemma {:induction false} AllChecked(gs: seq<Go>, n: nat)
    requires forall i :: 0 <= i < |gs| ==> gs[i].claimed
    ensures TimesUnchecked(gs, n) == 0
  {
    if gs != [] {
      AllChecked(gs[..|gs| - 1], n);
    }
  }

  /** While the claim store is up, a reservation is let through at most once if and only if it is
      never claimed a lease or more after a claim of it was won. Once every handler let through has
      finished, the same holds of its applications. */
  lemma AtMostOnceIff(es: seq<Event>, lease: nat, ttl: int, n: nat)
    requires ClaimStoreUp(es)
    ensures var s := Run(es, lease, ttl);
            && (Times(s.granted, n) <= 1 <==> !LateClaim(es, n, lease, ttl))
            && (s.going == [] ==> (TimesApplied(s.applied, n) <= 1 <==> !LateClaim(es, n, lease, ttl)))
  {
    var s := Run(es, lease, ttl);
    AppliedWasGranted(es, lease, ttl, n);
    if LateClaim(es, n, lease, ttl) {
      LateClaimGrantsTwice(es, lease, ttl, n);
    } else {
      AppliedAtMostOnce(es, lease, ttl, n);
      RecordsStayExact(es, lease, ttl);
      AllChecked(s.granted, n);
    }
  }

  /** Every claim of n is made before the lease of its token ends. */
  ghost predicate Prompt(es: seq<Event>, n: nat, lease: nat, ttl: int) {
    es != [] ==>
      var s, e := Run(es[..|es| - 1], lease, ttl), es[|es| - 1];
      && Prompt(es[..|es| - 1], n, lease, ttl)
      && (e.Claim? && e.h < |s.pending| && s.pending[e.h].nonce == n && n < |s.tokens| ==> s.clock < s.tokens[n].exp)
  }

  /** A handler that claims before the lease of its token ends is never late. */
  lemma {:induction false} PromptIsNeverLate(es: seq<Event>, n: nat, lease: nat, ttl: int)
    requires Prompt(es, n, lease, ttl)
    ensures !LateClaim(es, n, lease, ttl)
  {
    if es != [] {
      PromptIsNeverLate(es[..|es| - 1], n, lease, ttl);
      ClaimsHold(es[..|es| - 1], lease, ttl);
    }
  }

  // ---- tokens presented in time ------------------------------------------------------------------------------

  /** Event i of the run presents token n, while it has not expired, to do action. */
  ghost predicate PresentedAt(es: seq<Event>, i: nat, n: nat, action: Action, lease: nat, ttl: int) {
    && i < |es| && es[i] == Verify(n, action)
    && var s := Run(es[..i], lease, ttl);
       n < |s.tokens| && s.clock < s.tokens[n].exp
  }

  ghost predicate Presented(es: seq<Event>, n: nat, action: Action, lease: nat, ttl: int) {
    exists i: nat :: PresentedAt(es, i, n, action, lease, ttl)
  }

  /** Whatever waits to be claimed, was told to go ahead, or left a claim was presented in time. */
  ghost predicate AllPresented(es: seq<Event>, s: GSys, lease: nat, ttl: int) {
    && (forall i {:trigger s.pending[i]} :: 0 <= i < |s.pending| ==> Presented(es, s.pending[i].nonce, s.pending[i].action, lease, ttl))
    && (forall i {:trigger s.granted[i]} :: 0 <= i < |s.granted| ==> Presented(es, s.granted[i].nonce, s.granted[i].action, lease, ttl))
    && (forall n {:trigger s.claims[n]} :: n in s.claims ==> exists action :: Presented(es, n, action, lease, ttl))
  }

  lemma StaysPresented(es: seq<Event>, e: Event, lease: nat, ttl: int)
    ensures forall n, action :: Presented(es, n, action, lease, ttl) ==> Presented(es + [e], n, action, lease, ttl)
  {
    hide Run;
    forall n, action | Presented(es, n, action, lease, ttl)
      ensures Presented(es + [e], n, action, lease, ttl)
    {
      var i: nat :| PresentedAt(es, i, n, action, lease, ttl);
      assert (es + [e])[..i] == es[..i];
      assert PresentedAt(es + [e], i, n, action, lease, ttl);
    }
  }

  /** A step queues nothing but a token presented in time, and grants and claims nothing not queued. */
  lemma StepQueues(s: GSys, e: Event, lease: nat, ttl: int)
    ensures var s' := Step(s, e, lease, ttl);
            && (forall i {:trigger s'.pending[i]} :: 0 <= i < |s'.pending| ==>
                  || s'.pending[i] in s.pending
                  || (e == Verify(s'.pending[i].nonce, s'.pending[i].action)
                      && e.nonce < |s.tokens| && s.clock < s.tokens[e.nonce].exp))
            && (forall i {:trigger s'.granted[i]} :: 0 <= i < |s'.granted| ==>
                  s'.granted[i] in s.granted || Handler(s'.granted[i].nonce, s'.granted[i].action) in s.pending)
            && (forall n {:trigger s'.claims[n]} :: n in s'.claims ==> n in s.claims || exists a :: Handler(n, a) in s.pending)
  {
    hide Reserve, Reconcile;
    if e.Claim? && e.h < |s.pending| {
      assert s.pending[e.h] == Handler(s.pending[e.h].nonce, s.pending[e.h].action);
    }
  }

  /** Nobody is told to go ahead for a token, and nothing is recorded of it, that was not presented
      before it expired. */
  lemma {:induction false} OnlyPresentedTokens(es: seq<Event>, lease: nat, ttl: int)
    ensures AllPresented(es, Run(es, lease, ttl), lease, ttl)
  {
    if es != [] {
      hide Step, AllPresented;
      var pre, e := es[..|es| - 1], es[|es| - 1];
      assert pre + [e] == es;
      OnlyPresentedTokens(pre, lease, ttl);
      StepKeepsPresented(pre, e, lease, ttl);
    }
  }

  lemma StepKeepsPresented(pre: seq<Event>, e: Event, lease: nat, ttl: int)
    requires AllPresented(pre, Run(pre, lease, ttl), lease, ttl)
    ensures AllPresented(pre + [e], Step(Run(pre, lease, ttl), e, lease, ttl), lease, ttl)
  {
    hide Run, Step, Presented;
    var s := Run(pre, lease, ttl);
    StaysPresented(pre, e, lease, ttl);
    StepQueues(s, e, lease, ttl);
    if e.Verify? && e.nonce < |s.tokens| && s.clock < s.tokens[e.nonce].exp {
      PresentedNow(pre, e.nonce, e.action, lease, ttl);
      assert pre + [e] == pre + [Verify(e.nonce, e.action)];
    }
    var s' := Step(s, e, lease, ttl);
    forall i {:trigger s'.pending[i]} | 0 <= i < |s'.pending|
      ensures Presented(pre + [e], s'.pending[i].nonce, s'.pending[i].action, lease, ttl)
    {
      if s'.pending[i] in s.pending {
        var j :| 0 <= j < |s.pending| && s.pending[j] == s'.pending[i];
      }
    }
    forall n {:trigger s'.claims[n]} | n in s'.claims
      ensures exists action :: Presented(pre + [e], n, action, lease, ttl)
    {
      if n in s.claims {
        var action :| Presented(pre, n, action, lease, ttl);
      } else {
        var a :| Handler(n, a) in s.pending;
        var j :| 0 <= j < |s.pending| && s.pending[j] == Handler(n, a);
      }
    }
  }

  lemma PresentedNow(pre: seq<Event>, n: nat, action: Action, lease: nat, ttl: int)
    requires var s := Run(pre, lease, ttl); n < |s.tokens| && s.clock < s.tokens[n].exp
    ensures Presented(pre + [Verify(n, action)], n, action, lease, ttl)
  {
    hide Run;
    assert (pre + [Verify(n, action)])[..|pre|] == pre;
    assert PresentedAt(pre + [Verify(n, action)], |pre|, n, action, lease, ttl);
  }

  lemma {:induction false} NoneOf(gs: seq<Go>, n: nat)
    requires forall i :: 0 <= i < |gs| ==> gs[i].nonce != n
    ensures Times(gs, n) == 0
  {
    if gs != [] {
      NoneOf(gs[..|gs| - 1], n);
    }
  }

  /** A token never presented before it expired is never applied and leaves no claim. */
  lemma ExpiredIsNeverApplied(es: seq<Event>, lease: nat, ttl: int, n: nat)
    requires forall action :: !Presented(es, n, action, lease, ttl)
    ensures var s := Run(es, lease, ttl);
            n !in s.claims && Times(s.granted, n) == 0 && TimesApplied(s.applied, n) == 0
  {
    hide Run, Presented;
    var s := Run(es, lease, ttl);
    OnlyPresentedTokens(es, lease, ttl);
    AppliedWasGranted(es, lease, ttl, n);
    NoneOf(s.granted, n);
  }

  lemma {:induction false} RunOnFrom(a: seq<Event>, b: seq<Event>, post: seq<Event>, lease: nat, ttl: int)
    requires Run(a, lease, ttl) == Run(b, lease, ttl)
    ensures Run(a + post, lease, ttl) == Run(b + post, lease, ttl)
  {
    hide Run, Step;
    if post == [] {
      assert a + post == a && b + post == b;
    } else {
      var k := |post| - 1;
      RunOnFrom(a, b, post[..k], lease, ttl);
      LastApart(a, post);
      LastApart(b, post);
      RunThen(a + post[..k], post[k], lease, ttl);
      RunThen(b + post[..k], post[k], lease, ttl);
    }
  }

  lemma LastApart(a: seq<Event>, post: seq<Event>)
    requires post != []
    ensures a + post == a + post[..|post| - 1] + [post[|post| - 1]]
  {
  }

  /** Presenting a token once it has expired, anywhere in a run and to do anything, leaves the whole run
      as it would have been without. */
  lemma LatePresentationIsNothing(pre: seq<Event>, post: seq<Event>, n: nat, action: Action, lease: nat, ttl: int)
    requires var s := Run(pre, lease, ttl); n < |s.tokens| ==> s.tokens[n].exp <= s.clock
    ensures Run(pre + [Verify(n, action)] + post, lease, ttl) == Run(pre + post, lease, ttl)
  {
    hide Run;
    RunThen(pre, Verify(n, action), lease, ttl);
    RunOnFrom(pre + [Verify(n, action)], pre, post, lease, ttl);
  }

  // ---- the lease --------------------------------------------------------------------------------------------

  /** The second token n was handed out in. */
  function IssuedAt(es: seq<Event>, n: nat, lease: nat, ttl: int): int {
    if es == [] then 0
    else
      var before := Run(es[..|es| - 1], lease, ttl);
      if n < |before.tokens| then IssuedAt(es[..|es| - 1], n, lease, ttl) else before.clock
  }

  lemma {:induction false} ExpiryIsIssuePlusLease(es: seq<Event>, n: nat, lease: nat, ttl: int)
    requires n < |Run(es, lease, ttl).tokens|
    ensures Run(es, lease, ttl).tokens[n].exp == IssuedAt(es, n, lease, ttl) + lease
  {
    hide Reserve, Reconcile;
    var pre := es[..|es| - 1];
    if n < |Run(pre, lease, ttl).tokens| {
      ExpiryIsIssuePlusLease(pre, n, lease, ttl);
    }
  }

  /** A token is heard for exactly the request timeout and a minute after it was handed out, however
      often it is presented; presenting it changes nothing else. */
  lemma HeardIff(es: seq<Event>, n: nat, action: Action, requestTimeout: nat, ttl: int)
    ensures var lease := Lease(requestTimeout);
            var s := Run(es, lease, ttl);
            Run(es + [Verify(n, action)], lease, ttl) ==
            if n < |s.tokens| && s.clock - IssuedAt(es, n, lease, ttl) < requestTimeout + 60
            then s.(pending := s.pending + [Handler(n, action)])
            else s
  {
    var lease := Lease(requestTimeout);
    RunThen(es, Verify(n, action), lease, ttl);
    if n < |Run(es, lease, ttl).tokens| {
      ExpiryIsIssuePlusLease(es, n, lease, ttl);
    }
  }

  // ---- nobody is stranded -----------------------------------------------------------------------------------

  /** Every claim on record is of a token some handler was let through for. */
  ghost predicate RecordedWereLet(s: GSys) {
    forall n :: n in s.claims ==> Times(s.granted, n) > 0
  }

  lemma {:induction false} ClaimsWereLet(es: seq<Event>, lease: nat, ttl: int)
    ensures RecordedWereLet(Run(es, lease, ttl))
  {
    if es != [] {
      hide DoHold, DoApply, Times, Reserve, Reconcile;
      var s, e := Run(es[..|es| - 1], lease, ttl), es[|es| - 1];
      ClaimsWereLet(es[..|es| - 1], lease, ttl);
      StepKeepsLet(s, e, lease, ttl);
    }
  }

  lemma StepKeepsLet(s: GSys, e: Event, lease: nat, ttl: int)
    requires RecordedWereLet(s)
    ensures RecordedWereLet(Step(s, e, lease, ttl))
  {
    hide Times, Reserve, Reconcile;
    if e.Claim? && e.h < |s.pending| {
      var h := s.pending[e.h];
      var g := Go(h.nonce, h.action, s.clock, e.fault.NoFault?);
      forall n
        ensures Times(s.granted + [g], n) == Times(s.granted, n) + if n == h.nonce then 1 else 0
      {
        TimesAppend(s.granted, g, n);
      }
    }
  }

  /** The first handler of a token is always let through, and so is every one whose claim call fails. */
  lemma FirstIsLetThrough(es: seq<Event>, i: nat, fault: Fault, lease: nat, ttl: int)
    requires var s := Run(es, lease, ttl); i < |s.pending| && (fault.NoFault? ==> Times(s.granted, s.pending[i].nonce) == 0)
    ensures var s, s' := Run(es, lease, ttl), Run(es + [Claim(i, fault)], lease, ttl);
            var go := Go(s.pending[i].nonce, s.pending[i].action, s.clock, fault.NoFault?);
            && s'.granted == s.granted + [go] && s'.going == s.going + [go]
            && s'.pending == s.pending[..i] + s.pending[i + 1..]
            && s'.shared == s.shared && s'.tokens == s.tokens && s'.applied == s.applied
  {
    hide Run;
    RunThen(es, Claim(i, fault), lease, ttl);
    ClaimsWereLet(es, lease, ttl);
  }
}
