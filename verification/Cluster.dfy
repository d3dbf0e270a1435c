/** N replicas over one shared store: requests move phase by phase, and between any two phases
    other requests run, replicas crash, time passes and store calls fail, before or after
    taking effect. */
module Cluster {
  import opened FirewallSpec
  import opened FirewallSteps
  import opened FirewallAdmission
  import opened SharedSpec
  import opened SharedMode
  import opened WindowLog
  import KillStore
  import Keys

  datatype Phase =
    | Checked                       // passed the instance's own checks, not yet asked the store
    | Unreachable                   // the store call failed
    | Refused                       // the store said no
    | InStore                       // admitted by the store
    | InMemory(keys: seq<string>)   // admitted by the instance while the store was unreachable
    | Uncapped                      // nothing to ask the store for
    | Gone

  datatype Req = Req(replica: nat, scopes: seq<Scope>, usd: real, tok: int, budgetKey: string, at: int,
                     phase: Phase, settled: bool, released: bool)

  datatype Fleet = Fleet(shared: Shared, locals: seq<Fw>, reqs: seq<Req>, clock: nat)

  datatype Event =
    | Arrive(r: nat, scopes: seq<Scope>, runKey: string, hash: string, runMax: real, usd: real, tok: int)
    | AskStore(i: nat, fault: Fault)
    | RollBack(i: nat)
    | FallBack(i: nat)
    | SettleReq(i: nat, actualUSD: real, actualTok: int)
    | ReleaseReq(i: nat)
    | StoreFree(i: nat)
    | StoreAdjust(ks: seq<string>, dUSD: real, dTok: int)
    | Crash(r: nat)
    | Pass(ns: nat)

  function Boot(n: nat): Fleet {
    Fleet(EmptyShared, seq(n, _ => EmptyFw), [], 0)
  }

  function LocalKeys(q: Req): seq<string> {
    if q.phase.InMemory? then q.phase.keys else []
  }

  function TicketOf(q: Req): Ticket {
    Ticket(LocalKeys(q), q.budgetKey, q.usd, q.tok, q.at, q.settled, q.released)
  }

  predicate Admitted(q: Req) {
    q.phase.InStore? || q.phase.InMemory? || q.phase.Uncapped?
  }

  function SetPhase(c: Fleet, i: nat, p: Phase): Fleet
    requires i < |c.reqs|
  {
    c.(reqs := c.reqs[i := c.reqs[i].(phase := p, at := Unix(c.clock))])
  }

  function SetLocal(c: Fleet, r: nat, f: Fw): Fleet
    requires r < |c.locals|
  {
    c.(locals := c.locals[r := f])
  }

  function DoArrive(cfg: Config, c: Fleet, e: Event): Fleet
    requires e.Arrive? && e.r < |c.locals|
  {
    var usd, tok := Floor0(e.usd), ClampTok(e.tok);
    var (f, tripped, b) := CheckLoopBudget(GC(c.locals[e.r], cfg, c.clock), cfg, e.runKey, e.hash, usd, e.runMax, c.clock);
    if tripped then SetLocal(c, e.r, DoKill(f, cfg, e.runKey, c.clock))
    else
      var p := if SharedCaps(e.scopes) == [] then Uncapped else Checked;
      SetLocal(c, e.r, f).(reqs := c.reqs + [Req(e.r, e.scopes, usd, tok, b, Unix(c.clock), p, false, false)])
  }

  function DoAskStore(c: Fleet, i: nat, fault: Fault, ttl: int): Fleet
    requires i < |c.reqs|
  {
    var q := c.reqs[i];
    var (s, a) := SharedSpec.Reserve(c.shared, SharedCaps(q.scopes), q.usd, q.tok, HoldID(i), Unix(c.clock), ttl);
    match fault
    case LostBefore => SetPhase(c, i, Unreachable)
    case LostAfter => SetPhase(c.(shared := s), i, Unreachable)
    case NoFault => SetPhase(c.(shared := s), i, if a == Reserved then InStore else Refused)
  }

  function DoFallBack(c: Fleet, i: nat): Fleet
    requires i < |c.reqs| && c.reqs[i].replica < |c.locals|
  {
    var q := c.reqs[i];
    var (f, denied) := CheckReserve(c.locals[q.replica], q.scopes, q.usd, q.tok, c.clock);
    if denied.None? then SetPhase(SetLocal(c, q.replica, f), i, InMemory(ScopeKeys(q.scopes)))
    else SetPhase(SetLocal(c, q.replica, Unreserved(f, q.budgetKey, q.usd)), i, Gone)
  }

  function Reconciled(c: Fleet, i: nat, f: Fw, t: Ticket): Fleet
    requires i < |c.reqs| && c.reqs[i].replica < |c.locals|
  {
    SetLocal(c, c.reqs[i].replica, f).(reqs := c.reqs[i := c.reqs[i].(settled := t.settled, released := t.released)])
  }

  function Crashed(reqs: seq<Req>, r: nat): (out: seq<Req>)
    ensures |out| == |reqs|
    ensures forall i :: 0 <= i < |reqs| ==> out[i] == if reqs[i].replica == r then reqs[i].(phase := Gone) else reqs[i]
  {
    seq(|reqs|, i requires 0 <= i < |reqs| => if reqs[i].replica == r then reqs[i].(phase := Gone) else reqs[i])
  }

  /** An event that does not apply changes nothing. */
  predicate Applies(c: Fleet, e: Event) {
    match e
    case Arrive(r, _, _, _, _, _, _) => r < |c.locals|
    case AskStore(i, _) => i < |c.reqs| && c.reqs[i].phase.Checked?
    case RollBack(i) => i < |c.reqs| && c.reqs[i].phase.Refused? && c.reqs[i].replica < |c.locals|
    case FallBack(i) => i < |c.reqs| && c.reqs[i].phase.Unreachable? && c.reqs[i].replica < |c.locals|
    case SettleReq(i, _, _) => i < |c.reqs| && Admitted(c.reqs[i]) && c.reqs[i].replica < |c.locals|
    case ReleaseReq(i) => i < |c.reqs| && Admitted(c.reqs[i]) && c.reqs[i].replica < |c.locals|
    case StoreFree(i) => i < |c.reqs| && c.reqs[i].phase.InStore? && c.reqs[i].released
    case StoreAdjust(_, _, _) => true
    case Crash(r) => r < |c.locals|
    case Pass(_) => true
  }

  function Step(cfg: Config, ttl: int, c: Fleet, e: Event): Fleet {
    if !Applies(c, e) then c
    else
      match e
      case Arrive(_, _, _, _, _, _, _) => DoArrive(cfg, c, e)
      case AskStore(i, fault) => DoAskStore(c, i, fault, ttl)
      case RollBack(i) =>
        var q := c.reqs[i];
        SetPhase(SetLocal(c, q.replica, Unreserved(c.locals[q.replica], q.budgetKey, q.usd)), i, Gone)
      case FallBack(i) => DoFallBack(c, i)
      case SettleReq(i, usd, tok) =>
        var (f, t) := Settle(c.locals[c.reqs[i].replica], TicketOf(c.reqs[i]), usd, tok, c.clock);
        Reconciled(c, i, f, t)
      case ReleaseReq(i) =>
        var (f, t) := FirewallSpec.Release(c.locals[c.reqs[i].replica], TicketOf(c.reqs[i]), c.clock);
        Reconciled(c, i, f, t)
      case StoreFree(i) => c.(shared := FreeHolds(c.shared, CapKeys(SharedCaps(c.reqs[i].scopes)), HoldID(i)))
      case StoreAdjust(ks, dUSD, dTok) => c.(shared := Adjust(c.shared, ks, dUSD, dTok, Unix(c.clock)))
      case Crash(r) => SetLocal(c, r, EmptyFw).(reqs := Crashed(c.reqs, r))
      case Pass(ns) => c.(clock := c.clock + ns)
  }

  function Run(cfg: Config, ttl: int, n: nat, es: seq<Event>): Fleet {
    if es == [] then Boot(n) else Step(cfg, ttl, Run(cfg, ttl, n, es[..|es| - 1]), es[|es| - 1])
  }

  // ---- what is in flight -----------------------------------------------------------------------------------

  predicate Names(q: Req, k: string) {
    k in ScopeKeys(q.scopes)
  }

  /** Admitted by the store, unreleased, and younger than the hold lifetime. */
  predicate YoungInStore(q: Req, k: string, now: int, ttl: int) {
    q.phase.InStore? && !q.released && Names(q, k) && now < q.at + ttl
  }

  /** Admitted by an instance and unreleased, however old. */
  predicate HeldInMemory(q: Req, k: string) {
    q.phase.InMemory? && !q.released && Names(q, k)
  }

  function CountInStore(reqs: seq<Req>, k: string, now: int, ttl: int): nat {
    if reqs == [] then 0
    else CountInStore(reqs[..|reqs| - 1], k, now, ttl) + if YoungInStore(reqs[|reqs| - 1], k, now, ttl) then 1 else 0
  }

  function CountInMemory(reqs: seq<Req>, k: string): nat {
    if reqs == [] then 0
    else CountInMemory(reqs[..|reqs| - 1], k) + if HeldInMemory(reqs[|reqs| - 1], k) then 1 else 0
  }

  /** Slots of k that replica r's own counter holds. */
  function Slots(q: Req, r: nat, k: string): nat {
    if q.replica == r && !q.released then multiset(LocalKeys(q))[k] else 0
  }

  function SumSlots(reqs: seq<Req>, r: nat, k: string): nat {
    if reqs == [] then 0 else SumSlots(reqs[..|reqs| - 1], r, k) + Slots(reqs[|reqs| - 1], r, k)
  }

  lemma {:induction false} SumSlotsUpdate(reqs: seq<Req>, i: nat, q: Req, r: nat, k: string)
    requires i < |reqs|
    ensures SumSlots(reqs[i := q], r, k) == SumSlots(reqs, r, k) - Slots(reqs[i], r, k) + Slots(q, r, k)
    ensures SumSlots(reqs, r, k) >= Slots(reqs[i], r, k)
  {
    var n := |reqs| - 1;
    if i == n {
      assert reqs[i := q][..n] == reqs[..n];
    } else {
      assert reqs[i := q][..n] == reqs[..n][i := q];
      SumSlotsUpdate(reqs[..n], i, q, r, k);
    }
  }

  lemma {:induction false} SumSlotsCrash(reqs: seq<Req>, dead: nat, r: nat, k: string)
    ensures SumSlots(Crashed(reqs, dead), r, k) == if r == dead then 0 else SumSlots(reqs, r, k)
  {
    if reqs != [] {
      var n := |reqs| - 1;
      assert Crashed(reqs, dead)[..n] == Crashed(reqs[..n], dead);
      SumSlotsCrash(reqs[..n], dead, r, k);
    }
  }

  // ---- the invariant ------------------------------------------------------------------------------------------

  /** Every chain that names k caps it at m, once. */
  ghost predicate FixedCap(scopes: seq<Scope>, k: string, m: int) {
    && (forall sc :: sc in scopes && sc.key == k ==> sc.limits.concurrent == m)
    && multiset(ScopeKeys(scopes))[k] <= 1
  }

  /** Each instance's counters are exactly the slots its own requests hold. */
  ghost predicate CountersExact(locals: seq<Fw>, reqs: seq<Req>) {
    && (forall r {:trigger locals[r]} :: 0 <= r < |locals| ==> ValidFw(locals[r]))
    && (forall r: nat, k {:trigger Inflight(locals[r], k)} :: r < |locals| ==> Inflight(locals[r], k) == SumSlots(reqs, r, k))
  }

  ghost predicate LocalsCapped(locals: seq<Fw>, k: string, m: int) {
    forall r {:trigger locals[r]} :: 0 <= r < |locals| ==> Inflight(locals[r], k) <= m
  }

  ghost predicate ReqsOK(reqs: seq<Req>, n: nat, k: string, m: int) {
    forall i {:trigger reqs[i]} :: 0 <= i < |reqs| ==>
      && reqs[i].replica < n && FixedCap(reqs[i].scopes, k, m)
      && (reqs[i].phase.InMemory? ==> reqs[i].phase.keys == ScopeKeys(reqs[i].scopes))
      && (reqs[i].released ==> Admitted(reqs[i]) || reqs[i].phase.Gone?)
  }

  /** Each young request in the store still has its hold there. */
  ghost predicate HoldsBacked(shared: Shared, reqs: seq<Req>, k: string, now: int, ttl: int) {
    forall i: nat {:trigger HoldID(i)} {:trigger reqs[i]} :: i < |reqs| && YoungInStore(reqs[i], k, now, ttl) ==>
      HoldID(i) in HoldsAt(shared, k) && HoldsAt(shared, k)[HoldID(i)] == reqs[i].at + ttl
  }

  ghost predicate Inv(c: Fleet, n: nat, k: string, m: int, ttl: int) {
    && |c.locals| == n
    && ReqsOK(c.reqs, n, k, m)
    && CountersExact(c.locals, c.reqs) && LocalsCapped(c.locals, k, m)
    && HoldsBacked(c.shared, c.reqs, k, Unix(c.clock), ttl) && |Live(c.shared, k, Unix(c.clock))| <= m
  }

  // ---- one instance changes -----------------------------------------------------------------------------------

  /** An instance's state moved without moving its counters. */
  lemma LocalMoved(c: Fleet, n: nat, k: string, m: int, ttl: int, r: nat, f: Fw)
    requires Inv(c, n, k, m, ttl) && r < n && ValidFw(f) && SameCounts(c.locals[r], f)
    ensures Inv(SetLocal(c, r, f), n, k, m, ttl)
  {
    var locals := SetLocal(c, r, f).locals;
    forall j: nat, k2 {:trigger Inflight(locals[j], k2)} | j < n
      ensures Inflight(locals[j], k2) == SumSlots(c.reqs, j, k2)
    {
      assert Inflight(c.locals[j], k2) == SumSlots(c.reqs, j, k2);
    }
    assert Inflight(f, k) == Inflight(c.locals[r], k);
  }

  /** A request changed without changing what it holds anywhere. */
  lemma ReqMoved(c: Fleet, n: nat, k: string, m: int, ttl: int, i: nat, q: Req)
    requires Inv(c, n, k, m, ttl) && i < |c.reqs|
    requires q.replica == c.reqs[i].replica && q.scopes == c.reqs[i].scopes && !q.phase.InStore? && !q.phase.InMemory?
    requires !c.reqs[i].phase.InMemory? && (q.released ==> Admitted(q) || q.phase.Gone?)
    ensures Inv(c.(reqs := c.reqs[i := q]), n, k, m, ttl)
  {
    forall j: nat, k2 {:trigger Inflight(c.locals[j], k2)} | j < n
      ensures Inflight(c.locals[j], k2) == SumSlots(c.reqs[i := q], j, k2)
    {
      SumSlotsUpdate(c.reqs, i, q, j, k2);
    }
  }

  /** Counters stay exact when a request and its instance's counters move together. */
  lemma CountersMoved(locals: seq<Fw>, reqs: seq<Req>, i: nat, q: Req, f: Fw)
    requires CountersExact(locals, reqs) && i < |reqs| && reqs[i].replica < |locals| && ValidFw(f)
    requires q.replica == reqs[i].replica
    requires forall k {:trigger Inflight(f, k)} ::
               Inflight(f, k) == Inflight(locals[q.replica], k) - Slots(reqs[i], q.replica, k) + Slots(q, q.replica, k)
    ensures CountersExact(locals[q.replica := f], reqs[i := q])
  {
    var locals' := locals[q.replica := f];
    forall j: nat, k {:trigger Inflight(locals'[j], k)} | j < |locals|
      ensures Inflight(locals'[j], k) == SumSlots(reqs[i := q], j, k)
    {
      SumSlotsUpdate(reqs, i, q, j, k);
      assert Inflight(locals[j], k) == SumSlots(reqs, j, k);
    }
  }

  /** Holds stay backed when a request changes that is not newly admitted by the store. */
  lemma BackedMoved(shared: Shared, reqs: seq<Req>, i: nat, q: Req, k: string, now: int, ttl: int)
    requires HoldsBacked(shared, reqs, k, now, ttl) && i < |reqs| && q.scopes == reqs[i].scopes
    requires q.phase.InStore? ==> reqs[i].phase.InStore? && q.at == reqs[i].at && (reqs[i].released ==> q.released)
    ensures HoldsBacked(shared, reqs[i := q], k, now, ttl)
  {
    assert forall j :: 0 <= j < |reqs| && YoungInStore(reqs[i := q][j], k, now, ttl) ==>
             YoungInStore(reqs[j], k, now, ttl) && reqs[i := q][j].at == reqs[j].at;
  }

  /** Request i and its instance changed together. */
  lemma SlotsMoved(c: Fleet, n: nat, k: string, m: int, ttl: int, i: nat, q: Req, f: Fw)
    requires Inv(c, n, k, m, ttl) && i < |c.reqs| && ValidFw(f)
    requires var o := c.reqs[i];
             && q.replica == o.replica && q.scopes == o.scopes && Inflight(f, k) <= m
             && (q.phase.InMemory? ==> q.phase.keys == ScopeKeys(q.scopes))
             && (q.released ==> Admitted(q) || q.phase.Gone?)
             && (q.phase.InStore? ==> o.phase.InStore? && q.at == o.at && (o.released ==> q.released))
             && (forall k2 {:trigger Inflight(f, k2)} ::
                   Inflight(f, k2) == Inflight(c.locals[o.replica], k2) - Slots(o, o.replica, k2) + Slots(q, o.replica, k2))
    ensures Inv(SetLocal(c, c.reqs[i].replica, f).(reqs := c.reqs[i := q]), n, k, m, ttl)
  {
    CountersMoved(c.locals, c.reqs, i, q, f);
    BackedMoved(c.shared, c.reqs, i, q, k, Unix(c.clock), ttl);
    hide CountersExact, HoldsBacked;
  }

  // ---- the events ----------------------------------------------------------------------------------------------

  lemma ArriveKeepsInv(cfg: Config, c: Fleet, e: Event, n: nat, k: string, m: int, ttl: int)
    requires Inv(c, n, k, m, ttl) && e.Arrive? && e.r < n && FixedCap(e.scopes, k, m)
    ensures Inv(DoArrive(cfg, c, e), n, k, m, ttl)
  {
    var usd, tok := Floor0(e.usd), ClampTok(e.tok);
    var g := GC(c.locals[e.r], cfg, c.clock);
    GCReadings(c.locals[e.r], cfg, c.clock);
    CheckLoopBudgetReadings(g, cfg, e.runKey, e.hash, usd, e.runMax, c.clock);
    var (f, tripped, b) := CheckLoopBudget(g, cfg, e.runKey, e.hash, usd, e.runMax, c.clock);
    assert SameCounts(c.locals[e.r], f);
    if tripped {
      var f' := DoKill(f, cfg, e.runKey, c.clock);
      assert SameCounts(c.locals[e.r], f');
      LocalMoved(c, n, k, m, ttl, e.r, f');
    } else {
      LocalMoved(c, n, k, m, ttl, e.r, f);
      var p := if SharedCaps(e.scopes) == [] then Uncapped else Checked;
      ReqAdded(SetLocal(c, e.r, f), n, k, m, ttl, Req(e.r, e.scopes, usd, tok, b, Unix(c.clock), p, false, false));
    }
  }

  lemma ReqAdded(c: Fleet, n: nat, k: string, m: int, ttl: int, q: Req)
    requires Inv(c, n, k, m, ttl) && q.replica < n && FixedCap(q.scopes, k, m) && !q.released
    requires q.phase.Checked? || q.phase.Uncapped?
    ensures Inv(c.(reqs := c.reqs + [q]), n, k, m, ttl)
  {
    assert (c.reqs + [q])[..|c.reqs|] == c.reqs;
    forall j: nat, k2 {:trigger Inflight(c.locals[j], k2)} | j < n
      ensures Inflight(c.locals[j], k2) == SumSlots(c.reqs + [q], j, k2)
    {
      assert Slots(q, j, k2) == 0;
    }
  }

  lemma AskedForSlot(scopes: seq<Scope>, k: string, m: int)
    requires FixedCap(scopes, k, m) && m > 0
    ensures HoldsSlot(SharedCaps(scopes), k) <==> k in ScopeKeys(scopes)
    ensures forall c :: c in SharedCaps(scopes) && c.key == k ==> c.conc == m
  {
    if k in ScopeKeys(scopes) {
      var i :| 0 <= i < |scopes| && ScopeKeys(scopes)[i] == k;
      assert CapFor(scopes[i]) in SharedCaps(scopes);
    }
    if HoldsSlot(SharedCaps(scopes), k) {
      var sc :| sc in scopes && StoreCapped(sc.limits) && sc.key == k;
      var i :| 0 <= i < |scopes| && scopes[i] == sc;
      assert ScopeKeys(scopes)[i] == k;
    }
  }

  /** The reserve script keeps the number of unexpired holds within the cap. */
  lemma ReserveKeepsLive(s: Shared, scopes: seq<Scope>, usd: real, tok: int, id: string, now: int, ttl: int, k: string, m: int)
    requires FixedCap(scopes, k, m) && m > 0 && |Live(s, k, now)| <= m
    ensures var (s', a) := SharedSpec.Reserve(s, SharedCaps(scopes), usd, tok, id, now, ttl);
            && |Live(s', k, now)| <= m
            && (a.Breach? ==> s' == s)
            && (a == Reserved ==>
                  HoldsAt(s', k) == if k in ScopeKeys(scopes) then HoldsAt(s, k)[id := now + ttl] else HoldsAt(s, k))
  {
    var caps := SharedCaps(scopes);
    var (s', a) := SharedSpec.Reserve(s, caps, usd, tok, id, now, ttl);
    if a == Reserved {
      CheckAllPasses(s, caps, usd, tok, now);
      ReserveAllHolds(s, caps, usd, tok, id, now, ttl, k);
      AskedForSlot(scopes, k, m);
      if HoldsSlot(caps, k) {
        var c :| c in caps && c.key == k && c.conc > 0;
        assert CheckOne(s, c, usd, tok, now) == Reserved && |Live(s, k, now)| < m;
        assert Live(s', k, now) <= Live(s, k, now) + {id};
        KillStore.SubsetSize(Live(s', k, now), Live(s, k, now) + {id});
      } else {
        assert Live(s', k, now) == Live(s, k, now);
      }
    }
  }

  /** A request newly admitted by the store brings its own hold and disturbs no other. */
  lemma BackedReserved(c: Fleet, i: nat, fault: Fault, k: string, m: int, ttl: int)
    requires i < |c.reqs| && c.reqs[i].phase.Checked? && FixedCap(c.reqs[i].scopes, k, m) && m > 0
    requires HoldsBacked(c.shared, c.reqs, k, Unix(c.clock), ttl) && |Live(c.shared, k, Unix(c.clock))| <= m
    ensures var c' := DoAskStore(c, i, fault, ttl); HoldsBacked(c'.shared, c'.reqs, k, Unix(c.clock), ttl)
  {
    var q, now := c.reqs[i], Unix(c.clock);
    ReserveKeepsLive(c.shared, q.scopes, q.usd, q.tok, HoldID(i), now, ttl, k, m);
    var c' := DoAskStore(c, i, fault, ttl);
    forall j: nat {:trigger HoldID(j)} | j < |c'.reqs| && YoungInStore(c'.reqs[j], k, now, ttl)
      ensures HoldID(j) in HoldsAt(c'.shared, k) && HoldsAt(c'.shared, k)[HoldID(j)] == c'.reqs[j].at + ttl
    {
      if j != i {
        if HoldID(j) == HoldID(i) {
          Keys.ItoaInjective(i, j);
        }
        assert YoungInStore(c.reqs[j], k, now, ttl);
      }
    }
  }

  lemma LocalsValid(c: Fleet, n: nat, k: string, m: int, ttl: int)
    requires Inv(c, n, k, m, ttl)
    ensures forall r :: 0 <= r < n ==> ValidFw(c.locals[r])
  {
  }

  lemma AskStoreKeepsInv(c: Fleet, i: nat, fault: Fault, n: nat, k: string, m: int, ttl: int)
    requires Inv(c, n, k, m, ttl) && i < |c.reqs| && c.reqs[i].phase.Checked? && m > 0
    ensures Inv(DoAskStore(c, i, fault, ttl), n, k, m, ttl)
  {
    hide CountersExact, HoldsBacked, SharedSpec.Reserve, FixedCap;
    var q := c.reqs[i];
    ReserveKeepsLive(c.shared, q.scopes, q.usd, q.tok, HoldID(i), Unix(c.clock), ttl, k, m);
    var c' := DoAskStore(c, i, fault, ttl);
    BackedReserved(c, i, fault, k, m, ttl);
    LocalsValid(c, n, k, m, ttl);
    CountersMoved(c.locals, c.reqs, i, c'.reqs[i], c.locals[q.replica]);
    assert c.locals[q.replica := c.locals[q.replica]] == c.locals;
  }

  lemma FallBackKeepsInv(c: Fleet, i: nat, n: nat, k: string, m: int, ttl: int)
    requires Inv(c, n, k, m, ttl) && i < |c.reqs| && c.reqs[i].phase.Unreachable? && m > 0
    ensures Inv(DoFallBack(c, i), n, k, m, ttl)
  {
    var q := c.reqs[i];
    var f := c.locals[q.replica];
    CheckReserveReadings(f, q.scopes, q.usd, q.tok, c.clock);
    var (g, denied) := CheckReserve(f, q.scopes, q.usd, q.tok, c.clock);
    if denied.None? {
      FallBackRoom(f, q.scopes, q.usd, q.tok, c.clock, k, m);
      var q' := q.(phase := InMemory(ScopeKeys(q.scopes)), at := Unix(c.clock));
      SlotsMoved(c, n, k, m, ttl, i, q', g);
    } else {
      var h := Unreserved(g, q.budgetKey, q.usd);
      UnreservedCounts(g, q.budgetKey, q.usd);
      assert forall j :: Inflight(h, j) == Inflight(g, j) == Inflight(f, j);
      LocalMoved(c, n, k, m, ttl, q.replica, h);
      ReqMoved(SetLocal(c, q.replica, h), n, k, m, ttl, i, q.(phase := Gone, at := Unix(c.clock)));
    }
  }

  /** The instance's own check leaves room for what it admits. */
  lemma FallBackRoom(f: Fw, scopes: seq<Scope>, usd: real, tok: int, now: nat, k: string, m: int)
    requires ValidFw(f) && FixedCap(scopes, k, m) && m > 0 && Inflight(f, k) <= m
    requires CheckReserve(f, scopes, usd, tok, now).1.None?
    ensures Inflight(CheckReserve(f, scopes, usd, tok, now).0, k) <= m
  {
    CheckReserveReadings(f, scopes, usd, tok, now);
    CheckReservePasses(f, scopes, usd, tok, now);
    if k in ScopeKeys(scopes) {
      var i :| 0 <= i < |scopes| && ScopeKeys(scopes)[i] == k;
      assert ConcurrencyFits(f, scopes[i]);
    } else {
      assert multiset(ScopeKeys(scopes))[k] == 0;
    }
  }

  lemma SettleKeepsCounts(f: Fw, t: Ticket, usd: real, tok: int, now: nat)
    requires ValidFw(f)
    ensures var g := Settle(f, t, usd, tok, now).0; ValidFw(g) && SameCounts(f, g)
  {
    BookAllReadings(f, t.keys, Unix(now), usd - t.usd, tok - t.tok);
    var h := BookAll(f, t.keys, Unix(now), usd - t.usd, tok - t.tok);
    assert forall j :: Inflight(SettleRun(h, t.runKey, t.usd, usd), j) == Inflight(h, j) == Inflight(f, j);
  }

  lemma UnreservedCounts(f: Fw, b: string, usd: real)
    ensures SameCounts(f, Unreserved(f, b, usd))
  {
  }

  lemma ReleaseFreesCounts(f: Fw, t: Ticket, now: nat)
    requires ValidFw(f) && (!t.released ==> forall k :: Inflight(f, k) >= multiset(t.keys)[k])
    ensures var g := FirewallSpec.Release(f, t, now).0;
            && ValidFw(g)
            && forall k {:trigger Inflight(g, k)} :: Inflight(g, k) == Inflight(f, k) - if t.released then 0 else multiset(t.keys)[k]
  {
    if !t.released {
      ReleaseAllReadings(f, t.keys, !t.settled, t.usd, t.tok, Unix(now));
      var h := ReleaseAll(f, t.keys, !t.settled, t.usd, t.tok, Unix(now));
      assert SameCounts(h, Unreserved(h, t.runKey, t.usd));
    }
  }

  lemma SettleKeepsInv(c: Fleet, i: nat, usd: real, tok: int, n: nat, k: string, m: int, ttl: int)
    requires Inv(c, n, k, m, ttl) && i < |c.reqs| && Admitted(c.reqs[i])
    ensures var (f, t) := Settle(c.locals[c.reqs[i].replica], TicketOf(c.reqs[i]), usd, tok, c.clock);
            Inv(Reconciled(c, i, f, t), n, k, m, ttl)
  {
    var q := c.reqs[i];
    var (f, t) := Settle(c.locals[q.replica], TicketOf(q), usd, tok, c.clock);
    SettleKeepsCounts(c.locals[q.replica], TicketOf(q), usd, tok, c.clock);
    assert Inflight(f, k) == Inflight(c.locals[q.replica], k);
    SlotsMoved(c, n, k, m, ttl, i, q.(settled := t.settled, released := t.released), f);
  }

  lemma ReleaseKeepsInv(c: Fleet, i: nat, n: nat, k: string, m: int, ttl: int)
    requires Inv(c, n, k, m, ttl) && i < |c.reqs| && Admitted(c.reqs[i])
    ensures var (f, t) := FirewallSpec.Release(c.locals[c.reqs[i].replica], TicketOf(c.reqs[i]), c.clock);
            Inv(Reconciled(c, i, f, t), n, k, m, ttl)
  {
    var q := c.reqs[i];
    var r, old_t := q.replica, TicketOf(q);
    var (f, t) := FirewallSpec.Release(c.locals[r], old_t, c.clock);
    forall k2
      ensures !q.released ==> Inflight(c.locals[r], k2) >= multiset(old_t.keys)[k2]
    {
      SumSlotsUpdate(c.reqs, i, q, r, k2);
    }
    ReleaseFreesCounts(c.locals[r], old_t, c.clock);
    assert Inflight(f, k) <= Inflight(c.locals[r], k);
    SlotsMoved(c, n, k, m, ttl, i, q.(settled := t.settled, released := t.released), f);
  }

  lemma StoreMoved(c: Fleet, s: Shared, n: nat, k: string, m: int, ttl: int)
    requires Inv(c, n, k, m, ttl) && HoldsBacked(s, c.reqs, k, Unix(c.clock), ttl)
    requires Live(s, k, Unix(c.clock)) <= Live(c.shared, k, Unix(c.clock))
    ensures Inv(c.(shared := s), n, k, m, ttl)
  {
    KillStore.SubsetSize(Live(s, k, Unix(c.clock)), Live(c.shared, k, Unix(c.clock)));
  }

  lemma StoreFreeKeepsInv(c: Fleet, i: nat, n: nat, k: string, m: int, ttl: int)
    requires Inv(c, n, k, m, ttl) && i < |c.reqs| && c.reqs[i].released
    ensures Inv(c.(shared := FreeHolds(c.shared, CapKeys(SharedCaps(c.reqs[i].scopes)), HoldID(i))), n, k, m, ttl)
  {
    var ks := CapKeys(SharedCaps(c.reqs[i].scopes));
    var s := FreeHolds(c.shared, ks, HoldID(i));
    FreeHoldsLeavesOthers(c.shared, ks, HoldID(i), k);
    forall j: nat {:trigger HoldID(j)} | j < |c.reqs| && YoungInStore(c.reqs[j], k, Unix(c.clock), ttl)
      ensures HoldID(j) in HoldsAt(s, k) && HoldsAt(s, k)[HoldID(j)] == c.reqs[j].at + ttl
    {
      if HoldID(j) == HoldID(i) {
        Keys.ItoaInjective(i, j);
      }
    }
    StoreMoved(c, s, n, k, m, ttl);
  }

  lemma CrashKeepsInv(c: Fleet, dead: nat, n: nat, k: string, m: int, ttl: int)
    requires Inv(c, n, k, m, ttl) && dead < n && m > 0
    ensures Inv(SetLocal(c, dead, EmptyFw).(reqs := Crashed(c.reqs, dead)), n, k, m, ttl)
  {
    var c' := SetLocal(c, dead, EmptyFw).(reqs := Crashed(c.reqs, dead));
    forall j: nat, k2 {:trigger Inflight(c'.locals[j], k2)} | j < n
      ensures Inflight(c'.locals[j], k2) == SumSlots(c'.reqs, j, k2)
    {
      SumSlotsCrash(c.reqs, dead, j, k2);
      assert j != dead ==> Inflight(c.locals[j], k2) == SumSlots(c.reqs, j, k2);
    }
    assert forall j :: 0 <= j < |c.reqs| && YoungInStore(c'.reqs[j], k, Unix(c.clock), ttl) ==>
             YoungInStore(c.reqs[j], k, Unix(c.clock), ttl) && c'.reqs[j].at == c.reqs[j].at;
  }

  lemma PassKeepsInv(c: Fleet, ns: nat, n: nat, k: string, m: int, ttl: int)
    requires Inv(c, n, k, m, ttl)
    ensures Inv(c.(clock := c.clock + ns), n, k, m, ttl)
  {
    var now, later := Unix(c.clock), Unix(c.clock + ns);
    assert now <= later;
    assert Live(c.shared, k, later) <= Live(c.shared, k, now);
    KillStore.SubsetSize(Live(c.shared, k, later), Live(c.shared, k, now));
    assert forall j :: 0 <= j < |c.reqs| && YoungInStore(c.reqs[j], k, later, ttl) ==> YoungInStore(c.reqs[j], k, now, ttl);
  }

  lemma RollBackKeepsInv(c: Fleet, i: nat, n: nat, k: string, m: int, ttl: int)
    requires Inv(c, n, k, m, ttl) && i < |c.reqs| && c.reqs[i].phase.Refused?
    ensures var q := c.reqs[i];
            Inv(SetPhase(SetLocal(c, q.replica, Unreserved(c.locals[q.replica], q.budgetKey, q.usd)), i, Gone), n, k, m, ttl)
  {
    hide CountersExact, LocalsCapped, HoldsBacked;
    var q := c.reqs[i];
    var h := Unreserved(c.locals[q.replica], q.budgetKey, q.usd);
    UnreservedCounts(c.locals[q.replica], q.budgetKey, q.usd);
    LocalsValid(c, n, k, m, ttl);
    LocalMoved(c, n, k, m, ttl, q.replica, h);
    ReqMoved(SetLocal(c, q.replica, h), n, k, m, ttl, i, q.(phase := Gone, at := Unix(c.clock)));
  }

  lemma AdjustKeepsInv(c: Fleet, ks: seq<string>, dUSD: real, dTok: int, n: nat, k: string, m: int, ttl: int)
    requires Inv(c, n, k, m, ttl)
    ensures Inv(c.(shared := Adjust(c.shared, ks, dUSD, dTok, Unix(c.clock))), n, k, m, ttl)
  {
    hide CountersExact, LocalsCapped, Adjust;
    AdjustKeepsHolds(c.shared, ks, dUSD, dTok, Unix(c.clock));
    StoreMoved(c, Adjust(c.shared, ks, dUSD, dTok, Unix(c.clock)), n, k, m, ttl);
  }

  lemma StepKeepsInv(cfg: Config, ttl: int, c: Fleet, e: Event, n: nat, k: string, m: int)
    requires Inv(c, n, k, m, ttl) && m > 0 && (e.Arrive? ==> FixedCap(e.scopes, k, m))
    ensures Inv(Step(cfg, ttl, c, e), n, k, m, ttl)
  {
    hide CountersExact, LocalsCapped, HoldsBacked, DoArrive, DoAskStore, DoFallBack, Settle, FirewallSpec.Release, Adjust, FreeHolds, Unreserved;
    if Applies(c, e) {
      match e
      case Arrive(_, _, _, _, _, _, _) => ArriveKeepsInv(cfg, c, e, n, k, m, ttl);
      case AskStore(i, fault) => AskStoreKeepsInv(c, i, fault, n, k, m, ttl);
      case RollBack(i) => RollBackKeepsInv(c, i, n, k, m, ttl);
      case FallBack(i) => FallBackKeepsInv(c, i, n, k, m, ttl);
      case SettleReq(i, usd, tok) => SettleKeepsInv(c, i, usd, tok, n, k, m, ttl);
      case ReleaseReq(i) => ReleaseKeepsInv(c, i, n, k, m, ttl);
      case StoreFree(i) => StoreFreeKeepsInv(c, i, n, k, m, ttl);
      case StoreAdjust(ks, dUSD, dTok) =>
        AdjustKeepsInv(c, ks, dUSD, dTok, n, k, m, ttl);
      case Crash(r) => CrashKeepsInv(c, r, n, k, m, ttl);
      case Pass(ns) => PassKeepsInv(c, ns, n, k, m, ttl);
    }
  }

  ghost predicate FixedCaps(es: seq<Event>, k: string, m: int) {
    forall i :: 0 <= i < |es| && es[i].Arrive? ==> FixedCap(es[i].scopes, k, m)
  }

  lemma BootInv(n: nat, k: string, m: int, ttl: int)
    requires m > 0
    ensures Inv(Boot(n), n, k, m, ttl)
  {
  }

  lemma {:induction false} RunKeepsInv(cfg: Config, ttl: int, n: nat, es: seq<Event>, k: string, m: int)
    requires m > 0 && FixedCaps(es, k, m)
    ensures Inv(Run(cfg, ttl, n, es), n, k, m, ttl)
  {
    if es == [] {
      BootInv(n, k, m, ttl);
    } else {
      RunKeepsInv(cfg, ttl, n, es[..|es| - 1], k, m);
      StepKeepsInv(cfg, ttl, Run(cfg, ttl, n, es[..|es| - 1]), es[|es| - 1], n, k, m);
    }
  }
}
