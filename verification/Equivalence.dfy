/** One instance's own enforcement and the shared store, run side by side on the same calls:
    a modular ring and a counter against per-second hashes and expiring holds. They say the same
    to every request exactly when the instance never admits an oversized one unseen. */
module Equivalence {
  import opened WindowLog
  import opened FirewallSpec
  import opened FirewallSteps
  import opened FirewallAdmission
  import opened FirewallRuns
  import opened VelocityBound
  import opened SharedSpec
  import opened SharedMode
  import opened SameMinute
  import opened Keys

  datatype Call =
    | Ask(scopes: seq<Scope>, usd: real, tok: int, now: nat)
    | SettleAt(i: nat, usd: real, tok: int, now: nat)
    | ReleaseAt(i: nat, now: nat)

  type Caps = map<string, Limits>

  // ---- the local machine ------------------------------------------------------------------------------------

  datatype Local = Local(sys: Sys, said: seq<bool>)

  /** Velocity and concurrency only: no run, so no loop history and no budget. */
  function LocalAsk(f: Fw, cfg: Config, c: Call): (Fw, Verdict)
    requires c.Ask?
  {
    var (g, _, v) := EnterLocked(f, cfg, c.scopes, "", "", 0.0, Floor0(c.usd), ClampTok(c.tok), c.now);
    (g, v)
  }

  function LocalStep(cfg: Config, l: Local, c: Call): Local {
    match c
    case Ask(_, _, _, _) =>
      var (g, v) := LocalAsk(l.sys.fw, cfg, c);
      Local(Sys(g, if v.Admitted? then l.sys.tickets + [v.ticket] else l.sys.tickets), l.said + [v.Admitted?])
    case SettleAt(i, usd, tok, now) => l.(sys := Step(cfg, l.sys, SettleOp(i, usd, tok, now)))
    case ReleaseAt(i, now) => l.(sys := Step(cfg, l.sys, ReleaseOp(i, now)))
  }

  function LocalRun(cfg: Config, cs: seq<Call>): Local {
    if cs == [] then Local(Start, []) else LocalStep(cfg, LocalRun(cfg, cs[..|cs| - 1]), cs[|cs| - 1])
  }

  // ---- the shared machine -------------------------------------------------------------------------------------

  datatype STicket = STicket(keys: seq<string>, usd: real, tok: int, at: int, settled: bool, released: bool)

  datatype Store = Store(shared: Shared, tickets: seq<STicket>, said: seq<bool>)

  function StoreAsk(st: Store, c: Call, ttl: int): Store
    requires c.Ask?
  {
    var caps := SharedCaps(c.scopes);
    var usd, tok := Floor0(c.usd), ClampTok(c.tok);
    var (s, a) := if caps == [] then (st.shared, Reserved)
                  else SharedSpec.Reserve(st.shared, caps, usd, tok, HoldID(|st.tickets|), Unix(c.now), ttl);
    Store(s, if a == Reserved then st.tickets + [STicket(CapKeys(caps), usd, tok, Unix(c.now), false, false)] else st.tickets,
          st.said + [a == Reserved])
  }

  function StoreStep(st: Store, c: Call, ttl: int): Store {
    match c
    case Ask(_, _, _, _) => StoreAsk(st, c, ttl)
    case SettleAt(i, usd, tok, now) =>
      if i >= |st.tickets| || st.tickets[i].settled || st.tickets[i].released then st
      else
        var t := st.tickets[i];
        st.(shared := Adjust(st.shared, t.keys, usd - t.usd, tok - t.tok, Unix(now)),
            tickets := st.tickets[i := t.(settled := true)])
    case ReleaseAt(i, now) =>
      if i >= |st.tickets| || st.tickets[i].released then st
      else
        var t := st.tickets[i];
        st.(shared := SharedSpec.Release(st.shared, t.keys, HoldID(i), t.usd, t.tok, t.settled, Unix(now)),
            tickets := st.tickets[i := t.(released := true)])
  }

  function StoreRun(cs: seq<Call>, ttl: int): Store {
    if cs == [] then Store(EmptyShared, [], []) else StoreStep(StoreRun(cs[..|cs| - 1], ttl), cs[|cs| - 1], ttl)
  }

  // ---- what is asked of a run -----------------------------------------------------------------------------------

  ghost predicate Limited(lim: Caps, scopes: seq<Scope>) {
    forall sc :: sc in scopes ==> sc.key in lim && sc.limits == lim[sc.key]
  }

  /** Every scope has the caps fixed for its key, and no key comes twice in a chain. */
  ghost predicate Orderly(lim: Caps, c: Call) {
    c.Ask? ==> Distinct(ScopeKeys(c.scopes)) && Limited(lim, c.scopes)
  }

  /** When a request asks, every unreleased ticket's holds are still unexpired. */
  ghost predicate Timely(st: Store, c: Call, ttl: int) {
    c.Ask? ==> forall i :: 0 <= i < |st.tickets| && !st.tickets[i].released ==> Unix(c.now) < st.tickets[i].at + ttl
  }

  ghost predicate GoodRun(lim: Caps, cs: seq<Call>, ttl: int) {
    cs != [] ==>
      var pre, c := cs[..|cs| - 1], cs[|cs| - 1];
      && GoodRun(lim, pre, ttl)
      && Orderly(lim, c) && Timely(StoreRun(pre, ttl), c, ttl)
      && (c.SettleAt? ==> c.usd >= 0.0)
      && (pre != [] ==> pre[|pre| - 1].now <= c.now)
  }

  /** The estimate is no larger than the velocity caps of the scope. */
  predicate FitsAlone(sc: Scope, usd: real, tok: int) {
    && (sc.limits.usdPerMin > 0.0 ==> usd <= sc.limits.usdPerMin)
    && (sc.limits.tokPerMin > 0 ==> tok <= sc.limits.tokPerMin)
  }

  /** Whatever the instance has no window for fits its caps alone. */
  ghost predicate UnseenFit(f: Fw, scopes: seq<Scope>, usd: real, tok: int) {
    forall sc :: sc in scopes && sc.key !in f.scopes ==> FitsAlone(sc, usd, tok)
  }

  /** The instance does not admit a request too large for a scope it has no window for. */
  ghost predicate NotBlind(cfg: Config, f: Fw, c: Call) {
    c.Ask? && LocalAsk(f, cfg, c).1.Admitted? ==> UnseenFit(GC(f, cfg, c.now), c.scopes, Floor0(c.usd), ClampTok(c.tok))
  }

  ghost predicate NeverBlind(cfg: Config, cs: seq<Call>) {
    cs != [] ==>
      var pre := cs[..|cs| - 1];
      NeverBlind(cfg, pre) && NotBlind(cfg, LocalRun(cfg, pre).sys.fw, cs[|cs| - 1])
  }

  // ---- agreement --------------------------------------------------------------------------------------------------

  ghost predicate LogsAgree(f: Fw, s: Shared, lim: Caps, sec: int) {
    forall k, d {:trigger LogOf(f, k, d)} {:trigger LogAt(s, d, k)} ::
      k in lim && CapOf(lim[k], d) > 0.0 ==> Agree(LogOf(f, k, d), LogAt(s, d, k), sec)
  }

  /** The holds of k are those of the unreleased tickets naming it. */
  function HoldsOf(ts: seq<Ticket>, k: string, ttl: int): Holds {
    if ts == [] then map[]
    else
      var n := |ts| - 1;
      var h := HoldsOf(ts[..n], k, ttl);
      if !ts[n].released && k in ts[n].keys then h[HoldID(n) := ts[n].at + ttl] else h
  }

  ghost predicate HoldsAgree(s: Shared, ts: seq<Ticket>, lim: Caps, ttl: int) {
    forall k {:trigger HoldsAt(s, k)} :: k in lim && lim[k].concurrent > 0 ==> HoldsAt(s, k) == HoldsOf(ts, k, ttl)
  }

  /** The two machines hold the same ticket; the store's names only the scopes it caps. */
  ghost predicate SameTicket(t: Ticket, u: STicket, lim: Caps) {
    && t.runKey == "" && t.usd == u.usd && t.tok == u.tok && t.at == u.at
    && t.settled == u.settled && t.released == u.released
    && Distinct(t.keys) && Distinct(u.keys)
    && (forall k :: k in t.keys ==> k in lim)
    && forall k :: k in u.keys <==> k in t.keys && StoreCapped(lim[k])
  }

  ghost predicate SameTickets(ts: seq<Ticket>, us: seq<STicket>, lim: Caps) {
    |ts| == |us| && forall i {:trigger ts[i]} {:trigger us[i]} :: 0 <= i < |ts| ==> SameTicket(ts[i], us[i], lim)
  }

  ghost predicate Match(l: Sys, st: Store, lim: Caps, sec: int, ttl: int) {
    && NotPast(l.fw, sec)
    && LogsAgree(l.fw, st.shared, lim, sec)
    && HoldsAgree(st.shared, l.tickets, lim, ttl)
    && SameTickets(l.tickets, st.tickets, lim)
  }

  ghost predicate Agrees(l: Sys, st: Store, lim: Caps, sec: int, ttl: int) {
    Inv(l) && Match(l, st, lim, sec, ttl)
  }

  // ---- counting holds -----------------------------------------------------------------------------------------------

  lemma {:induction false} HoldsOfIDs(ts: seq<Ticket>, k: string, ttl: int, id: string) returns (i: nat)
    requires id in HoldsOf(ts, k, ttl)
    ensures i < |ts| && id == HoldID(i) && !ts[i].released && k in ts[i].keys && HoldsOf(ts, k, ttl)[id] == ts[i].at + ttl
  {
    var n := |ts| - 1;
    if !ts[n].released && k in ts[n].keys && id == HoldID(n) {
      i := n;
    } else {
      i := HoldsOfIDs(ts[..n], k, ttl, id);
    }
  }

  lemma {:induction false} HoldsCounted(ts: seq<Ticket>, k: string, ttl: int)
    requires forall i :: 0 <= i < |ts| ==> Distinct(ts[i].keys)
    ensures |HoldsOf(ts, k, ttl)| as real == SumOf(HeldOn(k), ts)
  {
    if ts != [] {
      var n := |ts| - 1;
      HoldsCounted(ts[..n], k, ttl);
      OccursOnce(ts[n].keys, k);
      if HoldID(n) in HoldsOf(ts[..n], k, ttl) {
        var i := HoldsOfIDs(ts[..n], k, ttl, HoldID(n));
        ItoaInjective(n, i);
      }
    }
  }

  /** The instance's counter is the number of the store's unexpired holds. */
  lemma CountIsLive(l: Sys, st: Store, lim: Caps, sec: int, ttl: int, k: string, now: int)
    requires Agrees(l, st, lim, sec, ttl) && k in lim && lim[k].concurrent > 0
    requires forall i :: 0 <= i < |st.tickets| && !st.tickets[i].released ==> now < st.tickets[i].at + ttl
    ensures |Live(st.shared, k, now)| == Inflight(l.fw, k)
  {
    var h := HoldsOf(l.tickets, k, ttl);
    assert HoldsAt(st.shared, k) == h;
    forall id | id in h
      ensures h[id] > now
    {
      var i := HoldsOfIDs(l.tickets, k, ttl, id);
      assert SameTicket(l.tickets[i], st.tickets[i], lim);
    }
    assert Live(st.shared, k, now) == h.Keys;
    forall i | 0 <= i < |l.tickets|
      ensures Distinct(l.tickets[i].keys)
    {
      assert SameTicket(l.tickets[i], st.tickets[i], lim);
    }
    HoldsCounted(l.tickets, k, ttl);
    assert Inflight(l.fw, k) as real == SumOf(HeldOn(k), l.tickets);
  }

  // ---- asking -----------------------------------------------------------------------------------------------------------

  /** The sweep forgets nothing that either side still counts. */
  lemma SweepAgrees(cfg: Config, l: Sys, st: Store, lim: Caps, sec: int, ttl: int, now: nat)
    requires Agrees(l, st, lim, sec, ttl) && sec <= Unix(now)
    ensures Agrees(l.(fw := GC(l.fw, cfg, now)), st, lim, Unix(now), ttl)
  {
    var f, g, n := l.fw, GC(l.fw, cfg, now), Unix(now);
    GCReadings(f, cfg, now);
    SweepKeepsInv(l, g);
    forall k, d {:trigger LogOf(g, k, d)} {:trigger LogAt(st.shared, d, k)} | k in lim && CapOf(lim[k], d) > 0.0
      ensures Agree(LogOf(g, k, d), LogAt(st.shared, d, k), n)
    {
      assert Agree(LogOf(f, k, d), LogAt(st.shared, d, k), sec);
      if k in f.scopes && k !in g.scopes {
        ReadingIsWindowSum(f, k, n);
        AgreeForgotten(LogOf(f, k, d), LogAt(st.shared, d, k), n);
      }
    }
  }

  /** One scope: the store lets the estimate pass exactly when the instance does and the scope
      is not an unseen one that is too small. */
  lemma ScopeAgrees(l: Sys, st: Store, lim: Caps, ttl: int, sc: Scope, usd: real, tok: int, now: int)
    requires Agrees(l, st, lim, now, ttl) && sc.key in lim && sc.limits == lim[sc.key] && StoreCapped(sc.limits)
    requires forall i :: 0 <= i < |st.tickets| && !st.tickets[i].released ==> now < st.tickets[i].at + ttl
    ensures VelocityFits(l.fw, sc, usd, tok, now) && ConcurrencyFits(l.fw, sc) && (sc.key !in l.fw.scopes ==> FitsAlone(sc, usd, tok)) <==>
            CheckOne(st.shared, CapFor(sc), usd, tok, now) == Reserved
  {
    ReadingIsWindowSum(l.fw, sc.key, now);
    if sc.limits.usdPerMin > 0.0 {
      assert Agree(LogOf(l.fw, sc.key, Dollars), LogAt(st.shared, Dollars, sc.key), now);
      AgreedSums(LogOf(l.fw, sc.key, Dollars), LogAt(st.shared, Dollars, sc.key), now);
    }
    if sc.limits.tokPerMin > 0 {
      assert CapOf(lim[sc.key], Tokens) > 0.0;
      assert Agree(LogOf(l.fw, sc.key, Tokens), LogAt(st.shared, Tokens, sc.key), now);
      AgreedSums(LogOf(l.fw, sc.key, Tokens), LogAt(st.shared, Tokens, sc.key), now);
    }
    if sc.limits.concurrent > 0 {
      CountIsLive(l, st, lim, now, ttl, sc.key, now);
    }
  }

  ghost predicate SeenFits(f: Fw, sc: Scope, usd: real, tok: int, sec: int) {
    VelocityFits(f, sc, usd, tok, sec) && ConcurrencyFits(f, sc) && (sc.key !in f.scopes ==> FitsAlone(sc, usd, tok))
  }

  lemma ChainAgrees(l: Sys, st: Store, lim: Caps, ttl: int, c: Call)
    requires c.Ask? && Agrees(l, st, lim, Unix(c.now), ttl) && Orderly(lim, c) && Timely(st, c, ttl)
    ensures ChainFits(l.fw, c.scopes, Floor0(c.usd), ClampTok(c.tok), Unix(c.now))
            && UnseenFit(l.fw, c.scopes, Floor0(c.usd), ClampTok(c.tok)) <==>
            CheckAll(st.shared, SharedCaps(c.scopes), Floor0(c.usd), ClampTok(c.tok), Unix(c.now)) == Reserved
  {
    var usd, tok, now, caps := Floor0(c.usd), ClampTok(c.tok), Unix(c.now), SharedCaps(c.scopes);
    CheckAllPasses(st.shared, caps, usd, tok, now);
    forall sc | sc in c.scopes
      ensures SeenFits(l.fw, sc, usd, tok, now) <==> (StoreCapped(sc.limits) ==> CheckOne(st.shared, CapFor(sc), usd, tok, now) == Reserved)
    {
      if StoreCapped(sc.limits) {
        ScopeAgrees(l, st, lim, ttl, sc, usd, tok, now);
      }
    }
    hide VelocityFits, ConcurrencyFits, FitsAlone, CheckOne, Agrees, Timely;
    assert forall x :: x in caps <==> exists sc :: sc in c.scopes && StoreCapped(sc.limits) && x == CapFor(sc);
    if forall sc :: sc in c.scopes ==> SeenFits(l.fw, sc, usd, tok, now) {
      forall x | x in caps
        ensures CheckOne(st.shared, x, usd, tok, now) == Reserved
      {
        var sc :| sc in c.scopes && StoreCapped(sc.limits) && x == CapFor(sc);
        assert SeenFits(l.fw, sc, usd, tok, now);
      }
    }
    if CheckAll(st.shared, caps, usd, tok, now) == Reserved {
      forall sc | sc in c.scopes
        ensures SeenFits(l.fw, sc, usd, tok, now)
      {
        if StoreCapped(sc.limits) {
          assert CapFor(sc) in caps;
        }
      }
    }
  }

  // ---- admitting ----------------------------------------------------------------------------------------------------------

  lemma AskKeepsInv(cfg: Config, l: Sys, c: Call)
    requires Inv(l) && c.Ask?
    ensures var (g, v) := LocalAsk(l.fw, cfg, c);
            Inv(Sys(g, if v.Admitted? then l.tickets + [v.ticket] else l.tickets))
  {
    var b := GC(l.fw, cfg, c.now);
    var (g, v) := LocalAsk(l.fw, cfg, c);
    GCReadings(l.fw, cfg, c.now);
    SweepKeepsInv(l, b);
    RunUSDNonNegative(l);
    EnterLockedReadings(l.fw, cfg, c.scopes, "", "", 0.0, Floor0(c.usd), ClampTok(c.tok), c.now);
    if v.Denied? {
      SameReadingsKeepInv(l.(fw := b), g, Unix(c.now));
    } else {
      AdmitKeepsInv(l.(fw := b), g, v.ticket);
    }
  }

  lemma {:induction false} CapsDistinct(scopes: seq<Scope>)
    requires Distinct(ScopeKeys(scopes))
    ensures DistinctCaps(SharedCaps(scopes)) && Distinct(CapKeys(SharedCaps(scopes)))
  {
    if scopes != [] {
      DistinctTail(ScopeKeys(scopes));
      assert ScopeKeys(scopes)[1..] == ScopeKeys(scopes[1..]);
      CapsDistinct(scopes[1..]);
      forall x | x in SharedCaps(scopes[1..])
        ensures x.key != scopes[0].key
      {
        var sc :| sc in scopes[1..] && x == CapFor(sc);
      }
    }
  }

  lemma CapsListed(lim: Caps, scopes: seq<Scope>, k: string)
    requires Limited(lim, scopes) && k in lim
    ensures forall d :: CapOf(lim[k], d) > 0.0 ==> (Bounds(SharedCaps(scopes), k, d) <==> k in ScopeKeys(scopes))
    ensures lim[k].concurrent > 0 ==> (HoldsSlot(SharedCaps(scopes), k) <==> k in ScopeKeys(scopes))
    ensures k in CapKeys(SharedCaps(scopes)) <==> k in ScopeKeys(scopes) && StoreCapped(lim[k])
  {
    var caps := SharedCaps(scopes);
    if k in ScopeKeys(scopes) {
      var sc := NamedScope(scopes, k);
      if StoreCapped(lim[k]) {
        assert CapFor(sc) in caps;
        var i :| 0 <= i < |caps| && caps[i] == CapFor(sc);
        assert CapKeys(caps)[i] == k;
      }
    }
    forall x | x in caps && x.key == k
      ensures k in ScopeKeys(scopes) && StoreCapped(lim[k])
    {
      var sc :| sc in scopes && StoreCapped(sc.limits) && x == CapFor(sc);
    }
    if k in CapKeys(caps) {
      var i :| 0 <= i < |caps| && CapKeys(caps)[i] == k;
      assert caps[i] in caps;
    }
  }

  lemma KeysLimited(lim: Caps, scopes: seq<Scope>)
    requires Limited(lim, scopes)
    ensures forall k :: k in ScopeKeys(scopes) ==> k in lim
    ensures forall k :: k in CapKeys(SharedCaps(scopes)) ==> k in lim
  {
    forall k | k in ScopeKeys(scopes)
      ensures k in lim
    {
      var sc := NamedScope(scopes, k);
    }
    forall k | k in CapKeys(SharedCaps(scopes))
      ensures k in lim
    {
      var i :| 0 <= i < |SharedCaps(scopes)| && CapKeys(SharedCaps(scopes))[i] == k;
      assert SharedCaps(scopes)[i] in SharedCaps(scopes);
      var sc :| sc in scopes && StoreCapped(sc.limits) && SharedCaps(scopes)[i] == CapFor(sc);
    }
  }

  /** What both sides hold of an admitted request. */
  lemma AdmittedTickets(lim: Caps, c: Call)
    requires c.Ask? && Orderly(lim, c)
    ensures SameTicket(Ticket(ScopeKeys(c.scopes), "", Floor0(c.usd), ClampTok(c.tok), Unix(c.now), false, false),
                       STicket(CapKeys(SharedCaps(c.scopes)), Floor0(c.usd), ClampTok(c.tok), Unix(c.now), false, false), lim)
  {
    CapsDistinct(c.scopes);
    KeysLimited(lim, c.scopes);
    forall k
      ensures k in CapKeys(SharedCaps(c.scopes)) <==> k in ScopeKeys(c.scopes) && StoreCapped(lim[k])
    {
      if k in lim {
        CapsListed(lim, c.scopes, k);
      }
    }
  }

  lemma ReservedLogsAgree(f: Fw, s: Shared, lim: Caps, c: Call, id: string, ttl: int)
    requires c.Ask? && Orderly(lim, c) && NotPast(f, Unix(c.now)) && LogsAgree(f, s, lim, Unix(c.now))
    ensures var usd, tok := Floor0(c.usd), ClampTok(c.tok);
            var g := FirewallSpec.ReserveAll(f, c.scopes, usd, tok, c.now);
            && NotPast(g, Unix(c.now))
            && LogsAgree(g, SharedSpec.ReserveAll(s, SharedCaps(c.scopes), usd, tok, id, Unix(c.now), ttl), lim, Unix(c.now))
  {
    var usd, tok, n, caps := Floor0(c.usd), ClampTok(c.tok), Unix(c.now), SharedCaps(c.scopes);
    var g := FirewallSpec.ReserveAll(f, c.scopes, usd, tok, c.now);
    var s' := SharedSpec.ReserveAll(s, caps, usd, tok, id, n, ttl);
    CapsDistinct(c.scopes);
    ReserveAllAppends(f, c.scopes, usd, tok, c.now, "", Dollars);
    forall k, d {:trigger LogOf(g, k, d)} {:trigger LogAt(s', d, k)} | k in lim && CapOf(lim[k], d) > 0.0
      ensures Agree(LogOf(g, k, d), LogAt(s', d, k), n)
    {
      ReserveAllAppends(f, c.scopes, usd, tok, c.now, k, d);
      StoreReserveAppends(s, caps, usd, tok, id, n, ttl, k, d);
      CapsListed(lim, c.scopes, k);
      AgreeAppend(LogOf(f, k, d), LogAt(s, d, k), n, Amount(usd, tok, d));
    }
  }

  lemma SlotListed(lim: Caps, scopes: seq<Scope>, k: string)
    requires Limited(lim, scopes) && k in lim && lim[k].concurrent > 0
    ensures HoldsSlot(SharedCaps(scopes), k) <==> k in ScopeKeys(scopes)
  {
    CapsListed(lim, scopes, k);
  }

  lemma HoldsOfAppend(ts: seq<Ticket>, t: Ticket, k: string, ttl: int)
    requires !t.released
    ensures HoldsOf(ts + [t], k, ttl) ==
            if k in t.keys then HoldsOf(ts, k, ttl)[HoldID(|ts|) := t.at + ttl] else HoldsOf(ts, k, ttl)
  {
    assert (ts + [t])[..|ts|] == ts;
  }

  lemma ReservedHoldsAgree(s: Shared, ts: seq<Ticket>, t: Ticket, lim: Caps, c: Call, ttl: int)
    requires c.Ask? && Limited(lim, c.scopes) && HoldsAgree(s, ts, lim, ttl)
    requires t.keys == ScopeKeys(c.scopes) && t.at == Unix(c.now) && !t.released
    ensures HoldsAgree(SharedSpec.ReserveAll(s, SharedCaps(c.scopes), Floor0(c.usd), ClampTok(c.tok), HoldID(|ts|), Unix(c.now), ttl),
                       ts + [t], lim, ttl)
  {
    hide HoldsSlot, Limited, SharedSpec.ReserveAll, HoldsOf;
    var s' := SharedSpec.ReserveAll(s, SharedCaps(c.scopes), Floor0(c.usd), ClampTok(c.tok), HoldID(|ts|), Unix(c.now), ttl);
    forall k {:trigger HoldsAt(s', k)} | k in lim && lim[k].concurrent > 0
      ensures HoldsAt(s', k) == HoldsOf(ts + [t], k, ttl)
    {
      ReserveAllHolds(s, SharedCaps(c.scopes), Floor0(c.usd), ClampTok(c.tok), HoldID(|ts|), Unix(c.now), ttl, k);
      SlotListed(lim, c.scopes, k);
      HoldsOfAppend(ts, t, k, ttl);
    }
  }

  lemma SameLogsAgree(f: Fw, g: Fw, s: Shared, lim: Caps, sec: int)
    requires LogsAgree(f, s, lim, sec) && SameLogs(f, g, Dollars) && SameLogs(f, g, Tokens)
    ensures LogsAgree(g, s, lim, sec)
  {
    assert forall k, d :: LogOf(g, k, d) == LogOf(f, k, d);
  }

  /** The answers, decided on the same state. */
  lemma AnswersAre(cfg: Config, l: Local, st: Store, lim: Caps, sec: int, ttl: int, c: Call)
    requires Agrees(l.sys, st, lim, sec, ttl) && c.Ask? && sec <= Unix(c.now)
    requires Orderly(lim, c) && Timely(st, c, ttl)
    ensures var b, usd, tok := GC(l.sys.fw, cfg, c.now), Floor0(c.usd), ClampTok(c.tok);
            && Agrees(l.sys.(fw := b), st, lim, Unix(c.now), ttl)
            && LocalAsk(l.sys.fw, cfg, c).1.Admitted? == CheckReserve(b, c.scopes, usd, tok, c.now).1.None?
            && (CheckAll(st.shared, SharedCaps(c.scopes), usd, tok, Unix(c.now)) == Reserved <==>
                LocalAsk(l.sys.fw, cfg, c).1.Admitted? && UnseenFit(b, c.scopes, usd, tok))
  {
    var b := GC(l.sys.fw, cfg, c.now);
    SweepAgrees(cfg, l.sys, st, lim, sec, ttl, c.now);
    ChainAgrees(l.sys.(fw := b), st, lim, ttl, c);
    CheckReservePasses(b, c.scopes, Floor0(c.usd), ClampTok(c.tok), c.now);
  }

  /** The two answers are the same if and only if the instance does not admit a request too large
      for a scope it has no window for; then both sides agree afterwards. */
  lemma AskAgrees(cfg: Config, l: Local, st: Store, lim: Caps, sec: int, ttl: int, c: Call)
    requires Agrees(l.sys, st, lim, sec, ttl) && l.said == st.said && c.Ask? && sec <= Unix(c.now)
    requires Orderly(lim, c) && Timely(st, c, ttl)
    ensures LocalStep(cfg, l, c).said == StoreStep(st, c, ttl).said <==> NotBlind(cfg, l.sys.fw, c)
    ensures NotBlind(cfg, l.sys.fw, c) ==> Agrees(LocalStep(cfg, l, c).sys, StoreStep(st, c, ttl), lim, Unix(c.now), ttl)
  {
    AnswersAre(cfg, l, st, lim, sec, ttl, c);
    AnswersDiffer(cfg, l, st, lim, sec, ttl, c);
    if NotBlind(cfg, l.sys.fw, c) {
      AskKeepsAgreement(cfg, l, st, lim, ttl, c);
    }
  }

  lemma AnswersDiffer(cfg: Config, l: Local, st: Store, lim: Caps, sec: int, ttl: int, c: Call)
    requires Agrees(l.sys, st, lim, sec, ttl) && l.said == st.said && c.Ask? && sec <= Unix(c.now)
    requires Orderly(lim, c) && Timely(st, c, ttl)
    ensures LocalStep(cfg, l, c).said == StoreStep(st, c, ttl).said <==> NotBlind(cfg, l.sys.fw, c)
  {
    AnswersAre(cfg, l, st, lim, sec, ttl, c);
    hide LocalAsk, GC, SharedSpec.ReserveAll, UnseenFit;
    var a, b := LocalAsk(l.sys.fw, cfg, c).1.Admitted?, CheckAll(st.shared, SharedCaps(c.scopes), Floor0(c.usd), ClampTok(c.tok), Unix(c.now)) == Reserved;
    assert LocalStep(cfg, l, c).said == l.said + [a];
    assert StoreStep(st, c, ttl).said == st.said + [b];
    assert (l.said + [a])[|l.said|] == a && (l.said + [b])[|l.said|] == b;
  }

  lemma AskKeepsAgreement(cfg: Config, l: Local, st: Store, lim: Caps, ttl: int, c: Call)
    requires c.Ask? && Inv(l.sys) && Agrees(l.sys.(fw := GC(l.sys.fw, cfg, c.now)), st, lim, Unix(c.now), ttl)
    requires Orderly(lim, c) && NotBlind(cfg, l.sys.fw, c)
    requires var b, usd, tok := GC(l.sys.fw, cfg, c.now), Floor0(c.usd), ClampTok(c.tok);
             && LocalAsk(l.sys.fw, cfg, c).1.Admitted? == CheckReserve(b, c.scopes, usd, tok, c.now).1.None?
             && (CheckAll(st.shared, SharedCaps(c.scopes), usd, tok, Unix(c.now)) == Reserved <==>
                LocalAsk(l.sys.fw, cfg, c).1.Admitted? && UnseenFit(b, c.scopes, usd, tok))
    ensures Agrees(LocalStep(cfg, l, c).sys, StoreStep(st, c, ttl), lim, Unix(c.now), ttl)
  {
    var usd, tok, n := Floor0(c.usd), ClampTok(c.tok), Unix(c.now);
    var b := GC(l.sys.fw, cfg, c.now);
    AskKeepsInv(cfg, l.sys, c);
    var h := CheckVelocities(b, c.scopes, usd, tok, n).0;
    CheckVelocitiesLogs(b, c.scopes, usd, tok, n, Dollars);
    CheckVelocitiesLogs(b, c.scopes, usd, tok, n, Tokens);
    SameLogsAgree(b, h, st.shared, lim, n);
    if CheckReserve(b, c.scopes, usd, tok, c.now).1.None? {
      var t := Ticket(ScopeKeys(c.scopes), "", usd, tok, n, false, false);
      ReservedLogsAgree(h, st.shared, lim, c, HoldID(|st.tickets|), ttl);
      ReservedHoldsAgree(st.shared, l.sys.tickets, t, lim, c, ttl);
      AdmittedTickets(lim, c);
    }
  }

  // ---- reconciling -----------------------------------------------------------------------------------------------------------

  lemma AdjustedLogsAgree(f: Fw, g: Fw, s: Shared, lim: Caps, t: Ticket, u: STicket, usd: real, tok: int, sec: int)
    requires LogsAgree(f, s, lim, sec) && SameTicket(t, u, lim)
    requires forall k, d {:trigger LogOf(g, k, d)} ::
               LogOf(g, k, d) == Appended(LogOf(f, k, d), k in t.keys, sec, Amount(usd, tok, d))
    ensures LogsAgree(g, Adjust(s, u.keys, usd, tok, sec), lim, sec)
  {
    var s' := Adjust(s, u.keys, usd, tok, sec);
    forall k, d {:trigger LogOf(g, k, d)} {:trigger LogAt(s', d, k)} | k in lim && CapOf(lim[k], d) > 0.0
      ensures Agree(LogOf(g, k, d), LogAt(s', d, k), sec)
    {
      AdjustAppends(s, u.keys, usd, tok, sec, k, d);
      if k in t.keys {
        if Amount(usd, tok, d) == 0.0 {
        } else {
          AgreeAppend(LogOf(f, k, d), LogAt(s, d, k), sec, Amount(usd, tok, d));
        }
      }
    }
  }

  lemma LogsAgreeLater(f: Fw, s: Shared, lim: Caps, sec: int, later: int)
    requires LogsAgree(f, s, lim, sec) && NotPast(f, sec) && sec <= later
    ensures LogsAgree(f, s, lim, later) && NotPast(f, later)
  {
    forall k, d {:trigger LogOf(f, k, d)} {:trigger LogAt(s, d, k)} | k in lim && CapOf(lim[k], d) > 0.0
      ensures Agree(LogOf(f, k, d), LogAt(s, d, k), later)
    {
    }
  }

  lemma SettledHoldsSame(ts: seq<Ticket>, i: nat, k: string, ttl: int)
    requires i < |ts|
    ensures HoldsOf(ts[i := ts[i].(settled := true)], k, ttl) == HoldsOf(ts, k, ttl)
  {
    var n := |ts| - 1;
    if i == n {
      assert ts[i := ts[i].(settled := true)][..n] == ts[..n];
    } else {
      assert ts[i := ts[i].(settled := true)][..n] == ts[..n][i := ts[i].(settled := true)];
      SettledHoldsSame(ts[..n], i, k, ttl);
    }
  }

  lemma {:induction false} ReleasedHoldsGone(ts: seq<Ticket>, i: nat, k: string, ttl: int)
    requires i < |ts| && !ts[i].released
    ensures HoldsOf(ts[i := ts[i].(released := true)], k, ttl) ==
            if k in ts[i].keys then HoldsOf(ts, k, ttl) - {HoldID(i)} else HoldsOf(ts, k, ttl)
  {
    var n := |ts| - 1;
    var us := ts[i := ts[i].(released := true)];
    if i == n {
      assert us[..n] == ts[..n];
      if HoldID(n) in HoldsOf(ts[..n], k, ttl) {
        var j := HoldsOfIDs(ts[..n], k, ttl, HoldID(n));
        ItoaInjective(n, j);
      }
    } else {
      assert us[..n] == ts[..n][i := ts[i].(released := true)];
      ReleasedHoldsGone(ts[..n], i, k, ttl);
      if HoldID(i) == HoldID(n) {
        ItoaInjective(i, n);
      }
    }
  }

  lemma SettleHoldsAgree(s: Shared, s': Shared, ts: seq<Ticket>, i: nat, lim: Caps, ttl: int)
    requires HoldsAgree(s, ts, lim, ttl) && i < |ts| && s'.holds == s.holds
    ensures HoldsAgree(s', ts[i := ts[i].(settled := true)], lim, ttl)
  {
    forall k {:trigger HoldsAt(s', k)} | k in lim && lim[k].concurrent > 0
      ensures HoldsAt(s', k) == HoldsOf(ts[i := ts[i].(settled := true)], k, ttl)
    {
      assert HoldsAt(s', k) == HoldsAt(s, k);
      SettledHoldsSame(ts, i, k, ttl);
    }
  }

  /** The windows after a settle, on both sides. */
  lemma SettledLogsAgree(f: Fw, s: Shared, lim: Caps, t: Ticket, u: STicket, usd: real, tok: int, now: nat)
    requires LogsAgree(f, s, lim, Unix(now)) && NotPast(f, Unix(now)) && SameTicket(t, u, lim) && !t.settled && !t.released
    requires forall k :: k in t.keys ==> k in f.scopes
    ensures var g := Settle(f, t, usd, tok, now).0;
            && NotPast(g, Unix(now))
            && LogsAgree(g, Adjust(s, u.keys, usd - t.usd, tok - t.tok, Unix(now)), lim, Unix(now))
  {
    hide BookAll, Adjust, LogOf, LogsAgree, Distinct;
    var n := Unix(now);
    var g := BookAll(f, t.keys, n, usd - t.usd, tok - t.tok);
    assert Settle(f, t, usd, tok, now).0 == g;
    BookAllAppends(f, t.keys, n, usd - t.usd, tok - t.tok, "", Dollars);
    forall k, d {:trigger LogOf(g, k, d)}
      ensures LogOf(g, k, d) == Appended(LogOf(f, k, d), k in t.keys, n, Amount(usd - t.usd, tok - t.tok, d))
    {
      BookAllAppends(f, t.keys, n, usd - t.usd, tok - t.tok, k, d);
    }
    AdjustedLogsAgree(f, g, s, lim, t, u, usd - t.usd, tok - t.tok, n);
  }

  lemma SettleMatches(l: Sys, st: Store, lim: Caps, ttl: int, c: Call)
    requires c.SettleAt? && Match(l, st, lim, Unix(c.now), ttl) && c.i < |l.tickets|
    requires var t := l.tickets[c.i]; !t.settled && !t.released && forall k :: k in t.keys ==> k in l.fw.scopes
    ensures var (f, t) := Settle(l.fw, l.tickets[c.i], c.usd, c.tok, c.now);
            Match(Sys(f, l.tickets[c.i := t]), StoreStep(st, c, ttl), lim, Unix(c.now), ttl)
  {
    hide LogsAgree, HoldsAgree, NotPast, Inv, BookAll, FirewallSpec.ReleaseAll, Adjust, FreeHolds;
    var SettleAt(i, usd, tok, now) := c;
    var t, u := l.tickets[i], st.tickets[i];
    assert SameTicket(t, u, lim);
    SettledLogsAgree(l.fw, st.shared, lim, t, u, usd, tok, now);
    AdjustKeepsHolds(st.shared, u.keys, usd - t.usd, tok - t.tok, Unix(now));
    SettleHoldsAgree(st.shared, StoreStep(st, c, ttl).shared, l.tickets, i, lim, ttl);
  }

  lemma SettleAgrees(cfg: Config, l: Sys, st: Store, lim: Caps, sec: int, ttl: int, c: Call)
    requires Agrees(l, st, lim, sec, ttl) && c.SettleAt? && c.usd >= 0.0 && sec <= Unix(c.now)
    ensures Agrees(Step(cfg, l, SettleOp(c.i, c.usd, c.tok, c.now)), StoreStep(st, c, ttl), lim, Unix(c.now), ttl)
  {
    hide LogsAgree, HoldsAgree, NotPast, Inv, BookAll, FirewallSpec.ReleaseAll, Adjust, FreeHolds;
    SettleKeepsInv(cfg, l, SettleOp(c.i, c.usd, c.tok, c.now));
    LogsAgreeLater(l.fw, st.shared, lim, sec, Unix(c.now));
    if c.i < |l.tickets| {
      var t, u := l.tickets[c.i], st.tickets[c.i];
      assert SameTicket(t, u, lim);
      if t.settled || t.released {
        assert l.tickets[c.i := t] == l.tickets;
      } else {
        LiveTicketCovered(l, c.i);
        SettleMatches(l, st, lim, ttl, c);
      }
    }
  }

  lemma ReleaseHoldsAgree(s: Shared, s': Shared, ts: seq<Ticket>, u: STicket, i: nat, lim: Caps, ttl: int)
    requires HoldsAgree(s, ts, lim, ttl) && i < |ts| && !ts[i].released && SameTicket(ts[i], u, lim)
    requires s'.holds == FreeHolds(s, u.keys, HoldID(i)).holds
    ensures HoldsAgree(s', ts[i := ts[i].(released := true)], lim, ttl)
  {
    forall k {:trigger HoldsAt(s', k)} | k in lim && lim[k].concurrent > 0
      ensures HoldsAt(s', k) == HoldsOf(ts[i := ts[i].(released := true)], k, ttl)
    {
      assert HoldsAt(s', k) == HoldsAt(FreeHolds(s, u.keys, HoldID(i)), k);
      FreeHoldsLeavesOthers(s, u.keys, HoldID(i), k);
      ReleasedHoldsGone(ts, i, k, ttl);
    }
  }

  lemma SameStoreLogsAgree(f: Fw, s: Shared, s': Shared, lim: Caps, sec: int)
    requires LogsAgree(f, s, lim, sec) && s'.logs == s.logs
    ensures LogsAgree(f, s', lim, sec)
  {
    assert forall k, d :: LogAt(s', d, k) == LogAt(s, d, k);
  }

  lemma ReleasedLogs(f: Fw, t: Ticket, now: nat)
    requires NotPast(f, Unix(now)) && Distinct(t.keys) && t.runKey == "" && !t.released
    requires forall k :: k in t.keys ==> k in f.scopes
    ensures var g := FirewallSpec.Release(f, t, now).0;
            && NotPast(g, Unix(now))
            && forall k, d {:trigger LogOf(g, k, d)} ::
                 LogOf(g, k, d) == Appended(LogOf(f, k, d), k in t.keys && !t.settled, Unix(now), Amount(-t.usd, -t.tok, d))
  {
    var n := Unix(now);
    var g := FirewallSpec.ReleaseAll(f, t.keys, !t.settled, t.usd, t.tok, n);
    assert FirewallSpec.Release(f, t, now).0 == g;
    ReleaseAllAppends(f, t.keys, !t.settled, t.usd, t.tok, n, "", Dollars);
    forall k, d {:trigger LogOf(g, k, d)}
      ensures LogOf(g, k, d) == Appended(LogOf(f, k, d), k in t.keys && !t.settled, n, Amount(-t.usd, -t.tok, d))
    {
      ReleaseAllAppends(f, t.keys, !t.settled, t.usd, t.tok, n, k, d);
    }
  }

  /** The windows after a release, on both sides. */
  lemma ReleasedLogsAgree(f: Fw, s: Shared, lim: Caps, t: Ticket, u: STicket, id: string, now: nat)
    requires LogsAgree(f, s, lim, Unix(now)) && NotPast(f, Unix(now)) && SameTicket(t, u, lim) && !t.released
    requires forall k :: k in t.keys ==> k in f.scopes
    ensures var g := FirewallSpec.Release(f, t, now).0;
            && NotPast(g, Unix(now))
            && LogsAgree(g, SharedSpec.Release(s, u.keys, id, t.usd, t.tok, t.settled, Unix(now)), lim, Unix(now))
  {
    hide LogsAgree, NotPast, LogOf, FirewallSpec.ReleaseAll, Adjust, FreeHolds;
    ReleasedLogs(f, t, now);
    var g, s1 := FirewallSpec.Release(f, t, now).0, FreeHolds(s, u.keys, id);
    FreeHoldsKeepsLogs(s, u.keys, id);
    SameStoreLogsAgree(f, s, s1, lim, Unix(now));
    if t.settled {
      SameLogsAgree(f, g, s1, lim, Unix(now));
    } else {
      AdjustedLogsAgree(f, g, s1, lim, t, u, -t.usd, -t.tok, Unix(now));
    }
  }

  lemma ReleaseMatches(l: Sys, st: Store, lim: Caps, ttl: int, c: Call)
    requires c.ReleaseAt? && Match(l, st, lim, Unix(c.now), ttl) && c.i < |l.tickets|
    requires var t := l.tickets[c.i]; !t.released && forall k :: k in t.keys ==> k in l.fw.scopes
    ensures var (f, t) := FirewallSpec.Release(l.fw, l.tickets[c.i], c.now);
            Match(Sys(f, l.tickets[c.i := t]), StoreStep(st, c, ttl), lim, Unix(c.now), ttl)
  {
    hide LogsAgree, HoldsAgree, NotPast, Inv, BookAll, FirewallSpec.ReleaseAll, Adjust, FreeHolds;
    var ReleaseAt(i, now) := c;
    var t, u := l.tickets[i], st.tickets[i];
    assert SameTicket(t, u, lim);
    ReleasedLogsAgree(l.fw, st.shared, lim, t, u, HoldID(i), now);
    AdjustKeepsHolds(FreeHolds(st.shared, u.keys, HoldID(i)), u.keys, -t.usd, -t.tok, Unix(now));
    ReleaseHoldsAgree(st.shared, StoreStep(st, c, ttl).shared, l.tickets, u, i, lim, ttl);
  }

  lemma ReleaseAgrees(cfg: Config, l: Sys, st: Store, lim: Caps, sec: int, ttl: int, c: Call)
    requires Agrees(l, st, lim, sec, ttl) && c.ReleaseAt? && sec <= Unix(c.now)
    ensures Agrees(Step(cfg, l, ReleaseOp(c.i, c.now)), StoreStep(st, c, ttl), lim, Unix(c.now), ttl)
  {
    hide LogsAgree, HoldsAgree, NotPast, Inv, BookAll, FirewallSpec.ReleaseAll, Adjust, FreeHolds;
    ReleaseKeepsInv(cfg, l, ReleaseOp(c.i, c.now));
    LogsAgreeLater(l.fw, st.shared, lim, sec, Unix(c.now));
    if c.i < |l.tickets| {
      var t, u := l.tickets[c.i], st.tickets[c.i];
      assert SameTicket(t, u, lim);
      if t.released {
        assert l.tickets[c.i := t] == l.tickets;
      } else {
        LiveTicketCovered(l, c.i);
        ReleaseMatches(l, st, lim, ttl, c);
      }
    }
  }

  // ---- the theorem -------------------------------------------------------------------------------------------------------------

  lemma {:induction false} AsksAnswered(cfg: Config, cs: seq<Call>, ttl: int)
    ensures |LocalRun(cfg, cs).said| == |StoreRun(cs, ttl).said|
  {
    if cs != [] {
      hide LocalAsk, SharedSpec.Reserve, Step;
      AsksAnswered(cfg, cs[..|cs| - 1], ttl);
    }
  }

  /** One more answer each does not make different answers the same. */
  lemma StaysDifferent(cfg: Config, l: Local, st: Store, c: Call, ttl: int)
    requires |l.said| == |st.said| && l.said != st.said
    ensures LocalStep(cfg, l, c).said != StoreStep(st, c, ttl).said
  {
    hide LocalAsk, SharedSpec.Reserve, Step;
    var n := |l.said|;
    assert LocalStep(cfg, l, c).said[..n] == l.said && StoreStep(st, c, ttl).said[..n] == st.said;
  }

  lemma {:induction false} RunsAgree(cfg: Config, lim: Caps, cs: seq<Call>, ttl: int)
    requires GoodRun(lim, cs, ttl)
    ensures LocalRun(cfg, cs).said == StoreRun(cs, ttl).said <==> NeverBlind(cfg, cs)
    ensures NeverBlind(cfg, cs) ==>
              Agrees(LocalRun(cfg, cs).sys, StoreRun(cs, ttl), lim, if cs == [] then 0 else Unix(cs[|cs| - 1].now), ttl)
  {
    if cs == [] {
      AccountingExact(cfg, []);
    } else {
      var pre, c := cs[..|cs| - 1], cs[|cs| - 1];
      RunsAgree(cfg, lim, pre, ttl);
      var l, st := LocalRun(cfg, pre), StoreRun(pre, ttl);
      var sec := if pre == [] then 0 else Unix(pre[|pre| - 1].now);
      assert sec <= Unix(c.now);
      hide Agrees, Orderly, Timely, StoreStep, NotBlind;
      if !NeverBlind(cfg, pre) {
        hide LocalStep;
        AsksAnswered(cfg, pre, ttl);
        StaysDifferent(cfg, l, st, c, ttl);
      } else {
        match c
        case Ask(_, _, _, _) => AskAgrees(cfg, l, st, lim, sec, ttl, c);
        case SettleAt(_, _, _, _) => SettleAgrees(cfg, l.sys, st, lim, sec, ttl, c);
        case ReleaseAt(_, _) => ReleaseAgrees(cfg, l.sys, st, lim, sec, ttl, c);
      }
    }
  }

  /** In every orderly run, request for request, the instance and the store say the same, if and
      only if the instance never admits a request too large for a scope it has no window for. */
  lemma SameVerdictsIff(cfg: Config, lim: Caps, cs: seq<Call>, ttl: int)
    requires GoodRun(lim, cs, ttl)
    ensures LocalRun(cfg, cs).said == StoreRun(cs, ttl).said <==> NeverBlind(cfg, cs)
  {
    RunsAgree(cfg, lim, cs, ttl);
  }

  lemma {:induction false} FittingIsNeverBlind(cfg: Config, cs: seq<Call>)
    requires forall i :: 0 <= i < |cs| && cs[i].Ask? ==> forall sc :: sc in cs[i].scopes ==> FitsAlone(sc, Floor0(cs[i].usd), ClampTok(cs[i].tok))
    ensures NeverBlind(cfg, cs)
  {
    if cs != [] {
      FittingIsNeverBlind(cfg, cs[..|cs| - 1]);
    }
  }

  /** When every estimate fits the caps of its scopes alone, both say the same throughout. */
  lemma SameVerdicts(cfg: Config, lim: Caps, cs: seq<Call>, ttl: int)
    requires GoodRun(lim, cs, ttl)
    requires forall i :: 0 <= i < |cs| && cs[i].Ask? ==> forall sc :: sc in cs[i].scopes ==> FitsAlone(sc, Floor0(cs[i].usd), ClampTok(cs[i].tok))
    ensures LocalRun(cfg, cs).said == StoreRun(cs, ttl).said
  {
    FittingIsNeverBlind(cfg, cs);
    SameVerdictsIff(cfg, lim, cs, ttl);
  }

  /** A new instance has seen no scope: it admits any first request, which the store admits only
      if every scope of the chain has room for it alone. */
  lemma FirstOversizedRequestDiffers(cfg: Config, lim: Caps, c: Call, ttl: int)
    requires c.Ask? && Orderly(lim, c)
    ensures LocalRun(cfg, [c]).said == [true]
    ensures StoreRun([c], ttl).said == [forall sc :: sc in c.scopes ==> FitsAlone(sc, Floor0(c.usd), ClampTok(c.tok))]
  {
    var l, st := LocalRun(cfg, []), StoreRun([], ttl);
    AccountingExact(cfg, []);
    AnswersAre(cfg, l, st, lim, 0, ttl, c);
    assert GC(Start.fw, cfg, c.now).scopes == map[];
    CheckReservePasses(GC(Start.fw, cfg, c.now), c.scopes, Floor0(c.usd), ClampTok(c.tok), c.now);
    assert [c][..0] == [];
    hide LocalAsk, GC;
    assert LocalRun(cfg, [c]) == LocalStep(cfg, l, c) && StoreRun([c], ttl) == StoreStep(st, c, ttl);
  }
}
