/** A handler that checks a token in time and stalls past the lease: its second application takes
    another request's reservation out of the window, and the store admits past its cap. */
module GuardStalled {
  import opened WindowLog
  import opened SharedSpec
  import opened SharedMode
  import opened SameMinute
  import opened Guard

  /** One scope capped in dollars per minute alone, and a part of its cap. */
  predicate DollarCap(c: Cap, part: real) {
    c.tok == 0 && c.conc <= 0 && 0.0 < part <= c.usd
  }

  /** Part of the cap is held and released in time by one of two handlers of its token. When the
      lease has ended the whole cap is held, the other handler claims and releases, and the part
      is held once more. */
  function Stalled(c: Cap, part: real, lease: nat): seq<Event> {
    [Hold([c], part, 0), Verify(0, GiveBack), Verify(0, GiveBack), Claim(0, NoFault), Apply(0, NoFault, NoFault),
     Tick(lease), Hold([c], c.usd, 0), Claim(0, NoFault), Apply(0, NoFault, NoFault), Hold([c], part, 0)]
  }

  function Issued(c: Cap, n: nat, usd: real, exp: int): Token {
    Token(exp, Reservation([c.key], HoldID(n), usd, 0))
  }

  function GaveBack(at: int): Done {
    Done(Go(0, GiveBack, at, true), NoFault, NoFault, at)
  }

  // ---- one event ---------------------------------------------------------------------------------------------

  /** A hold that fits is admitted, and is one more entry. */
  lemma HoldFits(s: GSys, c: Cap, usd: real, lease: nat, ttl: int)
    requires DollarCap(c, usd) && Used(s.shared, Dollars, c.key, s.clock) + usd <= c.usd
    ensures var s' := Step(s, Hold([c], usd, 0), lease, ttl);
            && s' == s.(shared := s'.shared, tokens := s.tokens + [Issued(c, |s.tokens|, usd, s.clock + lease)])
            && LogAt(s'.shared, Dollars, c.key) == LogAt(s.shared, Dollars, c.key) + [Entry(s.clock, usd)]
  {
    var id := HoldID(|s.tokens|);
    assert CheckOne(s.shared, c, usd, 0, s.clock) == Reserved;
    assert [c][1..] == [] && CapKeys([c]) == [c.key];
    assert CheckAll(s.shared, [c], usd, 0, s.clock) == Reserved;
    StoreReserveAppends(s.shared, [c], usd, 0, id, s.clock, ttl, c.key, Dollars);
  }

  /** A release books the estimate with its sign turned, in the current second. */
  lemma GivesBack(s: GSys, c: Cap, usd: real, lease: nat, ttl: int)
    requires |s.going| == 1 && s.going[0] == Go(0, GiveBack, s.clock, true) && usd > 0.0
    requires |s.tokens| > 0 && s.tokens[0].r == Reservation([c.key], HoldID(0), usd, 0)
    ensures var s' := Step(s, Apply(0, NoFault, NoFault), lease, ttl);
            && s' == s.(shared := s'.shared, going := [], applied := s.applied + [GaveBack(s.clock)])
            && LogAt(s'.shared, Dollars, c.key) == LogAt(s.shared, Dollars, c.key) + [Entry(s.clock, -usd)]
  {
    var s1 := FreeHolds(s.shared, [c.key], HoldID(0));
    FreeHoldsKeepsLogs(s.shared, [c.key], HoldID(0));
    AdjustAppends(s1, [c.key], -usd, 0, s.clock, c.key, Dollars);
  }

  // ---- what the store reads ---------------------------------------------------------------------------------------

  lemma Readings(cap: real, part: real, lease: nat)
    requires 0.0 < part <= cap && lease > 0
    ensures var log := [Entry(0, part), Entry(0, -part)];
            && WindowSum([], 0) == 0.0 && WindowSum(log, lease) == 0.0
            && WindowSum(log + [Entry(lease, cap)] + [Entry(lease, -part)], lease) == cap - part
            && WindowSum(log + [Entry(lease, cap)] + [Entry(lease, -part)] + [Entry(lease, part)], lease) == cap
  {
    var lo := lease - WINDOW + 1;
    var a, b := [Entry(0, part)], [Entry(0, part), Entry(0, -part)];
    assert [] + [Entry(0, part)] == a && a + [Entry(0, -part)] == b;
    TotalEmpty(0 - WINDOW + 1, WINDOW);
    TotalEmpty(lo, WINDOW);
    BucketAppend([], Entry(0, part), 0);
    BucketAppend([], Entry(0, part), lease);
    TotalAppend([], Entry(0, part), lo, WINDOW);
    BucketAppend(a, Entry(0, -part), 0);
    BucketAppend(a, Entry(0, -part), lease);
    TotalAppend(a, Entry(0, -part), lo, WINDOW);
    BucketAppend(b, Entry(lease, cap), lease);
    TotalAppend(b, Entry(lease, cap), lo, WINDOW);
    BucketAppend(b + [Entry(lease, cap)], Entry(lease, -part), lease);
    TotalAppend(b + [Entry(lease, cap)], Entry(lease, -part), lo, WINDOW);
    TotalAppend(b + [Entry(lease, cap)] + [Entry(lease, -part)], Entry(lease, part), lo, WINDOW);
  }

  // ---- the run ------------------------------------------------------------------------------------------------------

  /** The first handler is done in time; the second has passed its check. */
  lemma FirstDone(c: Cap, part: real, lease: nat, ttl: int)
    requires DollarCap(c, part) && lease > 0
    ensures var s := Run(Stalled(c, part, lease)[..5], lease, ttl);
            && s == GSys(s.shared, [Issued(c, 0, part, lease)], map[0 := lease], [Handler(0, GiveBack)], [],
                         [Go(0, GiveBack, 0, true)], [GaveBack(0)], 0)
            && LogAt(s.shared, Dollars, c.key) == [Entry(0, part), Entry(0, -part)]
  {
    hide Run, Step;
    var es := Stalled(c, part, lease);
    assert es[..1] == [] + [es[0]] && es[..2] == es[..1] + [es[1]] && es[..3] == es[..2] + [es[2]];
    assert es[..4] == es[..3] + [es[3]] && es[..5] == es[..4] + [es[4]];
    RunThen([], es[0], lease, ttl);
    RunThen(es[..1], es[1], lease, ttl);
    RunThen(es[..2], es[2], lease, ttl);
    RunThen(es[..3], es[3], lease, ttl);
    RunThen(es[..4], es[4], lease, ttl);
    NothingRun(lease, ttl);
    Readings(c.usd, part, lease);
    HoldFits(GStart, c, part, lease, ttl);
    var s1 := Run(es[..1], lease, ttl);
    assert s1.tokens == [Issued(c, 0, part, lease)];
    BothVerify(s1, lease, ttl);
    var s4 := Run(es[..4], lease, ttl);
    GivesBack(s4, c, part, lease, ttl);
    assert [] + [Entry(0, part)] + [Entry(0, -part)] == [Entry(0, part), Entry(0, -part)];
  }

  lemma NothingRun(lease: nat, ttl: int)
    ensures Run([], lease, ttl) == GStart
  {
  }

  /** Both handlers pass their check, and one claims. */
  lemma BothVerify(s: GSys, lease: nat, ttl: int)
    requires |s.tokens| == 1 && s.clock < s.tokens[0].exp && s.pending == [] && s.going == [] && s.granted == [] && s.claims == map[]
    ensures Step(Step(Step(s, Verify(0, GiveBack), lease, ttl), Verify(0, GiveBack), lease, ttl), Claim(0, NoFault), lease, ttl) ==
            s.(pending := [Handler(0, GiveBack)], claims := map[0 := s.clock + lease],
               going := [Go(0, GiveBack, s.clock, true)], granted := [Go(0, GiveBack, s.clock, true)])
  {
    hide DoHold, DoApply;
    var s2 := Step(Step(s, Verify(0, GiveBack), lease, ttl), Verify(0, GiveBack), lease, ttl);
    assert s2.pending == [Handler(0, GiveBack), Handler(0, GiveBack)];
    assert s2.pending[..0] + s2.pending[1..] == [Handler(0, GiveBack)];
  }

  /** The stalled handler claims once the first claim has expired. */
  lemma StalledClaim(s: GSys, lease: nat, ttl: int)
    requires s.pending == [Handler(0, GiveBack)] && s.claims == map[0 := lease] && s.clock == lease && s.going == []
    ensures var s' := Step(s, Claim(0, NoFault), lease, ttl);
            s' == s.(pending := [], going := [Go(0, GiveBack, lease, true)], granted := s'.granted, claims := s'.claims)
  {
    hide DoHold, DoApply;
  }

  /** A handler stalled past the lease releases a reservation a second time, and takes another's
      out of the window: the cap and part of it again, neither of them reconciled, are held in one
      second, while the store reads the cap. */
  lemma StalledHandlerAppliesTwice(c: Cap, part: real, lease: nat, ttl: int)
    requires DollarCap(c, part) && lease > 0
    ensures var s := Run(Stalled(c, part, lease), lease, ttl);
            && s.applied == [GaveBack(0), GaveBack(lease)]
            && s.tokens == [Issued(c, 0, part, lease), Issued(c, 1, c.usd, lease + lease), Issued(c, 2, part, lease + lease)]
            && Used(s.shared, Dollars, c.key, lease) == c.usd
  {
    hide Run, Step;
    var es := Stalled(c, part, lease);
    assert es[..6] == es[..5] + [es[5]] && es[..7] == es[..6] + [es[6]] && es[..8] == es[..7] + [es[7]];
    assert es[..9] == es[..8] + [es[8]] && es == es[..9] + [es[9]];
    RunThen(es[..5], es[5], lease, ttl);
    RunThen(es[..6], es[6], lease, ttl);
    RunThen(es[..7], es[7], lease, ttl);
    RunThen(es[..8], es[8], lease, ttl);
    RunThen(es[..9], es[9], lease, ttl);
    FirstDone(c, part, lease, ttl);
    Readings(c.usd, part, lease);
    var s5 := Run(es[..5], lease, ttl);
    var s6 := Run(es[..6], lease, ttl);
    Ticked(s5, lease, ttl);
    HoldFits(s6, c, c.usd, lease, ttl);
    StalledClaim(Run(es[..7], lease, ttl), lease, ttl);
    GivesBack(Run(es[..8], lease, ttl), c, part, lease, ttl);
    HoldFits(Run(es[..9], lease, ttl), c, part, lease, ttl);
  }

  lemma Ticked(s: GSys, lease: nat, ttl: int)
    ensures Step(s, Tick(lease), lease, ttl) == s.(clock := s.clock + lease)
  {
  }
}
