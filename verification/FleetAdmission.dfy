/** The fleet's events are the pieces of one admission: run back to back they are enterShared. */
module FleetAdmission {
  import opened FirewallSpec
  import opened SharedSpec
  import opened SharedMode
  import opened Cluster

  /** The fleet after a request has gone through all its events with nothing in between; those
      that do not apply change nothing. */
  function BackToBack(cfg: Config, ttl: int, c: Fleet, e: Event, fault: Fault): Fleet
    requires e.Arrive?
  {
    var i := |c.reqs|;
    var c2 := Step(cfg, ttl, Step(cfg, ttl, c, e), AskStore(i, fault));
    Step(cfg, ttl, Step(cfg, ttl, c2, RollBack(i)), FallBack(i))
  }

  /** What the answer says of the request it was given to. */
  predicate Tells(a: Answered, q: Req) {
    match a
    case Rejected(_) => q.phase.Gone?
    case Granted(ByStore(_, _), b) => q.phase.InStore? && q.budgetKey == b
    case Granted(ByInstance(keys), b) => q.phase == InMemory(keys) && q.budgetKey == b
    case Granted(Unheld, b) => q.phase.Uncapped? && q.budgetKey == b
  }

  lemma StorePartIsEvents(cfg: Config, ttl: int, c: Fleet, i: nat, fault: Fault)
    requires i < |c.reqs| && c.reqs[i].phase.Checked? && c.reqs[i].replica < |c.locals|
    ensures var q := c.reqs[i];
            var c2 := Step(cfg, ttl, c, AskStore(i, fault));
            var c3 := Step(cfg, ttl, Step(cfg, ttl, c2, RollBack(i)), FallBack(i));
            var (g, a) := StorePart(Gate(c.locals[q.replica], c.shared, 0), q.scopes, SharedCaps(q.scopes), q.budgetKey,
                                    q.usd, q.tok, HoldID(i), fault, c.clock, ttl);
            && c3.locals == c.locals[q.replica := g.fw] && c3.shared == g.shared && c3.clock == c.clock
            && |c3.reqs| == |c.reqs| && Tells(a, c3.reqs[i])
  {
    hide CheckReserve, Unreserved, SharedSpec.Reserve;
    var q := c.reqs[i];
    assert c.locals[q.replica := c.locals[q.replica]] == c.locals;
    var c2 := Step(cfg, ttl, c, AskStore(i, fault));
    assert c2 == DoAskStore(c, i, fault, ttl) && c2.locals == c.locals && c2.reqs[i].replica == q.replica;
    var a := SharedSpec.Reserve(c.shared, SharedCaps(q.scopes), q.usd, q.tok, HoldID(i), Unix(c.clock), ttl).1;
    if !fault.NoFault? {
      var (f, denied) := CheckReserve(c.locals[q.replica], q.scopes, q.usd, q.tok, c.clock);
      assert c2.reqs[i].phase.Unreachable? && (denied.None? || denied.Some?);
      assert Step(cfg, ttl, c2, RollBack(i)) == c2;
      assert Step(cfg, ttl, c2, FallBack(i)) == DoFallBack(c2, i);
    } else if a.Breach? {
      assert c2.reqs[i].phase.Refused?;
      var c3 := Step(cfg, ttl, c2, RollBack(i));
      assert c3.reqs[i].phase.Gone? && Step(cfg, ttl, c3, FallBack(i)) == c3;
    } else {
      assert a == Answer.Reserved && c2.reqs[i].phase.InStore?;
      assert Step(cfg, ttl, c2, RollBack(i)) == c2 && Step(cfg, ttl, c2, FallBack(i)) == c2;
    }
  }

  /** Run back to back, a request's events change its instance and the store as enterShared does,
      and leave the request as enterShared answers. */
  lemma UninterruptedAdmission(cfg: Config, ttl: int, c: Fleet, e: Event, fault: Fault)
    requires e.Arrive? && e.r < |c.locals| && e.usd >= 0.0 && e.tok >= 0
    ensures var c' := BackToBack(cfg, ttl, c, e, fault);
            var (g, a) := EnterShared(Gate(c.locals[e.r], c.shared, 0), cfg, e.scopes, e.runKey, e.hash, e.runMax,
                                      e.usd, e.tok, HoldID(|c.reqs|), fault, c.clock, ttl);
            && c'.locals == c.locals[e.r := g.fw] && c'.shared == g.shared && c'.clock == c.clock
            && (if |c'.reqs| == |c.reqs| then a == Rejected(Killed)
                else |c'.reqs| == |c.reqs| + 1 && Tells(a, c'.reqs[|c.reqs|]))
  {
    hide CheckLoopBudget, FirewallSpec.GC, StorePart, DoKill;
    var i := |c.reqs|;
    var c1 := Step(cfg, ttl, c, e);
    if |c1.reqs| > i && c1.reqs[i].phase.Checked? {
      StorePartIsEvents(cfg, ttl, c1, i, fault);
    }
  }
}
