/** The velocity bound is reached: a late release erases another request's reservation, and the
    cap is passed by exactly what was reconciled downward. */
module VelocityExact {
  import opened WindowLog
  import opened FirewallSpec
  import opened FirewallSteps
  import opened FirewallAdmission
  import opened FirewallRuns
  import opened KillSafety
  import opened Keys
  import opened VelocityBound
  import opened SameMinute

  /** A chain of one scope, not a run, capped in dollars per minute alone. */
  predicate DollarScope(sc: Scope, cap: real) {
    sc.name != "run" && 0 < |sc.key| <= MAX_KEY_LEN && cap > 0.0 && sc.limits == Limits(cap, 0, 0, 0.0)
  }

  function Ask(sc: Scope, usd: real, sec: nat): Op {
    Request(Chain([sc]), "", usd, 0, false, sec * SECOND)
  }

  /** Part of the cap at second 0 and as much at 30; the first is released at 30, and at 60 the
      whole cap is asked for. */
  function LateRelease(sc: Scope, cap: real, part: real): seq<Op> {
    [Ask(sc, part, 0), Ask(sc, part, 30), ReleaseOp(0, 30 * SECOND), Ask(sc, cap, 60)]
  }

  function Taken(sc: Scope, usd: real, sec: nat): Ticket {
    Ticket([sc.key], "", usd, 0, sec, false, false)
  }

  /** The scope is in use, no window is past sec, and this is what the scope's was given. */
  ghost predicate Given(s: Sys, k: string, log: Log, sec: int) {
    Inv(s) && NotPast(s.fw, sec) && LogOf(s.fw, k, Dollars) == log && (log != [] ==> Inflight(s.fw, k) > 0)
  }

  lemma OneScope(cfg: Config, sc: Scope, cap: real)
    requires DollarScope(sc, cap)
    ensures WellFormedChain([sc]) && TargetRunKey(Chain([sc])) == "" && TargetRunMax(cfg, Chain([sc])) == 0.0
    ensures ScopeKeys([sc]) == [sc.key]
  {
    assert RunScopes([sc][..0]) == [];
    assert RunScopes([sc]) == [];
  }

  /** Without a run there is only the chain to check. */
  lemma AskedStep(cfg: Config, s: Sys, sc: Scope, cap: real, usd: real, sec: nat)
    requires cfg.enabled && DollarScope(sc, cap) && usd >= 0.0
    requires CheckReserve(GC(s.fw, cfg, sec * SECOND), [sc], usd, 0, sec * SECOND).1.None?
    ensures Step(cfg, s, Ask(sc, usd, sec)) ==
            Sys(CheckReserve(GC(s.fw, cfg, sec * SECOND), [sc], usd, 0, sec * SECOND).0, s.tickets + [Taken(sc, usd, sec)])
  {
    OneScope(cfg, sc, cap);
    hide GC, CheckReserve, RunScopes, WellFormedChain;
  }

  lemma AskedChecks(f: Fw, sc: Scope, cap: real, usd: real, sec: nat, log: Log)
    requires DollarScope(sc, cap) && usd >= 0.0 && WindowSum(log, sec) + usd <= cap
    requires ValidFw(f) && NotPast(f, sec) && LogOf(f, sc.key, Dollars) == log && Inflight(f, sc.key) >= 0
    ensures var (g, denied) := CheckReserve(f, [sc], usd, 0, sec * SECOND);
            && denied.None? && NotPast(g, sec) && LogOf(g, sc.key, Dollars) == log + [Entry(sec, usd)]
            && Inflight(g, sc.key) == Inflight(f, sc.key) + 1
  {
    hide ReserveAll, CheckVelocities, CheckConcurrency, WindowSum;
    var h := CheckVelocities(f, [sc], usd, 0, sec).0;
    ReadingIsWindowSum(f, sc.key, sec);
    CheckReservePasses(f, [sc], usd, 0, sec * SECOND);
    CheckVelocitiesLogs(f, [sc], usd, 0, sec, Dollars);
    CheckVelocitiesReadings(f, [sc], usd, 0, sec);
    assert ScopeKeys([sc]) == [sc.key];
    ReserveAllAppends(h, [sc], usd, 0, sec * SECOND, sc.key, Dollars);
    ReserveAllReadings(h, [sc], usd, 0, sec * SECOND);
  }

  /** A request that fits the window is admitted, and its estimate is one more entry. */
  lemma Asked(cfg: Config, s: Sys, sc: Scope, cap: real, usd: real, sec: nat, log: Log)
    requires cfg.enabled && DollarScope(sc, cap) && usd >= 0.0
    requires Given(s, sc.key, log, sec) && WindowSum(log, sec) + usd <= cap
    ensures var s' := Step(cfg, s, Ask(sc, usd, sec));
            && s'.tickets == s.tickets + [Taken(sc, usd, sec)]
            && Given(s', sc.key, log + [Entry(sec, usd)], sec) && Inflight(s'.fw, sc.key) == Inflight(s.fw, sc.key) + 1
  {
    var b := GC(s.fw, cfg, sec * SECOND);
    InflightNonNegative(s, sc.key);
    AskedChecks(b, sc, cap, usd, sec, log);
    AskedStep(cfg, s, sc, cap, usd, sec);
    StepKeepsInv(cfg, s, Ask(sc, usd, sec));
    hide Step, GC, CheckReserve, Inv, NotPast;
  }

  lemma InflightNonNegative(s: Sys, k: string)
    requires Inv(s)
    ensures Inflight(s.fw, k) >= 0
  {
    TicketSumsNonNegative(s.tickets, k);
    assert Inflight(s.fw, k) as real == SumOf(HeldOn(k), s.tickets);
  }

  /** A release of the first ticket takes its estimate out of the current second. */
  lemma GivenBack(cfg: Config, s: Sys, sc: Scope, cap: real, usd: real, at: nat, sec: nat, log: Log)
    requires DollarScope(sc, cap) && Given(s, sc.key, log, sec) && log != []
    requires |s.tickets| > 0 && s.tickets[0] == Taken(sc, usd, at) && Inflight(s.fw, sc.key) > 1
    ensures var op := ReleaseOp(0, sec * SECOND);
            var s' := Step(cfg, s, op);
            && s'.tickets == s.tickets[0 := Taken(sc, usd, at).(released := true)]
            && Given(s', sc.key, log + [Entry(sec, -usd)], sec) && Fall(s, op, sc.key, Dollars) == Floor0(usd)
  {
    hide Inv;
    var op := ReleaseOp(0, sec * SECOND);
    StepKeepsInv(cfg, s, op);
    ReleaseAllAppends(s.fw, [sc.key], true, usd, 0, sec, sc.key, Dollars);
    assert Falls([sc.key], sc.key, Floor0(usd)) == Falls([sc.key][1..], sc.key, Floor0(usd)) + Floor0(usd);
  }

  // ---- the run ---------------------------------------------------------------------------------------

  /** What the log of the scope adds up to before each request. */
  lemma SumsBefore(part: real)
    requires part > 0.0
    ensures WindowSum([Entry(0, part)], 30) == part
    ensures WindowSum([Entry(0, part), Entry(30, part), Entry(30, -part)], 60) == 0.0
  {
    var one, two := [Entry(0, part)], [Entry(0, part), Entry(30, part)];
    assert [] + [Entry(0, part)] == one && one + [Entry(30, part)] == two;
    assert two + [Entry(30, -part)] == [Entry(0, part), Entry(30, part), Entry(30, -part)];
    TotalEmpty(30 - WINDOW + 1, WINDOW);
    TotalAppend([], Entry(0, part), 30 - WINDOW + 1, WINDOW);
    TotalEmpty(1, WINDOW);
    TotalAppend([], Entry(0, part), 1, WINDOW);
    TotalAppend(one, Entry(30, part), 1, WINDOW);
    TotalAppend(two, Entry(30, -part), 1, WINDOW);
    BucketAppend([], Entry(0, part), 30);
    BucketAppend(one, Entry(30, part), 30);
  }

  lemma RunThen(cfg: Config, ops: seq<Op>, op: Op, k: string)
    ensures Run(cfg, ops + [op]) == Step(cfg, Run(cfg, ops), op)
    ensures Down(cfg, ops + [op], k, Dollars) == Down(cfg, ops, k, Dollars) + [Entry(Unix(At(op)), Fall(Run(cfg, ops), op, k, Dollars))]
  {
    assert (ops + [op])[..|ops|] == ops;
  }

  lemma StartGiven(cfg: Config, k: string)
    ensures Run(cfg, []) == Start && Given(Start, k, [], 0) && Inflight(Start.fw, k) == 0 && Down(cfg, [], k, Dollars) == []
    ensures WindowSum([], 0) == 0.0
  {
    AccountingExact(cfg, []);
    TotalEmpty(0 - WINDOW + 1, WINDOW);
  }

  lemma GivenLater(s: Sys, k: string, log: Log, sec: int, later: int)
    requires Given(s, k, log, sec) && sec <= later
    ensures Given(s, k, log, later)
  {
    hide Inv;
  }

  /** Both parts are admitted. */
  lemma TwoParts(cfg: Config, sc: Scope, cap: real, part: real)
    requires cfg.enabled && DollarScope(sc, cap) && 0.0 < part <= cap / 2.0
    ensures var s := Run(cfg, LateRelease(sc, cap, part)[..2]);
            && s.tickets == [Taken(sc, part, 0), Taken(sc, part, 30)] && Inflight(s.fw, sc.key) == 2
            && Given(s, sc.key, [Entry(0, part), Entry(30, part)], 30)
            && Down(cfg, LateRelease(sc, cap, part)[..2], sc.key, Dollars) == [Entry(0, 0.0), Entry(30, 0.0)]
  {
    hide Step, Given, Run, WindowSum, Down, Inflight;
    var ops, k := LateRelease(sc, cap, part), sc.key;
    assert ops[..1] == [] + [ops[0]] && ops[..2] == ops[..1] + [ops[1]];
    RunThen(cfg, [], ops[0], k);
    RunThen(cfg, ops[..1], ops[1], k);
    SumsBefore(part);
    StartGiven(cfg, k);
    Asked(cfg, Start, sc, cap, part, 0, []);
    var s1 := Run(cfg, ops[..1]);
    assert [] + [Entry(0, part)] == [Entry(0, part)] && [Entry(0, part)] + [Entry(30, part)] == [Entry(0, part), Entry(30, part)];
    GivenLater(s1, k, [Entry(0, part)], 0, 30);
    Asked(cfg, s1, sc, cap, part, 30, [Entry(0, part)]);
  }

  /** The release empties the window of second 30, and the whole cap is admitted on top. */
  lemma WholeCapOnTop(cfg: Config, sc: Scope, cap: real, part: real)
    requires cfg.enabled && DollarScope(sc, cap) && 0.0 < part <= cap / 2.0
    ensures var ops := LateRelease(sc, cap, part);
            && Run(cfg, ops).tickets == [Taken(sc, part, 0).(released := true), Taken(sc, part, 30), Taken(sc, cap, 60)]
            && Down(cfg, ops, sc.key, Dollars) == [Entry(0, 0.0), Entry(30, 0.0), Entry(30, part), Entry(60, 0.0)]
  {
    hide Step, Given, Run, WindowSum, Down, Inflight;
    var ops, k := LateRelease(sc, cap, part), sc.key;
    var log := [Entry(0, part), Entry(30, part)];
    assert ops[..3] == ops[..2] + [ops[2]] && ops == ops[..3] + [ops[3]];
    RunThen(cfg, ops[..2], ops[2], k);
    RunThen(cfg, ops[..3], ops[3], k);
    SumsBefore(part);
    TwoParts(cfg, sc, cap, part);
    GivenBack(cfg, Run(cfg, ops[..2]), sc, cap, part, 0, 30, log);
    assert log + [Entry(30, -part)] == [Entry(0, part), Entry(30, part), Entry(30, -part)];
    GivenLater(Run(cfg, ops[..3]), k, log + [Entry(30, -part)], 30, 60);
    Asked(cfg, Run(cfg, ops[..3]), sc, cap, cap, 60, log + [Entry(30, -part)]);
  }

  lemma ThreeTickets(k: string, t0: Ticket, t1: Ticket, t2: Ticket)
    requires t0.at == 0 && t1.at == 30 && t2.at == 60 && t1.keys == [k] && t2.keys == [k]
    ensures SumOf(AdmittedIn(k, 1, 60, Dollars), [t0, t1, t2]) == t1.usd + t2.usd
  {
    var m := AdmittedIn(k, 1, 60, Dollars);
    SumAppend(m, [], t0);
    SumAppend(m, [t0], t1);
    SumAppend(m, [t0, t1], t2);
    assert [] + [t0] == [t0] && [t0] + [t1] == [t0, t1] && [t0, t1] + [t2] == [t0, t1, t2];
  }

  lemma OneFall(part: real)
    ensures Signed([Entry(0, 0.0), Entry(30, 0.0), Entry(30, part), Entry(60, 0.0)], 1, 60) == part
  {
    var d0, d1, d2, d3 := Entry(0, 0.0), Entry(30, 0.0), Entry(30, part), Entry(60, 0.0);
    SignedAppend([], d0, 1, 60);
    SignedAppend([d0], d1, 1, 60);
    SignedAppend([d0, d1], d2, 1, 60);
    SignedAppend([d0, d1, d2], d3, 1, 60);
    assert [] + [d0] == [d0] && [d0] + [d1] == [d0, d1] && [d0, d1] + [d2] == [d0, d1, d2] && [d0, d1, d2] + [d3] == [d0, d1, d2, d3];
  }

  /** A request admitted at second 0 and released at second 30 takes its estimate out of second 30,
      where another request is booked: part as much again as the cap is admitted within a minute,
      none of it reconciled. The cap is passed by exactly what was reconciled downward. */
  lemma LateReleaseErasesAnother(cfg: Config, sc: Scope, cap: real, part: real)
    requires cfg.enabled && DollarScope(sc, cap) && 0.0 < part <= cap / 2.0
    ensures var ops := LateRelease(sc, cap, part);
            var s := Run(cfg, ops);
            && s.tickets == [Taken(sc, part, 0).(released := true), Taken(sc, part, 30), Taken(sc, cap, 60)]
            && AdmittedInMinute(s, sc.key, 1, Dollars) == cap + part
            && DownIn(cfg, ops, sc.key, 1, 60, Dollars) == part
  {
    hide Run, Down, SumOf, Signed;
    WholeCapOnTop(cfg, sc, cap, part);
    ThreeTickets(sc.key, Taken(sc, part, 0).(released := true), Taken(sc, part, 30), Taken(sc, cap, 60));
    OneFall(part);
  }
}
