/** What every request leaves behind, whatever its providers do. */
module DispatchProofs {
  import opened Dispatch

  // ---- counting ------------------------------------------------------------------------------------------------

  datatype Kind = TakesLease(i: nat) | EndsLease(i: nat) | SettlesAnyLease | Sends(i: nat) | RecordsError(i: nat)
                | SettlesBudget | SettlesTicket | RecordsBill | ReleasesTicket

  predicate Is(e: Event, k: Kind) {
    match k
    case TakesLease(i) => e == LeaseTaken(i)
    case EndsLease(i) => (e.LeaseSettled? || e.LeaseReleased?) && e.i == i
    case SettlesAnyLease => e.LeaseSettled?
    case Sends(i) => e == Sent(i)
    case RecordsError(i) => e == RecordedError(i)
    case SettlesBudget => e.BudgetSettled?
    case SettlesTicket => e.TicketSettled?
    case RecordsBill => e.RecordedBill?
    case ReleasesTicket => e.TicketReleased?
  }

  function Count(t: seq<Event>, k: Kind): nat {
    if t == [] then 0 else Count(t[..|t| - 1], k) + if Is(t[|t| - 1], k) then 1 else 0
  }

  lemma {:induction false} CountConcat(a: seq<Event>, b: seq<Event>, k: Kind)
    ensures Count(a + b, k) == Count(a, k) + Count(b, k)
  {
    if b == [] {
      assert a + b == a;
    } else {
      assert (a + b)[..|a + b| - 1] == a + b[..|b| - 1];
      CountConcat(a, b[..|b| - 1], k);
    }
  }

  lemma CountOne(e: Event, k: Kind)
    ensures Count([e], k) == if Is(e, k) then 1 else 0
  {
    assert [e][..0] == [];
  }

  lemma CountTriple(a: Event, b: Event, c: Event, k: Kind)
    ensures Count([a, b, c], k) == (if Is(a, k) then 1 else 0) + (if Is(b, k) then 1 else 0) + (if Is(c, k) then 1 else 0)
  {
    CountOne(a, k);
    CountOne(b, k);
    CountOne(c, k);
    CountConcat([a], [b], k);
    CountConcat([a] + [b], [c], k);
    assert [a] + [b] + [c] == [a, b, c];
  }

  /** How often trying candidate i does a thing. */
  function Share(c: Candidate, i: nat, streaming: bool, k: Kind): nat {
    match k
    case TakesLease(j) => if c.quota.Leased? && j == i then 1 else 0
    case EndsLease(j) => if c.quota.Leased? && j == i then 1 else 0
    case SettlesAnyLease => if c.quota.Leased? && (c.outcome.Success? || WroteBytes(c, streaming)) then 1 else 0
    case Sends(j) => if j == i then 1 else 0
    case RecordsError(j) => if c.outcome.Failure? && j == i then 1 else 0
    case _ => 0
  }

  lemma CountAttempt(c: Candidate, i: nat, est: int, streaming: bool, k: Kind)
    ensures Count(Attempt(c, i, est, streaming), k) == Share(c, i, streaming, k)
  {
    var end := LeaseEnd(c, i, est, streaming);
    CountOne(Sent(i), k);
    CountOne(RecordedError(i), k);
    CountTriple(LeaseTaken(i), Sent(i), end, k);
    CountConcat([LeaseTaken(i), Sent(i), end], ErrorRecord(c, i), k);
    CountConcat([Sent(i)], ErrorRecord(c, i), k);
  }

  /** How often the first n candidates do a thing. */
  function Expected(cs: seq<Candidate>, n: nat, streaming: bool, k: Kind): nat
    requires n <= |cs|
  {
    if n == 0 then 0
    else Expected(cs, n - 1, streaming, k) + if SentTo(cs, n - 1, streaming) then Share(cs[n - 1], n - 1, streaming, k) else 0
  }

  lemma NoAttempts(cs: seq<Candidate>, est: int, streaming: bool)
    ensures Attempts(cs, 0, est, streaming) == []
  {
  }

  lemma AttemptsStep(cs: seq<Candidate>, n: nat, est: int, streaming: bool)
    requires 0 < n <= |cs|
    ensures var before := Attempts(cs, n - 1, est, streaming);
            Attempts(cs, n, est, streaming) ==
            if SentTo(cs, n - 1, streaming) then before + Attempt(cs[n - 1], n - 1, est, streaming) else before
  {
  }

  lemma CountGrown(before: seq<Event>, c: Candidate, i: nat, est: int, streaming: bool, k: Kind)
    ensures Count(before + Attempt(c, i, est, streaming), k) == Count(before, k) + Share(c, i, streaming, k)
  {
    hide Attempt, Count, Share;
    CountAttempt(c, i, est, streaming, k);
    CountConcat(before, Attempt(c, i, est, streaming), k);
  }

  lemma {:induction false} CountAttempts(cs: seq<Candidate>, n: nat, est: int, streaming: bool, k: Kind)
    requires n <= |cs|
    ensures Count(Attempts(cs, n, est, streaming), k) == Expected(cs, n, streaming, k)
  {
    if n > 0 {
      hide Attempt, Attempts, Count, SentTo, Share, Is;
      AttemptsStep(cs, n, est, streaming);
      CountAttempts(cs, n - 1, est, streaming, k);
      CountGrown(Attempts(cs, n - 1, est, streaming), cs[n - 1], n - 1, est, streaming, k);
    }
  }

  lemma {:induction false} ExpectedLeases(cs: seq<Candidate>, n: nat, streaming: bool, i: nat)
    requires n <= |cs|
    ensures Expected(cs, n, streaming, Sends(i)) == (if i < n && SentTo(cs, i, streaming) then 1 else 0)
    ensures Expected(cs, n, streaming, TakesLease(i)) == (if i < n && SentTo(cs, i, streaming) && cs[i].quota.Leased? then 1 else 0)
    ensures Expected(cs, n, streaming, EndsLease(i)) == Expected(cs, n, streaming, TakesLease(i))
    ensures Expected(cs, n, streaming, RecordsError(i)) == (if i < n && SentTo(cs, i, streaming) && cs[i].outcome.Failure? then 1 else 0)
  {
    if n > 0 {
      hide Reached, Tries;
      ExpectedLeases(cs, n - 1, streaming, i);
    }
  }

  lemma {:induction false} ExpectedBills(cs: seq<Candidate>, n: nat, streaming: bool, k: Kind)
    requires n <= |cs| && (k.SettlesBudget? || k.SettlesTicket? || k.RecordsBill? || k.ReleasesTicket?)
    ensures Expected(cs, n, streaming, k) == 0
  {
    if n > 0 {
      ExpectedBills(cs, n - 1, streaming, k);
    }
  }

  lemma {:induction false} ExpectedSettled(cs: seq<Candidate>, n: nat, streaming: bool)
    requires n <= |cs|
    ensures Expected(cs, n, streaming, SettlesAnyLease) <= if Reached(cs, n, streaming) then 0 else 1
  {
    if n > 0 {
      ExpectedSettled(cs, n - 1, streaming);
    }
  }

  /** What a lease that ends settled is settled for: the tokens reported, or the estimate when none
      were or the stream broke off. */
  ghost predicate Consumed(cs: seq<Candidate>, i: nat, est: int, streaming: bool, tok: int)
    requires i < |cs|
  {
    && (BreaksOff(cs, i, streaming) ==> tok == est)
    && (Serves(cs, i, streaming) ==>
          var u := cs[i].outcome.usage;
          tok == if u.inTok == 0 && u.outTok == 0 then est else u.inTok + u.outTok)
  }

  lemma AttemptSettles(c: Candidate, n: nat, est: int, streaming: bool, e: Event)
    requires e in Attempt(c, n, est, streaming)
    ensures !e.BudgetSettled? && !e.TicketSettled? && !e.RecordedBill? && !e.TicketReleased?
    ensures e.LeaseSettled? ==>
              && e.i == n && (c.outcome.Success? || WroteBytes(c, streaming))
              && e.tok == if c.outcome.Success? then ActualTokens(c.outcome.usage, est) else est
  {
  }

  lemma LastSettled(cs: seq<Candidate>, i: nat, est: int, streaming: bool, tok: int)
    requires SentTo(cs, i, streaming) && (cs[i].outcome.Success? || WroteBytes(cs[i], streaming))
    requires tok == if cs[i].outcome.Success? then ActualTokens(cs[i].outcome.usage, est) else est
    ensures Serves(cs, i, streaming) || BreaksOff(cs, i, streaming)
    ensures Consumed(cs, i, est, streaming, tok)
  {
  }

  /** A lease that ends settled belongs to the candidate that served or had begun streaming, and is
      settled for what it consumed. */
  lemma {:induction false} SettledLeaseOwner(cs: seq<Candidate>, n: nat, est: int, streaming: bool, e: Event)
    requires n <= |cs| && e in Attempts(cs, n, est, streaming)
    ensures !e.BudgetSettled? && !e.TicketSettled? && !e.RecordedBill? && !e.TicketReleased?
    ensures e.LeaseSettled? ==>
              && (Serves(cs, e.i, streaming) || BreaksOff(cs, e.i, streaming))
              && Consumed(cs, e.i, est, streaming, e.tok)
  {
    hide Attempt, Attempts, Consumed, Serves, BreaksOff, SentTo, WroteBytes, ActualTokens;
    NoAttempts(cs, est, streaming);
    if n > 0 {
      AttemptsStep(cs, n, est, streaming);
      if e in Attempts(cs, n - 1, est, streaming) {
        SettledLeaseOwner(cs, n - 1, est, streaming, e);
      } else {
        AttemptSettles(cs[n - 1], n - 1, est, streaming, e);
        if e.LeaseSettled? {
          LastSettled(cs, n - 1, est, streaming, e.tok);
        }
      }
    }
  }

  /** Candidate i is sent the request exactly when it is available with quota to spare and every one
      before it was skipped, or failed in a way that may be retried before the deadline with nothing
      sent to the client. */
  ghost predicate Due(cs: seq<Candidate>, i: nat, streaming: bool) {
    && i < |cs| && cs[i].available && !cs[i].quota.Full?
    && forall j :: 0 <= j < i && cs[j].available && !cs[j].quota.Full? ==>
         var o := cs[j].outcome;
         o.Failure? && o.retryable && !o.ctxDone && !(streaming && o.wrote)
  }

  lemma SentToIffDue(cs: seq<Candidate>, i: nat, streaming: bool)
    ensures SentTo(cs, i, streaming) <==> Due(cs, i, streaming)
  {
  }

  /** For any candidates: each is tried once if it is due and never otherwise; every lease taken ends
      exactly once and every failure is recorded once; at most one lease ends settled, that of the
      candidate that served or had begun streaming, for what it consumed. */
  lemma LeasesEndOnce(cs: seq<Candidate>, est: int, streaming: bool, i: nat)
    ensures var t := Attempts(cs, |cs|, est, streaming);
            && Count(t, Sends(i)) == (if Due(cs, i, streaming) then 1 else 0)
            && Count(t, RecordsError(i)) == (if Due(cs, i, streaming) && cs[i].outcome.Failure? then 1 else 0)
            && Count(t, EndsLease(i)) == Count(t, TakesLease(i)) == (if Due(cs, i, streaming) && cs[i].quota.Leased? then 1 else 0)
            && Count(t, SettlesAnyLease) <= 1
            && (forall j: nat, tok :: LeaseSettled(j, tok) in t ==>
                  (Serves(cs, j, streaming) || BreaksOff(cs, j, streaming)) && Consumed(cs, j, est, streaming, tok))
            && (Serves(cs, i, streaming) || BreaksOff(cs, i, streaming) ==>
                  Due(cs, i, streaming) && (cs[i].quota.Leased? ==> exists tok :: LeaseSettled(i, tok) in t))
  {
    hide Attempts, Count, Share, Consumed;
    SentToIffDue(cs, i, streaming);
    CountAttempts(cs, |cs|, est, streaming, Sends(i));
    CountAttempts(cs, |cs|, est, streaming, TakesLease(i));
    CountAttempts(cs, |cs|, est, streaming, EndsLease(i));
    CountAttempts(cs, |cs|, est, streaming, RecordsError(i));
    CountAttempts(cs, |cs|, est, streaming, SettlesAnyLease);
    ExpectedLeases(cs, |cs|, streaming, i);
    ExpectedSettled(cs, |cs|, streaming);
    forall j: nat, tok | LeaseSettled(j, tok) in Attempts(cs, |cs|, est, streaming)
      ensures (Serves(cs, j, streaming) || BreaksOff(cs, j, streaming)) && Consumed(cs, j, est, streaming, tok)
    {
      SettledLeaseOwner(cs, |cs|, est, streaming, LeaseSettled(j, tok));
    }
    if Serves(cs, i, streaming) || BreaksOff(cs, i, streaming) {
      FinisherSettles(cs, est, streaming, i);
    }
  }

  /** The lease of the candidate that served or broke off does end settled. */
  lemma FinisherSettles(cs: seq<Candidate>, est: int, streaming: bool, i: nat)
    requires Serves(cs, i, streaming) || BreaksOff(cs, i, streaming)
    ensures SentTo(cs, i, streaming)
    ensures cs[i].quota.Leased? ==> exists tok :: LeaseSettled(i, tok) in Attempts(cs, |cs|, est, streaming)
  {
    hide Attempts, Attempt;
    if cs[i].quota.Leased? {
      LeaseAroundSend(cs, |cs|, est, streaming, i);
      var t := Attempts(cs, |cs|, est, streaming);
      var p: nat :| LeaseAt(t, p, cs[i], i, est, streaming);
      assert t[p + 2].LeaseSettled? && t[p + 2].i == i;
      assert LeaseSettled(i, t[p + 2].tok) in t;
    }
  }

  ghost predicate LeaseAt(t: seq<Event>, p: nat, c: Candidate, i: nat, est: int, streaming: bool) {
    p + 2 < |t| && t[p] == LeaseTaken(i) && t[p + 1] == Sent(i) && t[p + 2] == LeaseEnd(c, i, est, streaming)
  }

  /** A lease is taken just before its request is sent and ended just after. */
  lemma {:induction false} LeaseAroundSend(cs: seq<Candidate>, n: nat, est: int, streaming: bool, i: nat)
    requires n <= |cs| && i < n && SentTo(cs, i, streaming) && cs[i].quota.Leased?
    ensures exists p: nat :: LeaseAt(Attempts(cs, n, est, streaming), p, cs[i], i, est, streaming)
  {
    var t, before := Attempts(cs, n, est, streaming), Attempts(cs, n - 1, est, streaming);
    if i == n - 1 {
      assert LeaseAt(t, |before|, cs[i], i, est, streaming);
    } else {
      LeaseAroundSend(cs, n - 1, est, streaming, i);
      var p: nat :| LeaseAt(before, p, cs[i], i, est, streaming);
      assert LeaseAt(t, p, cs[i], i, est, streaming);
    }
  }

  // ---- the request ----------------------------------------------------------------------------------------------

  /** Some candidate served, or broke off after it had begun streaming. */
  ghost predicate Finished(q: Request) {
    Dispatches(q) && exists i: nat :: Serves(q.cs, i, q.streaming) || BreaksOff(q.cs, i, q.streaming)
  }

  /** What the client owes: the cost and tokens of the candidate that served, or the estimate when no
      usage of any kind came back or the stream broke off. */
  ghost predicate Owes(q: Request, c: Charge) {
    && (forall i: nat :: Serves(q.cs, i, q.streaming) ==>
          var u := q.cs[i].outcome.usage;
          c == if u.inTok == 0 && u.outTok == 0 && u.cacheRead == 0 && u.cacheWrite == 0
               then Charge(q.estUSD, q.estTok, "ok_estimated")
               else Charge(q.cs[i].cost, u.inTok + u.outTok, "ok"))
    && (forall i: nat :: BreaksOff(q.cs, i, q.streaming) ==> c == Charge(q.estUSD, q.estTok, "aborted"))
  }

  /** Budget, ticket and ledger all carry the charge. */
  ghost predicate Charged(t: seq<Event>, c: Charge) {
    BudgetSettled(c.usd) in t && TicketSettled(c.usd, c.tok) in t && RecordedBill(c) in t
  }

  /** What happens once the candidates have run: a finished request is billed what it owes, any
      other gives its whole budget reservation back. */
  ghost predicate SettlesOnce(q: Request, t: seq<Event>) {
    && Count(t, SettlesBudget) == 1
    && Count(t, SettlesTicket) == Count(t, RecordsBill) == (if Finished(q) then 1 else 0)
    && (!Finished(q) ==> BudgetSettled(0.0) in t)
    && (Finished(q) ==> exists c :: Owes(q, c) && Charged(t, c))
  }

  lemma CountBilled(c: Charge, k: Kind)
    ensures Count(Billed(c), k) == if k.SettlesBudget? || k.SettlesTicket? || k.RecordsBill? then 1 else 0
  {
    CountTriple(BudgetSettled(c.usd), TicketSettled(c.usd, c.tok), RecordedBill(c), k);
  }

  lemma BillSettlesOnce(q: Request, c: Charge)
    requires Finished(q) && Owes(q, c)
    ensures SettlesOnce(q, Billed(c)) && Count(Billed(c), ReleasesTicket) == 0
  {
    hide Count, Finished, Owes;
    CountBilled(c, SettlesBudget);
    CountBilled(c, SettlesTicket);
    CountBilled(c, RecordsBill);
    CountBilled(c, ReleasesTicket);
  }

  lemma ServedOwes(q: Request, i: nat)
    requires Dispatches(q) && Serves(q.cs, i, q.streaming)
    ensures Finished(q) && Owes(q, ChargeFor(q.cs[i], q.estUSD, q.estTok))
  {
    FinishesAlone(q.cs, i, q.streaming);
    hide Serves, BreaksOff;
  }

  lemma BrokenOwes(q: Request, i: nat)
    requires Dispatches(q) && BreaksOff(q.cs, i, q.streaming)
    ensures Finished(q) && Owes(q, AbortCharge(q))
  {
    FinishesAlone(q.cs, i, q.streaming);
    NotBoth(q.cs, i, q.streaming);
    hide Serves, BreaksOff;
  }

  lemma NotBoth(cs: seq<Candidate>, i: nat, streaming: bool)
    ensures !(Serves(cs, i, streaming) && BreaksOff(cs, i, streaming))
  {
  }

  /** The finishing candidate alone decides what is owed. */
  lemma RestSettlesOnce(q: Request, rest: seq<Event>)
    requires SettledBy(q, rest) && Dispatches(q)
    ensures SettlesOnce(q, rest) && Count(rest, ReleasesTicket) == 0
  {
    hide Count, SettlesOnce, Billed, Owes, BreaksOff;
    if i: nat :| Serves(q.cs, i, q.streaming) && rest == Billed(ChargeFor(q.cs[i], q.estUSD, q.estTok)) {
      ServedOwes(q, i);
      BillSettlesOnce(q, ChargeFor(q.cs[i], q.estUSD, q.estTok));
    } else if i: nat :| BreaksOff(q.cs, i, q.streaming) && rest == Billed(AbortCharge(q)) {
      BrokenOwes(q, i);
      BillSettlesOnce(q, AbortCharge(q));
    } else {
      NothingOwed(q);
    }
  }

  lemma NothingOwed(q: Request)
    requires !Finished(q)
    ensures SettlesOnce(q, [BudgetSettled(0.0)]) && Count([BudgetSettled(0.0)], ReleasesTicket) == 0
  {
    CountOne(BudgetSettled(0.0), SettlesBudget);
    CountOne(BudgetSettled(0.0), SettlesTicket);
    CountOne(BudgetSettled(0.0), RecordsBill);
    CountOne(BudgetSettled(0.0), ReleasesTicket);
  }

  lemma CountWhole(tried: seq<Event>, rest: seq<Event>, k: Kind)
    ensures Count(tried + rest + [TicketReleased], k) == Count(tried, k) + Count(rest, k) + if k.ReleasesTicket? then 1 else 0
  {
    CountConcat(tried, rest, k);
    CountConcat(tried + rest, [TicketReleased], k);
    CountOne(TicketReleased, k);
  }

  /** The candidates' own events settle nothing and the last one releases the ticket. */
  lemma WholeSettlesOnce(q: Request, n: nat, rest: seq<Event>)
    requires n <= |q.cs| && SettlesOnce(q, rest) && Count(rest, ReleasesTicket) == 0
    ensures var t := Attempts(q.cs, n, q.estTok, q.streaming) + rest + [TicketReleased];
            SettlesOnce(q, t) && Count(t, ReleasesTicket) == 1
  {
    hide Attempts, Count, Finished, Owes, Expected;
    var tried := Attempts(q.cs, n, q.estTok, q.streaming);
    Silent(q, n, rest, SettlesBudget);
    Silent(q, n, rest, SettlesTicket);
    Silent(q, n, rest, RecordsBill);
    Silent(q, n, rest, ReleasesTicket);
  }

  lemma Silent(q: Request, n: nat, rest: seq<Event>, k: Kind)
    requires n <= |q.cs| && (k.SettlesBudget? || k.SettlesTicket? || k.RecordsBill? || k.ReleasesTicket?)
    ensures Count(Attempts(q.cs, n, q.estTok, q.streaming) + rest + [TicketReleased], k)
            == Count(rest, k) + if k.ReleasesTicket? then 1 else 0
  {
    hide Attempts, Count, Expected;
    CountAttempts(q.cs, n, q.estTok, q.streaming, k);
    ExpectedBills(q.cs, n, q.streaming, k);
    CountWhole(Attempts(q.cs, n, q.estTok, q.streaming), rest, k);
  }

  /** On every return path the budget reservation is settled exactly once. A finished request is
      charged what it owes, once in each of budget, ticket and ledger; any other gives its whole
      reservation back and moves neither ticket nor ledger. A ticket held is released exactly once,
      last. */
  lemma SettledExactlyOnce(q: Request, t: seq<Event>)
    requires Handled(q, t)
    ensures SettlesOnce(q, t)
    ensures Count(t, ReleasesTicket) == (if HoldsTicket(q) then 1 else 0)
    ensures HoldsTicket(q) ==> t[|t| - 1] == TicketReleased
  {
    hide Count, SettlesOnce, SettledBy, Attempts;
    if !HoldsTicket(q) {
      NothingOwed(q);
    } else if !Dispatches(q) {
      NothingOwed(q);
      WholeSettlesOnce(q, 0, [BudgetSettled(0.0)]);
      assert t == Attempts(q.cs, 0, q.estTok, q.streaming) + [BudgetSettled(0.0)] + [TicketReleased] by {
        NoAttempts(q.cs, q.estTok, q.streaming);
      }
    } else {
      var rest :| SettledBy(q, rest) && t == Attempts(q.cs, |q.cs|, q.estTok, q.streaming) + rest + [TicketReleased];
      RestSettlesOnce(q, rest);
      WholeSettlesOnce(q, |q.cs|, rest);
    }
  }
}
