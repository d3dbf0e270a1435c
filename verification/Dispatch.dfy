/** One chat request from admission to reply: the candidate loop with its provider leases, and
    every return path with its budget reservation and firewall ticket. A provider is an oracle:
    whether it is usable, what the broker says, and how the call ends are inputs. */
module Dispatch {
  datatype Usage = Usage(inTok: nat, outTok: nat, cacheRead: nat, cacheWrite: nat)

  /** The broker's answer: a lease, admission without one, or the quota is used up. */
  datatype Quota = Leased | Unmetered | Full(retryAfterSec: int)

  /** wrote says whether the attempt sent bytes to the client; ctxDone whether the request's own
      deadline had passed when it failed. */
  datatype Outcome =
    | Success(usage: Usage, wrote: bool)
    | Failure(retryable: bool, ctxDone: bool, wrote: bool)

  /** cost is what the ledger's price table makes of the usage reported. */
  datatype Candidate = Candidate(available: bool, quota: Quota, outcome: Outcome, cost: real)

  datatype Event =
    | LeaseTaken(i: nat)
    | Sent(i: nat)
    | LeaseSettled(i: nat, tok: int)
    | LeaseReleased(i: nat)
    | BudgetSettled(usd: real)
    | TicketSettled(usd: real, tok: int)
    | TicketReleased
    | RecordedError(i: nat)
    | RecordedBill(bill: Charge)

  /** What a request is charged: in the budget, in the ticket's windows and in the ledger. */
  datatype Charge = Charge(usd: real, tok: int, status: string)

  /** The answer to the client. Refused covers every return before the candidates; Cut ends a
      stream that had begun. */
  datatype Reply = Served | Cut | QuotaFull(retryAfterSec: int) | Unreachable | UpstreamFailed | Refused

  datatype Dispatched = Dispatched(served: bool, used: nat, attempted: bool, quotaBlocked: bool, retryAfterSec: int)

  const NothingSent := Dispatched(false, 0, false, false, 0)

  // ---- the candidate loop, stated without the loop ------------------------------------------------------

  predicate Tries(c: Candidate) {
    c.available && !c.quota.Full?
  }

  /** Bytes already sent to the client cannot be unsent. */
  predicate WroteBytes(c: Candidate, streaming: bool) {
    streaming && c.outcome.wrote
  }

  predicate FailsOver(c: Candidate, streaming: bool) {
    c.outcome.Failure? && c.outcome.retryable && !c.outcome.ctxDone && !WroteBytes(c, streaming)
  }

  /** Trying c ends the loop: success, a terminal error, or a first byte. */
  predicate Stops(c: Candidate, streaming: bool) {
    Tries(c) && !FailsOver(c, streaming)
  }

  predicate Reached(cs: seq<Candidate>, i: nat, streaming: bool)
    requires i <= |cs|
  {
    forall j :: 0 <= j < i ==> !Stops(cs[j], streaming)
  }

  function ActualTokens(u: Usage, est: int): int {
    if u.inTok + u.outTok <= 0 then est else u.inTok + u.outTok
  }

  function LeaseEnd(c: Candidate, i: nat, est: int, streaming: bool): Event {
    if c.outcome.Success? then LeaseSettled(i, ActualTokens(c.outcome.usage, est))
    else if WroteBytes(c, streaming) then LeaseSettled(i, est)
    else LeaseReleased(i)
  }

  function ErrorRecord(c: Candidate, i: nat): seq<Event> {
    if c.outcome.Failure? then [RecordedError(i)] else []
  }

  /** What trying candidate i does, in order. */
  function Attempt(c: Candidate, i: nat, est: int, streaming: bool): seq<Event> {
    if c.quota.Leased? then [LeaseTaken(i), Sent(i), LeaseEnd(c, i, est, streaming)] + ErrorRecord(c, i)
    else [Sent(i)] + ErrorRecord(c, i)
  }

  /** What the first n candidates do. */
  function Attempts(cs: seq<Candidate>, n: nat, est: int, streaming: bool): seq<Event>
    requires n <= |cs|
  {
    if n == 0 then []
    else
      Attempts(cs, n - 1, est, streaming) +
      if Reached(cs, n - 1, streaming) && Tries(cs[n - 1]) then Attempt(cs[n - 1], n - 1, est, streaming) else []
  }

  predicate Serves(cs: seq<Candidate>, i: nat, streaming: bool) {
    i < |cs| && Reached(cs, i, streaming) && Tries(cs[i]) && cs[i].outcome.Success?
  }

  /** Candidate i failed after it had begun streaming. */
  predicate BreaksOff(cs: seq<Candidate>, i: nat, streaming: bool) {
    i < |cs| && Reached(cs, i, streaming) && Tries(cs[i]) && cs[i].outcome.Failure? && WroteBytes(cs[i], streaming)
  }

  predicate SentTo(cs: seq<Candidate>, i: nat, streaming: bool) {
    i < |cs| && Reached(cs, i, streaming) && Tries(cs[i])
  }

  predicate AtQuota(cs: seq<Candidate>, i: nat, streaming: bool) {
    i < |cs| && Reached(cs, i, streaming) && cs[i].available && cs[i].quota.Full?
  }

  /** i is the last of the first n candidates found at its quota, or -1 if there is none. */
  ghost predicate LastAtQuota(cs: seq<Candidate>, i: int, n: nat, streaming: bool) {
    && -1 <= i < n
    && (i >= 0 ==> AtQuota(cs, i, streaming))
    && forall j: nat :: i < j < n ==> !AtQuota(cs, j, streaming)
  }

  /** What the result says of the last candidate found at its quota. */
  ghost predicate BlockedBy(r: Dispatched, cs: seq<Candidate>, i: int)
    requires i < |cs|
  {
    if i < 0 then !r.quotaBlocked else r.quotaBlocked && cs[i].quota.Full? && r.retryAfterSec == cs[i].quota.retryAfterSec
  }

  // ---- the methods -------------------------------------------------------------------------------------------

  /** One dispatch under its lease. */
  method Try(c: Candidate, i: nat, est: int, streaming: bool) returns (over: bool, wroteAny: bool, trace: seq<Event>)
    requires Tries(c)
    ensures trace == Attempt(c, i, est, streaming) && over == Stops(c, streaming) && wroteAny == WroteBytes(c, streaming)
  {
    var leased := c.quota.Leased?;
    trace := [];
    if leased {
      trace := trace + [LeaseTaken(i)];
    }
    trace := trace + [Sent(i)];
    wroteAny := WroteBytes(c, streaming);
    match c.outcome
    case Success(u, _) =>
      var actual := u.inTok + u.outTok;
      if actual <= 0 {
        actual := est;
      }
      if leased {
        trace := trace + [LeaseSettled(i, actual)];
      }
      over := true;
    case Failure(retryable, ctxDone, _) =>
      var canFailOver := !wroteAny;
      if leased {
        trace := trace + [if canFailOver then LeaseReleased(i) else LeaseSettled(i, est)];
      }
      trace := trace + [RecordedError(i)];
      over := ctxDone || !retryable || !canFailOver;
  }

  /** Tries candidates in order until one succeeds, fails for good, or has sent a byte. */
  method RunCandidates(cs: seq<Candidate>, est: int, streaming: bool)
    returns (r: Dispatched, wroteAny: bool, trace: seq<Event>)
    ensures trace == Attempts(cs, |cs|, est, streaming)
    ensures r.served ==> Serves(cs, r.used, streaming)
    ensures !r.served ==> forall i: nat :: !Serves(cs, i, streaming)
    ensures !r.served ==> (wroteAny <==> exists i: nat :: BreaksOff(cs, i, streaming))
    ensures r.attempted <==> exists i: nat :: SentTo(cs, i, streaming)
    ensures exists i :: LastAtQuota(cs, i, |cs|, streaming) && BlockedBy(r, cs, i)
  {
    hide Attempt, WroteBytes;
    r, wroteAny, trace := NothingSent, false, [];
    var i := 0;
    ghost var full := -1;
    while i < |cs|
      invariant i <= |cs| && Reached(cs, i, streaming)
      invariant trace == Attempts(cs, i, est, streaming) && !wroteAny && !r.served
      invariant r.attempted <==> exists j: nat :: j < i && SentTo(cs, j, streaming)
      invariant LastAtQuota(cs, full, i, streaming) && BlockedBy(r, cs, full)
    {
      var c := cs[i];
      if c.available {
        if c.quota.Full? {
          r := r.(quotaBlocked := true, retryAfterSec := c.quota.retryAfterSec);
          full := i;
        } else {
          r := r.(attempted := true);
          assert SentTo(cs, i, streaming);
          var over, wrote, piece := Try(c, i, est, streaming);
          trace, wroteAny := trace + piece, wrote;
          if over {
            NothingAfterStop(cs, i, |cs|, est, streaming);
            if c.outcome.Success? {
              r := r.(used := i, served := true);
            } else if wroteAny {
              assert BreaksOff(cs, i, streaming);
            }
            assert LastAtQuota(cs, full, |cs|, streaming);
            return;
          }
        }
      }
      i := i + 1;
    }
  }

  /** Once a candidate stops the loop, later ones do nothing. */
  lemma {:induction false} NothingAfterStop(cs: seq<Candidate>, i: nat, n: nat, est: int, streaming: bool)
    requires i < n <= |cs| && Stops(cs[i], streaming)
    ensures Attempts(cs, n, est, streaming) == Attempts(cs, i + 1, est, streaming)
    ensures forall j :: i < j <= |cs| ==> !Reached(cs, j, streaming)
  {
    if n > i + 1 {
      NothingAfterStop(cs, i, n - 1, est, streaming);
    }
  }

  datatype Resolution = ResolutionFailed | NodeKilled | Allowed

  /** A request after its estimate was reserved against the client's budget. */
  datatype Request = Request(badRunID: bool, resolution: Resolution, admitted: bool, streaming: bool, flushable: bool,
                             cs: seq<Candidate>, estUSD: real, estTok: int)

  /** The request got as far as the candidate loop. */
  predicate Dispatches(q: Request) {
    !q.badRunID && q.resolution.Allowed? && q.admitted && (q.streaming ==> q.flushable)
  }

  predicate HoldsTicket(q: Request) {
    !q.badRunID && q.resolution.Allowed? && q.admitted
  }

  predicate NoUsage(u: Usage) {
    u.inTok == 0 && u.outTok == 0 && u.cacheRead == 0 && u.cacheWrite == 0
  }

  /** What a refused or failed dispatch answers. */
  method NoServe(r: Dispatched) returns (reply: Reply)
    ensures reply == if r.quotaBlocked && !r.attempted then QuotaFull(r.retryAfterSec) else if !r.attempted then Unreachable else UpstreamFailed
  {
    if r.quotaBlocked && !r.attempted {
      return QuotaFull(r.retryAfterSec);
    }
    if !r.attempted {
      return Unreachable;
    }
    return UpstreamFailed;
  }

  /** Settles budget and ticket for a served request, at the estimate when no usage came back. */
  method RecordSuccess(c: Candidate, estUSD: real, estTok: int) returns (trace: seq<Event>)
    requires c.outcome.Success?
    ensures trace == Billed(ChargeFor(c, estUSD, estTok))
  {
    var u := c.outcome.usage;
    var cost, tok, status := c.cost, u.inTok + u.outTok, "ok";
    if u.inTok == 0 && u.outTok == 0 && u.cacheRead == 0 && u.cacheWrite == 0 {
      cost, tok, status := estUSD, estTok, "ok_estimated";
    }
    trace := [BudgetSettled(cost), TicketSettled(cost, tok), RecordedBill(Charge(cost, tok, status))];
  }

  function ChargeFor(c: Candidate, estUSD: real, estTok: int): Charge
    requires c.outcome.Success?
  {
    var u := c.outcome.usage;
    if NoUsage(u) then Charge(estUSD, estTok, "ok_estimated") else Charge(c.cost, u.inTok + u.outTok, "ok")
  }

  /** A stream that broke off is charged the estimate: the vendor was engaged. */
  function AbortCharge(q: Request): Charge {
    Charge(q.estUSD, q.estTok, "aborted")
  }

  function Billed(c: Charge): seq<Event> {
    [BudgetSettled(c.usd), TicketSettled(c.usd, c.tok), RecordedBill(c)]
  }

  /** How a request is settled once its candidates have run. */
  ghost predicate SettledBy(q: Request, rest: seq<Event>) {
    || (exists i: nat :: Serves(q.cs, i, q.streaming) && rest == Billed(ChargeFor(q.cs[i], q.estUSD, q.estTok)))
    || (exists i: nat :: BreaksOff(q.cs, i, q.streaming) && rest == Billed(AbortCharge(q)))
    || ((forall i: nat :: !Serves(q.cs, i, q.streaming) && !BreaksOff(q.cs, i, q.streaming)) && rest == [BudgetSettled(0.0)])
  }

  lemma FinishesAlone(cs: seq<Candidate>, i: nat, streaming: bool)
    requires Serves(cs, i, streaming) || BreaksOff(cs, i, streaming)
    ensures SentTo(cs, i, streaming)
    ensures forall j: nat :: Serves(cs, j, streaming) || BreaksOff(cs, j, streaming) ==> j == i
  {
  }

  /** The client is answered by what became of its candidates: 429 with the last wait heard only when
      a quota was full and nothing was sent, 503 only when there was nobody to ask. */
  ghost predicate Answers(q: Request, reply: Reply) {
    var cs, st := q.cs, q.streaming;
    && !reply.Refused?
    && (reply.Served? <==> exists i: nat :: Serves(cs, i, st))
    && (reply.Cut? <==> exists i: nat :: BreaksOff(cs, i, st))
    && (reply.QuotaFull? <==> (exists i: nat :: AtQuota(cs, i, st)) && !exists i: nat :: SentTo(cs, i, st))
    && (reply.QuotaFull? ==> forall i: nat :: LastAtQuota(cs, i, |cs|, st) ==> cs[i].quota == Full(reply.retryAfterSec))
    && (reply.Unreachable? <==> !exists i: nat :: AtQuota(cs, i, st) || SentTo(cs, i, st))
  }

  method ServeUnary(q: Request) returns (trace: seq<Event>, reply: Reply)
    requires !q.streaming
    ensures exists rest :: SettledBy(q, rest) && trace == Attempts(q.cs, |q.cs|, q.estTok, false) + rest
    ensures Answers(q, reply)
  {
    var r, wroteAny, tried := RunCandidates(q.cs, q.estTok, false);
    if !r.served {
      assert SettledBy(q, [BudgetSettled(0.0)]);
      reply := NoServe(r);
      return tried + [BudgetSettled(0.0)], reply;
    }
    var rest := RecordSuccess(q.cs[r.used], q.estUSD, q.estTok);
    assert SettledBy(q, rest);
    FinishesAlone(q.cs, r.used, q.streaming);
    trace, reply := tried + rest, Served;
  }

  method ServeStreaming(q: Request) returns (trace: seq<Event>, reply: Reply)
    requires q.streaming
    ensures !q.flushable ==> trace == [BudgetSettled(0.0)] && reply == Refused
    ensures q.flushable ==> exists rest :: SettledBy(q, rest) && trace == Attempts(q.cs, |q.cs|, q.estTok, true) + rest
    ensures q.flushable ==> Answers(q, reply)
  {
    if !q.flushable {
      return [BudgetSettled(0.0)], Refused;
    }
    var r, wroteAny, tried := RunCandidates(q.cs, q.estTok, true);
    if !r.served {
      if wroteAny {
        var rest := [BudgetSettled(q.estUSD), TicketSettled(q.estUSD, q.estTok), RecordedBill(Charge(q.estUSD, q.estTok, "aborted"))];
        assert SettledBy(q, rest);
        ghost var i: nat :| BreaksOff(q.cs, i, true);
        FinishesAlone(q.cs, i, true);
        return tried + rest, Cut;
      }
      assert SettledBy(q, [BudgetSettled(0.0)]);
      reply := NoServe(r);
      return tried + [BudgetSettled(0.0)], reply;
    }
    var rest := RecordSuccess(q.cs[r.used], q.estUSD, q.estTok);
    assert SettledBy(q, rest);
    FinishesAlone(q.cs, r.used, q.streaming);
    trace, reply := tried + rest, Served;
  }

  /** The trace of a request, from the budget reservation to the reply. */
  ghost predicate Handled(q: Request, t: seq<Event>) {
    if !HoldsTicket(q) then t == [BudgetSettled(0.0)]
    else if !Dispatches(q) then t == [BudgetSettled(0.0), TicketReleased]
    else exists rest :: SettledBy(q, rest) && t == Attempts(q.cs, |q.cs|, q.estTok, q.streaming) + rest + [TicketReleased]
  }

  method HandleChat(q: Request) returns (trace: seq<Event>, reply: Reply)
    ensures Handled(q, trace)
    ensures if Dispatches(q) then Answers(q, reply) else reply == Refused
  {
    if q.badRunID {
      return [BudgetSettled(0.0)], Refused;
    }
    if !q.resolution.Allowed? {
      return [BudgetSettled(0.0)], Refused;
    }
    if !q.admitted {
      return [BudgetSettled(0.0)], Refused;
    }
    if q.streaming {
      trace, reply := ServeStreaming(q);
    } else {
      trace, reply := ServeUnary(q);
    }
    trace := trace + [TicketReleased];
  }
}
