/** Spend aggregates: grand totals, bounded per-client and per-run tables that fold overflow into
    one bucket, and the ring of recent events. */
module Ledgers {
  const MAX_TRACKED: nat := 20_000
  const OVERFLOW: string := "\0(other)"
  const ANONYMOUS: string := "\0(anonymous)"
  const RECENT_RING: nat := 200

  datatype SpendRecord = SpendRecord(requestID: string, user: string, runID: string, inTok: int, outTok: int,
                           cacheRead: int, cacheWrite: int, costUSD: real, status: string)

  datatype Stat = Stat(requests: int, tokens: int, costUSD: real) {
    function Plus(o: Stat): Stat {
      Stat(requests + o.requests, tokens + o.tokens, costUSD + o.costUSD)
    }
  }

  const NoStat := Stat(0, 0, 0.0)

  datatype Event = Event(requestID: string, user: string, runID: string, tokens: int, costUSD: real, status: string)

  /** One addition to a table. */
  datatype Entry = Entry(key: string, amount: Stat)

  type Table = map<string, Stat>

  function Tokens(r: SpendRecord): int {
    r.inTok + r.outTok + r.cacheRead + r.cacheWrite
  }

  function AmountOf(r: SpendRecord): Stat {
    Stat(1, Tokens(r), r.costUSD)
  }

  function EventOf(r: SpendRecord): Event {
    Event(r.requestID, r.user, r.runID, Tokens(r), r.costUSD, r.status)
  }

  function UserEntry(r: SpendRecord): Entry {
    Entry(if r.user == "" then ANONYMOUS else r.user, AmountOf(r))
  }

  function RunEntry(r: SpendRecord): Entry {
    Entry(r.runID, AmountOf(r))
  }

  /** Adds to an entry of a table, or to the overflow entry once the table is full. */
  function Track(m: Table, e: Entry): Table {
    var key := if e.key !in m && |m| >= MAX_TRACKED then OVERFLOW else e.key;
    m[key := (if key in m then m[key] else NoStat).Plus(e.amount)]
  }

  function Tracked(feed: seq<Entry>): Table {
    if feed == [] then map[] else Track(Tracked(feed[..|feed| - 1]), feed[|feed| - 1])
  }

  function UserFeed(h: seq<SpendRecord>): seq<Entry> {
    if h == [] then [] else UserFeed(h[..|h| - 1]) + [UserEntry(h[|h| - 1])]
  }

  /** Only records of a run feed the run table. */
  function RunFeed(h: seq<SpendRecord>): seq<Entry> {
    if h == [] then []
    else RunFeed(h[..|h| - 1]) + if h[|h| - 1].runID != "" then [RunEntry(h[|h| - 1])] else []
  }

  function Total(feed: seq<Entry>): Stat {
    if feed == [] then NoStat else Total(feed[..|feed| - 1]).Plus(feed[|feed| - 1].amount)
  }

  // ---- tables -------------------------------------------------------------------------------------------------

  /** The sum of all entries of a table. */
  ghost function SumOf(m: Table): Stat {
    if m == map[] then NoStat
    else
      var k :| k in m;
      SumOf(m - {k}).Plus(m[k])
  }

  lemma {:induction false} SumAnyOrder(m: Table, k: string)
    requires k in m
    ensures SumOf(m) == SumOf(m - {k}).Plus(m[k])
    decreases |m|
  {
    var j :| j in m && SumOf(m) == SumOf(m - {j}).Plus(m[j]);
    if j != k {
      var rest := m - {j} - {k};
      assert m - {k} - {j} == rest;
      SumAnyOrder(m - {j}, k);
      SumAnyOrder(m - {k}, j);
      assert SumOf(m) == SumOf(rest).Plus(m[k]).Plus(m[j]);
      assert SumOf(m - {k}) == SumOf(rest).Plus(m[j]);
    }
  }

  lemma TrackAdds(m: Table, e: Entry)
    ensures SumOf(Track(m, e)) == SumOf(m).Plus(e.amount)
  {
    var key := if e.key !in m && |m| >= MAX_TRACKED then OVERFLOW else e.key;
    var m' := Track(m, e);
    SumAnyOrder(m', key);
    if key in m {
      SumAnyOrder(m, key);
      assert m' - {key} == m - {key};
    } else {
      assert m' - {key} == m;
    }
  }

  /** Despite folding, a table's entries sum exactly to everything ever added. */
  lemma {:induction false} TableSumsToTotal(feed: seq<Entry>)
    ensures SumOf(Tracked(feed)) == Total(feed)
  {
    if feed != [] {
      TableSumsToTotal(feed[..|feed| - 1]);
      TrackAdds(Tracked(feed[..|feed| - 1]), feed[|feed| - 1]);
    }
  }

  ghost predicate Bounded(m: Table) {
    |m| <= MAX_TRACKED || (|m| == MAX_TRACKED + 1 && OVERFLOW in m)
  }

  lemma TrackBounded(m: Table, e: Entry)
    requires Bounded(m)
    ensures Bounded(Track(m, e))
  {
    var key := if e.key !in m && |m| >= MAX_TRACKED then OVERFLOW else e.key;
    assert Track(m, e).Keys == m.Keys + {key};
  }

  lemma {:induction false} TableBounded(feed: seq<Entry>)
    ensures Bounded(Tracked(feed)) && |Tracked(feed)| <= MAX_TRACKED + 1
  {
    if feed != [] {
      TableBounded(feed[..|feed| - 1]);
      TrackBounded(Tracked(feed[..|feed| - 1]), feed[|feed| - 1]);
    }
  }

  /** What was added under one key. */
  function TotalFor(feed: seq<Entry>, key: string): Stat {
    if feed == [] then NoStat
    else
      var before := TotalFor(feed[..|feed| - 1], key);
      if feed[|feed| - 1].key == key then before.Plus(feed[|feed| - 1].amount) else before
  }

  /** A key that has its own entry has all of its additions in it; a key that has none and is not
      the overflow key was first seen when the table was already full. */
  lemma {:induction false} TrackedExactly(feed: seq<Entry>, key: string)
    requires key != OVERFLOW
    ensures var m := Tracked(feed);
            && (key in m ==> m[key] == TotalFor(feed, key))
            && (key !in m ==> TotalFor(feed, key) == NoStat || |m| >= 20_000)
  {
    if feed != [] {
      var pre, e := feed[..|feed| - 1], feed[|feed| - 1];
      TrackedExactly(pre, key);
      FullStaysFull(Tracked(pre), e);
      if key !in Tracked(pre) && key in Tracked(feed) {
        assert e.key == key && |Tracked(pre)| < MAX_TRACKED;
      }
    }
  }

  lemma FullStaysFull(m: Table, e: Entry)
    ensures |m| <= |Track(m, e)|
  {
    var key := if e.key !in m && |m| >= MAX_TRACKED then OVERFLOW else e.key;
    assert Track(m, e).Keys == m.Keys + {key};
    assert m.Keys <= m.Keys + {key};
  }

  // ---- what was spent ---------------------------------------------------------------------------------------------

  /** Whose spend is asked for. */
  datatype Who = Everyone | Client(name: string) | AnyRun | OneRun(id: string)

  predicate Made(w: Who, r: SpendRecord) {
    match w
    case Everyone => true
    case Client(name) => r.user == name
    case AnyRun => r.runID != ""
    case OneRun(id) => r.runID == id
  }

  /** Read off the records themselves, without feed or table. */
  function Spent(h: seq<SpendRecord>, w: Who): Stat {
    if h == [] then NoStat
    else
      var r, before := h[|h| - 1], Spent(h[..|h| - 1], w);
      if !Made(w, r) then before
      else
        Stat(before.requests + 1, before.tokens + r.inTok + r.outTok + r.cacheRead + r.cacheWrite, before.costUSD + r.costUSD)
  }

  lemma TotalAppend(feed: seq<Entry>, e: Entry)
    ensures Total(feed + [e]) == Total(feed).Plus(e.amount)
  {
    assert (feed + [e])[..|feed|] == feed;
  }

  lemma {:induction false} TotalsAreSpent(h: seq<SpendRecord>)
    ensures Total(UserFeed(h)) == Spent(h, Everyone) && Total(RunFeed(h)) == Spent(h, AnyRun)
  {
    if h != [] {
      hide Total;
      var pre, r := h[..|h| - 1], h[|h| - 1];
      TotalsAreSpent(pre);
      TotalAppend(UserFeed(pre), UserEntry(r));
      if r.runID != "" {
        TotalAppend(RunFeed(pre), RunEntry(r));
      } else {
        assert RunFeed(h) == RunFeed(pre);
      }
    }
  }

  lemma TotalForAppend(feed: seq<Entry>, e: Entry, key: string)
    ensures TotalFor(feed + [e], key) == if e.key == key then TotalFor(feed, key).Plus(e.amount) else TotalFor(feed, key)
  {
    assert (feed + [e])[..|feed|] == feed;
  }

  /** A client's key gathers that client's records, the anonymous key those without one. */
  lemma {:induction false} ClientKeyGathers(h: seq<SpendRecord>, name: string)
    requires name != ""
    ensures TotalFor(UserFeed(h), name) ==
            if name == ANONYMOUS then Spent(h, Client("")).Plus(Spent(h, Client(name))) else Spent(h, Client(name))
  {
    if h != [] {
      var pre, r := h[..|h| - 1], h[|h| - 1];
      ClientKeyGathers(pre, name);
      TotalForAppend(UserFeed(pre), UserEntry(r), name);
    }
  }

  lemma {:induction false} RunKeyGathers(h: seq<SpendRecord>, id: string)
    ensures TotalFor(RunFeed(h), id) == if id == "" then NoStat else Spent(h, OneRun(id))
  {
    if h != [] {
      var pre, r := h[..|h| - 1], h[|h| - 1];
      RunKeyGathers(pre, id);
      if r.runID != "" {
        TotalForAppend(RunFeed(pre), RunEntry(r), id);
      } else {
        assert RunFeed(h) == RunFeed(pre);
      }
    }
  }

  /** A client or run with an entry of its own has exactly its records in it, tokens of every kind
      counted; one without had no record or came when the table was full; records without a client
      are gathered in the anonymous entry. */
  lemma EntriesAreSpent(h: seq<SpendRecord>, key: string)
    requires key != OVERFLOW && key != ""
    ensures var m := Tracked(UserFeed(h));
            var own := if key == ANONYMOUS then Spent(h, Client("")).Plus(Spent(h, Client(key))) else Spent(h, Client(key));
            if key in m then m[key] == own else own == NoStat || |m| >= 20_000
    ensures var m := Tracked(RunFeed(h));
            if key in m then m[key] == Spent(h, OneRun(key)) else Spent(h, OneRun(key)) == NoStat || |m| >= 20_000
  {
    ClientKeyGathers(h, key);
    RunKeyGathers(h, key);
    TrackedExactly(UserFeed(h), key);
    TrackedExactly(RunFeed(h), key);
  }

  // ---- the ring ------------------------------------------------------------------------------------------------

  function RingSlot(i: nat): (k: nat)
    ensures k < RECENT_RING
  {
    i % RECENT_RING
  }

  /** The last events of a history sit in the slots of their numbers. */
  ghost predicate RingHolds(slots: seq<Event>, h: seq<SpendRecord>) {
    && |slots| == RECENT_RING
    && forall i: nat {:trigger RingSlot(i)} {:trigger h[i]} :: i < |h| && |h| - RECENT_RING <= i ==> slots[RingSlot(i)] == EventOf(h[i])
  }

  lemma RingAppends(slots: seq<Event>, h: seq<SpendRecord>, r: SpendRecord)
    requires RingHolds(slots, h)
    ensures RingHolds(slots[RingSlot(|h|) := EventOf(r)], h + [r])
  {
    var h' := h + [r];
    forall i: nat {:trigger RingSlot(i)} | i < |h'| && |h'| - RECENT_RING <= i
      ensures slots[RingSlot(|h|) := EventOf(r)][RingSlot(i)] == EventOf(h'[i])
    {
      if i < |h| {
        assert h'[i] == h[i];
        assert RingSlot(i) != RingSlot(|h|);
      }
    }
  }

  /** An event shows a record's ids, status and cost, and its tokens of every kind together. */
  ghost predicate Shows(e: Event, r: SpendRecord) {
    && e.requestID == r.requestID && e.user == r.user && e.runID == r.runID && e.status == r.status
    && e.costUSD == r.costUSD && e.tokens == r.inTok + r.outTok + r.cacheRead + r.cacheWrite
  }

  // ---- the ledger ----------------------------------------------------------------------------------------------

  class Ledger {
    var total: Stat
    var byUser: Table
    var byRun: Table
    const recent: array<Event>
    var recentN: nat
    /** Every record ever made. */
    ghost var history: seq<SpendRecord>

    ghost predicate Valid()
      reads this, recent
    {
      && recent.Length == RECENT_RING
      && recentN == |history|
      && total == Total(UserFeed(history))
      && byUser == Tracked(UserFeed(history)) && byRun == Tracked(RunFeed(history))
      && RingHolds(recent[..], history)
    }

    constructor ()
      ensures Valid() && history == [] && fresh(recent)
    {
      total, byUser, byRun, recentN, history := NoStat, map[], map[], 0, [];
      recent := new Event[RECENT_RING](_ => Event("", "", "", 0, 0.0, ""));
    }

    method TrackIn(m: Table, key0: string, tokens: int, cost: real) returns (m': Table)
      ensures m' == Track(m, Entry(key0, Stat(1, tokens, cost)))
    {
      var key := key0;
      if key !in m && |m| >= MAX_TRACKED {
        key := OVERFLOW;
      }
      var st := if key in m then m[key] else NoStat;
      m' := m[key := Stat(st.requests + 1, st.tokens + tokens, st.costUSD + cost)];
    }

    method Record(r: SpendRecord)
      requires Valid()
      modifies this, recent
      ensures Valid() && history == old(history) + [r]
    {
      hide Track, RingHolds, UserFeed, RunFeed, Total, Tracked;
      var tokens := Tokens(r);
      total := Stat(total.requests + 1, total.tokens + tokens, total.costUSD + r.costUSD);
      var user := r.user;
      if user == "" {
        user := ANONYMOUS;
      }
      byUser := TrackIn(byUser, user, tokens, r.costUSD);
      if r.runID != "" {
        byRun := TrackIn(byRun, r.runID, tokens, r.costUSD);
      }
      RingAppends(recent[..], history, r);
      FeedsGrow(history, r);
      recent[RingSlot(recentN)] := Event(r.requestID, r.user, r.runID, tokens, r.costUSD, r.status);
      recentN := recentN + 1;
      history := history + [r];
    }

    /** The recent ring, newest first. */
    method RecentEvents() returns (out: seq<Event>)
      requires Valid()
      ensures |out| == if |history| < 200 then |history| else 200
      ensures forall i :: 0 <= i < |out| ==> Shows(out[i], history[|history| - 1 - i])
    {
      var n := recentN;
      if n > RECENT_RING {
        n := RECENT_RING;
      }
      out := [];
      for i := 0 to n
        invariant |out| == i
        invariant forall j :: 0 <= j < i ==> out[j] == EventOf(history[|history| - 1 - j])
      {
        var idx := RingSlot(recentN - 1 - i);
        assert recent[..][idx] == EventOf(history[|history| - 1 - i]);
        out := out + [recent[idx]];
      }
    }

    /** The grand total, which the client table adds up to exactly; the run table adds up to the
        total of the records that name a run. */
    method Totals() returns (t: Stat)
      requires Valid()
      ensures t == SumOf(byUser) == Spent(history, Everyone)
      ensures SumOf(byRun) == Spent(history, AnyRun)
      ensures |byUser| <= 20_001 && |byRun| <= 20_001
    {
      TotalsAreSpent(history);
      TableSumsToTotal(UserFeed(history));
      TableSumsToTotal(RunFeed(history));
      TableBounded(UserFeed(history));
      TableBounded(RunFeed(history));
      t := total;
    }
  }

  lemma FeedsGrow(h: seq<SpendRecord>, r: SpendRecord)
    ensures UserFeed(h + [r]) == UserFeed(h) + [UserEntry(r)]
    ensures RunFeed(h + [r]) == RunFeed(h) + if r.runID != "" then [RunEntry(r)] else []
    ensures Total(UserFeed(h + [r])) == Total(UserFeed(h)).Plus(AmountOf(r))
    ensures Tracked(UserFeed(h + [r])) == Track(Tracked(UserFeed(h)), UserEntry(r))
    ensures Tracked(RunFeed(h + [r])) == if r.runID != "" then Track(Tracked(RunFeed(h)), RunEntry(r)) else Tracked(RunFeed(h))
  {
    assert (h + [r])[..|h|] == h;
    var u := UserFeed(h);
    assert (u + [UserEntry(r)])[..|u|] == u;
    var f := RunFeed(h);
    if r.runID != "" {
      assert (f + [RunEntry(r)])[..|f|] == f;
    } else {
      assert f + [] == f;
    }
  }
}
