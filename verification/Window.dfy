/** The sixty-slot ring of the local firewall, updated in place, and the proof that it
    implements the unbounded per-second log. */
module Windows {
  import opened WindowLog

  /** Abstract value of one window: a dollar log, a token log, and the latest second the
      ring has been moved to. */
  datatype WindowVal = WindowVal(usd: Log, tok: Log, last: int, primed: bool) {
    ghost predicate Valid() {
      && StampedUpTo(usd, last) && StampedUpTo(tok, last)
      && (!primed ==> usd == [] && tok == [])
    }

    /** The second a call made at nowSec is booked in: the clock never moves backwards. */
    function Stamp(nowSec: int): int {
      if primed && nowSec <= last then last else nowSec
    }

    function Advanced(nowSec: int): WindowVal {
      this.(last := Stamp(nowSec), primed := true)
    }

    function Added(nowSec: int, dUSD: real, dTok: int): WindowVal {
      var sec := Stamp(nowSec);
      WindowVal(usd + [Entry(sec, dUSD)], tok + [Entry(sec, dTok as real)], sec, true)
    }

    function SumUSD(nowSec: int): (u: real)
      ensures u >= 0.0
    {
      WindowSum(usd, Stamp(nowSec))
    }

    function SumTok(nowSec: int): (t: real)
      ensures t >= 0.0
    {
      WindowSum(tok, Stamp(nowSec))
    }
  }

  const EmptyWindow := WindowVal([], [], 0, false)

  lemma OpsKeepValid(w: WindowVal, nowSec: int, dUSD: real, dTok: int)
    requires w.Valid()
    ensures w.Advanced(nowSec).Valid() && w.Added(nowSec, dUSD, dTok).Valid()
  {
  }

  /** Moving the ring to a second and reading it later gives what reading it later gives. */
  lemma AdvanceDoesNotChangeSums(w: WindowVal, s: int, later: int)
    requires s <= later
    ensures w.Advanced(s).SumUSD(later) == w.SumUSD(later)
    ensures w.Advanced(s).SumTok(later) == w.SumTok(later)
  {
  }

  function Slot(sec: int): (i: nat)
    ensures i < WINDOW
  {
    sec % WINDOW
  }

  function SlotSum(slots: seq<real>): real {
    if |slots| == 0 then 0.0 else SlotSum(slots[..|slots| - 1]) + slots[|slots| - 1]
  }

  ghost predicate Tracks(slots: seq<real>, log: Log, last: int)
    requires |slots| == WINDOW
  {
    forall s {:trigger Bucket(log, s)} :: last - WINDOW < s <= last ==> slots[Slot(s)] == Bucket(log, s)
  }

  /** n slots read in ring order from second lo. */
  function RingSum(slots: seq<real>, lo: int, n: nat): real
    requires |slots| == WINDOW
  {
    if n == 0 then 0.0 else RingSum(slots, lo, n - 1) + slots[Slot(lo + n - 1)]
  }

  lemma {:induction false} RingSumHead(slots: seq<real>, lo: int, n: nat)
    requires |slots| == WINDOW
    ensures RingSum(slots, lo, n + 1) == slots[Slot(lo)] + RingSum(slots, lo + 1, n)
  {
    if n > 0 {
      RingSumHead(slots, lo, n - 1);
    }
  }

  lemma RingSumShift(slots: seq<real>, lo: int)
    requires |slots| == WINDOW
    ensures RingSum(slots, lo, WINDOW) == RingSum(slots, lo + 1, WINDOW)
  {
    RingSumHead(slots, lo, WINDOW - 1);
    assert Slot(lo) == Slot(lo + WINDOW);
  }

  lemma {:induction false} RingSumRotate(slots: seq<real>, lo: int)
    requires |slots| == WINDOW
    ensures RingSum(slots, lo, WINDOW) == RingSum(slots, 0, WINDOW)
    decreases if lo < 0 then -lo else lo
  {
    if lo < 0 {
      RingSumShift(slots, lo);
      RingSumRotate(slots, lo + 1);
    } else if lo > 0 {
      RingSumShift(slots, lo - 1);
      RingSumRotate(slots, lo - 1);
    }
  }

  lemma {:induction false} RingSumFromZero(slots: seq<real>, n: nat)
    requires |slots| == WINDOW && n <= WINDOW
    ensures RingSum(slots, 0, n) == SlotSum(slots[..n])
  {
    if n > 0 {
      RingSumFromZero(slots, n - 1);
      assert slots[..n][..n - 1] == slots[..n - 1];
    }
  }

  lemma {:induction false} RingSumIsTotal(slots: seq<real>, log: Log, last: int, n: nat)
    requires |slots| == WINDOW && n <= WINDOW && Tracks(slots, log, last)
    ensures RingSum(slots, last - WINDOW + 1, n) == Total(log, last - WINDOW + 1, n)
  {
    if n > 0 {
      RingSumIsTotal(slots, log, last, n - 1);
    }
  }

  /** Adding up the sixty slots in array order reads the window of the log. */
  lemma SlotSumIsWindowSum(slots: seq<real>, log: Log, last: int)
    requires |slots| == 60 && Tracks(slots, log, last)
    ensures SlotSum(slots) == Total(log, last - 59, 60)
  {
    RingSumFromZero(slots, WINDOW);
    assert slots[..WINDOW] == slots;
    RingSumRotate(slots, last - WINDOW + 1);
    RingSumIsTotal(slots, log, last, WINDOW);
  }

  lemma SlotsDiffer(s: int)
    ensures forall t {:trigger Slot(t)} :: t != s && s - WINDOW < t < s + WINDOW ==> Slot(t) != Slot(s)
  {
  }

  /** The slots of the seconds (last, now] are zero and the rest of the last minute is kept. */
  ghost predicate Cleared(before: seq<real>, after: seq<real>, last: int, now: int)
    requires |before| == |after| == WINDOW
  {
    && (forall s {:trigger Slot(s)} :: last < s <= now && now - WINDOW < s ==> after[Slot(s)] == 0.0)
    && (forall s {:trigger Slot(s)} :: now - WINDOW < s <= last ==> after[Slot(s)] == before[Slot(s)])
  }

  /** Clearing exactly the slots of the seconds passed keeps the ring in step. */
  lemma TracksAdvance(before: seq<real>, after: seq<real>, log: Log, last: int, now: int)
    requires |before| == |after| == WINDOW && Tracks(before, log, last) && StampedUpTo(log, last) && last < now
    requires Cleared(before, after, last, now)
    ensures Tracks(after, log, now)
  {
    forall s {:trigger Bucket(log, s)} | now - WINDOW < s <= now
      ensures after[Slot(s)] == Bucket(log, s)
    {
      if s > last {
        BucketAfterLast(log, last, s);
      }
    }
  }

  lemma TracksAppend(before: seq<real>, log: Log, sec: int, delta: real)
    requires |before| == WINDOW && Tracks(before, log, sec)
    ensures Tracks(before[Slot(sec) := Floor0(before[Slot(sec)] + delta)], log + [Entry(sec, delta)], sec)
  {
    var log' := log + [Entry(sec, delta)];
    var after := before[Slot(sec) := Floor0(before[Slot(sec)] + delta)];
    forall s {:trigger Bucket(log', s)} | sec - WINDOW < s <= sec
      ensures after[Slot(s)] == Bucket(log', s)
    {
      BucketAppend(log, Entry(sec, delta), s);
      assert Bucket(log, s) == before[Slot(s)];
      assert Slot(s) == Slot(sec) ==> s == sec;
    }
  }

  /** Token slots as reals, so that both dimensions share one set of lemmas. */
  function Reals(a: seq<int>): (r: seq<real>)
    ensures |r| == |a| && forall i :: 0 <= i < |a| ==> r[i] == a[i] as real
  {
    seq(|a|, i requires 0 <= i < |a| => a[i] as real)
  }

  class Window {
    const usd: array<real>
    const toks: array<int>
    var lastSlot: int
    var primed: bool
    ghost var usdLog: Log
    ghost var tokLog: Log

    ghost predicate Valid()
      reads this, usd, toks
    {
      && usd.Length == WINDOW && toks.Length == WINDOW
      && View().Valid()
      && (!primed ==> forall i :: 0 <= i < WINDOW ==> usd[i] == 0.0 && toks[i] == 0)
      && Tracks(usd[..], usdLog, lastSlot)
      && Tracks(Reals(toks[..]), tokLog, lastSlot)
    }

    ghost function View(): WindowVal
      reads this
    {
      WindowVal(usdLog, tokLog, lastSlot, primed)
    }

    constructor ()
      ensures Valid() && View() == EmptyWindow
      ensures fresh(this) && fresh(usd) && fresh(toks)
    {
      usd := new real[WINDOW](_ => 0.0);
      toks := new int[WINDOW](_ => 0);
      lastSlot, primed := 0, false;
      usdLog, tokLog := [], [];
    }

    /** Zeroes the slots of the seconds (lastSlot, nowSec], in both arrays. */
    method ClearElapsed(nowSec: int)
      requires usd.Length == WINDOW && toks.Length == WINDOW && lastSlot < nowSec
      modifies usd, toks
      ensures Cleared(old(usd[..]), usd[..], lastSlot, nowSec)
      ensures Cleared(Reals(old(toks[..])), Reals(toks[..]), lastSlot, nowSec)
    {
      var gap := nowSec - lastSlot;
      if gap >= WINDOW {
        for i := 0 to usd.Length
          invariant forall j :: 0 <= j < i ==> usd[j] == 0.0 && toks[j] == 0
        {
          usd[i] := 0.0;
          toks[i] := 0;
        }
      } else {
        var s := lastSlot + 1;
        while s <= nowSec
          invariant lastSlot < s <= nowSec + 1
          invariant forall t {:trigger Slot(t)} :: lastSlot < t < s ==> usd[Slot(t)] == 0.0 && toks[Slot(t)] == 0
          invariant forall t {:trigger Slot(t)} :: nowSec - WINDOW < t <= lastSlot ==>
                      usd[Slot(t)] == old(usd[Slot(t)]) && toks[Slot(t)] == old(toks[Slot(t)])
        {
          var idx := Slot(s);
          SlotsDiffer(s);
          usd[idx] := 0.0;
          toks[idx] := 0;
          s := s + 1;
        }
      }
    }

    method Advance(nowSec: nat) returns (sec: int)
      requires Valid()
      modifies this`lastSlot, this`primed, usd, toks
      ensures Valid()
      ensures View() == old(View()).Advanced(nowSec) && sec == lastSlot
    {
      if !primed {
        primed := true;
        lastSlot := nowSec;
        return nowSec;
      }
      if nowSec <= lastSlot {
        return lastSlot;
      }
      ClearElapsed(nowSec);
      TracksAdvance(old(usd[..]), usd[..], usdLog, lastSlot, nowSec);
      TracksAdvance(Reals(old(toks[..])), Reals(toks[..]), tokLog, lastSlot, nowSec);
      lastSlot := nowSec;
      return nowSec;
    }

    /** The array part of Add: the current slot moves by the delta and is floored at zero. */
    method Book(idx: nat, dUSD: real, dTok: int)
      requires usd.Length == WINDOW && toks.Length == WINDOW && idx < WINDOW
      modifies usd, toks
      ensures usd[..] == old(usd[..])[idx := Floor0(old(usd[idx]) + dUSD)]
      ensures Reals(toks[..]) == Reals(old(toks[..]))[idx := Floor0(old(toks[idx]) as real + dTok as real)]
    {
      usd[idx] := usd[idx] + dUSD;
      toks[idx] := toks[idx] + dTok;
      if usd[idx] < 0.0 {
        usd[idx] := 0.0;
      }
      if toks[idx] < 0 {
        toks[idx] := 0;
      }
    }

    method Add(nowSec: nat, dUSD: real, dTok: int)
      requires Valid()
      modifies this, usd, toks
      ensures Valid()
      ensures View() == old(View()).Added(nowSec, dUSD, dTok)
    {
      var sec := Advance(nowSec);
      TracksAppend(usd[..], usdLog, sec, dUSD);
      TracksAppend(Reals(toks[..]), tokLog, sec, dTok as real);
      Book(Slot(sec), dUSD, dTok);
      usdLog := usdLog + [Entry(sec, dUSD)];
      tokLog := tokLog + [Entry(sec, dTok as real)];
    }

    method Sum(nowSec: nat) returns (u: real, t: int)
      requires Valid()
      modifies this`lastSlot, this`primed, usd, toks
      ensures Valid()
      ensures View() == old(View()).Advanced(nowSec)
      ensures u == old(View()).SumUSD(nowSec) && t as real == old(View()).SumTok(nowSec)
    {
      var _ := Advance(nowSec);
      u, t := 0.0, 0;
      for i := 0 to usd.Length
        invariant u == SlotSum(usd[..i])
        invariant t as real == SlotSum(Reals(toks[..])[..i])
      {
        assert usd[..i + 1][..i] == usd[..i];
        assert Reals(toks[..])[..i + 1][..i] == Reals(toks[..])[..i];
        u := u + usd[i];
        t := t + toks[i];
      }
      assert usd[..WINDOW] == usd[..] && Reals(toks[..])[..WINDOW] == Reals(toks[..]);
      SlotSumIsWindowSum(usd[..], usdLog, lastSlot);
      SlotSumIsWindowSum(Reals(toks[..]), tokLog, lastSlot);
      if u < 0.0 {
        u := 0.0;
      }
      if t < 0 {
        t := 0;
      }
    }
  }
}
