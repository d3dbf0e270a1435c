/** The reference model of a rolling velocity window: an unbounded log of signed
    deltas, each stamped with the second it was booked in. A second's value is its
    floored running total; the window is the sum of the last sixty of them. The ring
    buffer of one instance and the per-second hashes of the shared store are both
    proved to be implementations of this log. */
module WindowLog {
  const WINDOW: int := 60

  /** The two dimensions a window is kept for. */
  datatype Dim = Dollars | Tokens

  datatype Entry = Entry(sec: int, delta: real)

  type Log = seq<Entry>

  function Floor0(x: real): real {
    if x < 0.0 then 0.0 else x
  }

  function ClampTok(tok: int): int {
    if tok < 0 then 0 else tok
  }

  /** The value of second s: deltas are applied in order, flooring at zero after each. */
  function Bucket(log: Log, s: int): (b: real)
    ensures b >= 0.0
  {
    if |log| == 0 then 0.0
    else
      var e := log[|log| - 1];
      var before := Bucket(log[..|log| - 1], s);
      if e.sec == s then Floor0(before + e.delta) else before
  }

  /** Sum of the values of the n seconds starting at lo. */
  function Total(log: Log, lo: int, n: nat): (t: real)
    ensures t >= 0.0
  {
    if n == 0 then 0.0 else Total(log, lo, n - 1) + Bucket(log, lo + n - 1)
  }

  /** What the window reads at second now. */
  function WindowSum(log: Log, now: int): (t: real)
    ensures t >= 0.0
  {
    Total(log, now - WINDOW + 1, WINDOW)
  }

  /** Signed total of the deltas stamped in [lo, hi]. */
  function Signed(log: Log, lo: int, hi: int): real {
    if |log| == 0 then 0.0
    else
      var e := log[|log| - 1];
      Signed(log[..|log| - 1], lo, hi) + if lo <= e.sec <= hi then e.delta else 0.0
  }

  /** Total of the positive deltas stamped in [lo, hi]. */
  function Positive(log: Log, lo: int, hi: int): real {
    if |log| == 0 then 0.0
    else
      var e := log[|log| - 1];
      Positive(log[..|log| - 1], lo, hi) + if lo <= e.sec <= hi then Floor0(e.delta) else 0.0
  }

  ghost predicate StampedUpTo(log: Log, last: int) {
    forall i :: 0 <= i < |log| ==> log[i].sec <= last
  }

  lemma BucketAppend(log: Log, e: Entry, s: int)
    ensures Bucket(log + [e], s) == if e.sec == s then Floor0(Bucket(log, s) + e.delta) else Bucket(log, s)
  {
    assert (log + [e])[..|log|] == log;
  }

  lemma SignedAppend(log: Log, e: Entry, lo: int, hi: int)
    ensures Signed(log + [e], lo, hi) == Signed(log, lo, hi) + if lo <= e.sec <= hi then e.delta else 0.0
  {
    assert (log + [e])[..|log|] == log;
  }

  lemma {:induction false} BucketAfterLast(log: Log, last: int, s: int)
    requires StampedUpTo(log, last) && s > last
    ensures Bucket(log, s) == 0.0
  {
    if |log| > 0 {
      BucketAfterLast(log[..|log| - 1], last, s);
    }
  }

  lemma {:induction false} TotalAppend(log: Log, e: Entry, lo: int, n: nat)
    ensures Total(log + [e], lo, n) == Total(log, lo, n) +
            if lo <= e.sec < lo + n then Floor0(Bucket(log, e.sec) + e.delta) - Bucket(log, e.sec) else 0.0
  {
    if n > 0 {
      TotalAppend(log, e, lo, n - 1);
      BucketAppend(log, e, lo + n - 1);
    }
  }

  lemma {:induction false} TotalEmpty(lo: int, n: nat)
    ensures Total([], lo, n) == 0.0
  {
    if n > 0 {
      TotalEmpty(lo, n - 1);
    }
  }

  /** The floored total of a stretch of seconds is never below the signed total of the
      deltas stamped in it and never above the total of the positive ones. */
  lemma {:induction false} TotalBounds(log: Log, lo: int, n: nat)
    ensures Signed(log, lo, lo + n - 1) <= Total(log, lo, n) <= Positive(log, lo, lo + n - 1)
  {
    if |log| == 0 {
      TotalEmpty(lo, n);
    } else {
      var k := |log| - 1;
      assert log == log[..k] + [log[k]];
      TotalBounds(log[..k], lo, n);
      TotalAppend(log[..k], log[k], lo, n);
    }
  }

  /** Two logs that agree on every second of a stretch have the same total over it. */
  lemma {:induction false} TotalCongruent(a: Log, b: Log, lo: int, n: nat)
    requires forall s :: lo <= s < lo + n ==> Bucket(a, s) == Bucket(b, s)
    ensures Total(a, lo, n) == Total(b, lo, n)
  {
    if n > 0 {
      TotalCongruent(a, b, lo, n - 1);
    }
  }

  /** A zero total over a stretch means every second in it is zero. */
  lemma {:induction false} TotalZero(log: Log, lo: int, n: nat)
    requires Total(log, lo, n) == 0.0
    ensures forall s :: lo <= s < lo + n ==> Bucket(log, s) == 0.0
  {
    if n > 0 {
      TotalZero(log, lo, n - 1);
    }
  }

  ghost predicate NonNegativeLog(log: Log) {
    forall i {:trigger log[i]} :: 0 <= i < |log| ==> log[i].delta >= 0.0
  }

  lemma {:induction false} SignedWithin(log: Log, lo: int, hi: int, hi': int)
    requires NonNegativeLog(log) && hi <= hi'
    ensures 0.0 <= Signed(log, lo, hi) <= Signed(log, lo, hi')
  {
    if log != [] {
      SignedWithin(log[..|log| - 1], lo, hi, hi');
    }
  }

  /** A later part of a stretch never totals more than all of it. */
  lemma {:induction false} TotalOfEnd(log: Log, lo: int, n: nat, lo': int, n': nat)
    requires lo' <= lo && lo + n == lo' + n'
    ensures Total(log, lo, n) <= Total(log, lo', n')
  {
    if n > 0 {
      TotalOfEnd(log, lo, n - 1, lo', n' - 1);
    }
  }

  /** What was booked since lo, a second of the last minute, is within what the window reads. */
  lemma SignedWithinWindow(log: Log, lo: int, now: int)
    requires now - WINDOW < lo <= now
    ensures Signed(log, lo, now) <= WindowSum(log, now)
  {
    TotalBounds(log, lo, now - lo + 1);
    TotalOfEnd(log, lo, now - lo + 1, now - WINDOW + 1, WINDOW);
  }

  lemma {:induction false} NothingIn(log: Log, lo: int, hi: int)
    requires hi < lo
    ensures Signed(log, lo, hi) == 0.0
  {
    if log != [] {
      NothingIn(log[..|log| - 1], lo, hi);
    }
  }
}
