/** Where every record given to the writer is, at every step. */
module LedgerWriterProofs {
  import opened LedgerWriter

  // ---- flush attempts ---------------------------------------------------------------------------------------

  /** The records of all attempts, in order. */
  function Tried(a: seq<Attempt>): seq<Rec> {
    if a == [] then [] else Tried(a[..|a| - 1]) + a[|a| - 1].batch
  }

  /** The records of the attempts that ended as ok says. */
  function Ended(a: seq<Attempt>, ok: bool): seq<Rec> {
    if a == [] then []
    else Ended(a[..|a| - 1], ok) + if a[|a| - 1].ok == ok then a[|a| - 1].batch else []
  }

  function Flushed(s: WSys): seq<Rec> {
    Ended(s.attempts, true)
  }

  lemma {:induction false} TriedSplit(a: seq<Attempt>)
    ensures multiset(Tried(a)) == multiset(Ended(a, true)) + multiset(Ended(a, false))
  {
    if a != [] {
      TriedSplit(a[..|a| - 1]);
    }
  }

  /** x can be read off y by skipping some of its elements. */
  predicate Subsequence(x: seq<Rec>, y: seq<Rec>)
    decreases |y|
  {
    if x == [] then true
    else y != [] && (if x[|x| - 1] == y[|y| - 1] then Subsequence(x[..|x| - 1], y[..|y| - 1]) else Subsequence(x, y[..|y| - 1]))
  }

  lemma {:induction false} SubsequenceSkip(x: seq<Rec>, y: seq<Rec>, z: seq<Rec>)
    requires Subsequence(x, y)
    ensures Subsequence(x, y + z)
  {
    if z != [] {
      var r := z[|z| - 1];
      SubsequenceSkip(x, y, z[..|z| - 1]);
      assert (y + z)[..|y + z| - 1] == y + z[..|z| - 1];
      if x != [] && x[|x| - 1] == r {
        SubsequenceShorter(x, y + z[..|z| - 1]);
      }
    } else {
      assert y + z == y;
    }
  }

  lemma {:induction false} SubsequenceShorter(x: seq<Rec>, y: seq<Rec>)
    requires Subsequence(x, y) && x != []
    ensures Subsequence(x[..|x| - 1], y)
    decreases |y|, 0
  {
    var p := x[..|x| - 1];
    if x[|x| - 1] == y[|y| - 1] {
      assert [y[|y| - 1]] == y[|y| - 1..] && y == y[..|y| - 1] + [y[|y| - 1]];
      SubsequenceOneMore(p, y[..|y| - 1], y[|y| - 1]);
    } else {
      SubsequenceShorter(x, y[..|y| - 1]);
      assert y == y[..|y| - 1] + [y[|y| - 1]];
      SubsequenceOneMore(p, y[..|y| - 1], y[|y| - 1]);
    }
  }

  lemma {:induction false} SubsequenceOneMore(x: seq<Rec>, y: seq<Rec>, r: Rec)
    requires Subsequence(x, y)
    ensures Subsequence(x, y + [r])
    decreases |y|, 1
  {
    assert (y + [r])[..|y|] == y;
    if x != [] && x[|x| - 1] == r {
      SubsequenceShorter(x, y);
    }
  }

  lemma {:induction false} SubsequenceAppend(x: seq<Rec>, y: seq<Rec>, z: seq<Rec>)
    requires Subsequence(x, y)
    ensures Subsequence(x + z, y + z)
  {
    if z != [] {
      var n := |z| - 1;
      SubsequenceAppend(x, y, z[..n]);
      assert (x + z)[..|x + z| - 1] == x + z[..n] && (y + z)[..|y + z| - 1] == y + z[..n];
    } else {
      assert x + z == x && y + z == y;
    }
  }

  lemma {:induction false} EndedIsSubsequence(a: seq<Attempt>, ok: bool)
    ensures Subsequence(Ended(a, ok), Tried(a))
  {
    if a != [] {
      var n := |a| - 1;
      EndedIsSubsequence(a[..n], ok);
      if a[n].ok == ok {
        SubsequenceAppend(Ended(a[..n], ok), Tried(a[..n]), a[n].batch);
      } else {
        SubsequenceSkip(Ended(a[..n], ok), Tried(a[..n]), a[n].batch);
        assert Ended(a, ok) == Ended(a[..n], ok);
      }
    }
  }

  // ---- the invariant -------------------------------------------------------------------------------------------

  function MaxBatch(z: Sizes): nat {
    if z.batchN == 0 then 1 else z.batchN
  }

  /** Every record given to Write is in exactly one place. */
  ghost predicate Partitioned(s: WSys) {
    multiset(s.written) ==
      multiset(Tried(s.attempts)) + multiset(s.refused) + multiset(s.swept)
      + multiset(s.ch) + multiset(s.batch) + multiset(s.inSend)
  }

  /** The loop and the sweep take records in the order they were sent. */
  ghost predicate InOrder(s: WSys) {
    && s.sent == Tried(s.attempts) + s.batch + s.swept + s.ch
    && (s.swept != [] ==> s.batch == [])
  }

  ghost predicate Counted(s: WSys) {
    s.dropped == |s.refused| + |Ended(s.attempts, false)| + |s.swept|
  }

  ghost predicate Bounded(s: WSys, z: Sizes) {
    |s.ch| <= z.buffer && (s.batch != [] ==> |s.batch| < MaxBatch(z)) && AttemptsBounded(s.attempts, z)
  }

  ghost predicate PhasesOK(s: WSys) {
    && (s.closed <==> !s.close.Open?)
    && (s.close.Open? || s.close.Marked? ==> s.loop.Running?)
    && (s.loop.Done? ==> s.batch == [])
    && (s.close.Sweeping? || s.close.Returned? ==> s.loop.Done?)
    && (s.swept != [] ==> s.close.Sweeping? || s.close.Returned?)
  }

  ghost predicate WInv(s: WSys, z: Sizes) {
    Partitioned(s) && InOrder(s) && Counted(s) && Bounded(s, z) && PhasesOK(s)
  }

  lemma FlushMoves(s: WSys, ok: bool)
    ensures var s' := Flush(s, ok);
            && Tried(s'.attempts) == Tried(s.attempts) + s.batch
            && |Ended(s'.attempts, false)| == |Ended(s.attempts, false)| + (if ok then 0 else |s.batch|)
            && s'.batch == [] && s'.ch == s.ch && s'.sent == s.sent && s'.written == s.written
            && s'.refused == s.refused && s'.swept == s.swept && s'.inSend == s.inSend
            && s'.dropped == s.dropped + if ok then 0 else |s.batch|
  {
    if s.batch != [] {
    } else {
      assert Tried(s.attempts) + [] == Tried(s.attempts);
    }
  }

  ghost predicate AttemptsBounded(a: seq<Attempt>, z: Sizes) {
    forall i {:trigger a[i]} :: 0 <= i < |a| ==> 1 <= |a[i].batch| <= MaxBatch(z)
  }

  lemma FlushKeepsPartition(s: WSys, ok: bool)
    requires Partitioned(s)
    ensures Partitioned(Flush(s, ok))
  {
    FlushMoves(s, ok);
    hide Tried, Flush;
  }

  lemma FlushKeepsOrder(s: WSys, ok: bool)
    requires InOrder(s) && s.swept == []
    ensures InOrder(Flush(s, ok))
  {
    FlushMoves(s, ok);
    hide Tried, Flush;
    var s' := Flush(s, ok);
    assert s'.sent == Tried(s'.attempts) + [] + [] + s'.ch;
  }

  lemma FlushKeepsInv(s: WSys, z: Sizes, ok: bool)
    requires Partitioned(s) && InOrder(s) && Counted(s) && PhasesOK(s) && s.swept == [] && |s.ch| <= z.buffer
    requires |s.batch| <= MaxBatch(z) && AttemptsBounded(s.attempts, z)
    ensures WInv(Flush(s, ok), z)
  {
    hide Partitioned, InOrder, Tried, Ended;
    FlushMoves(s, ok);
    FlushKeepsPartition(s, ok);
    FlushKeepsOrder(s, ok);
  }

  lemma TakenKeepsPlaces(s: WSys, s': WSys)
    requires Partitioned(s) && InOrder(s) && s.ch != [] && s.swept == []
    requires s' == s.(ch := s.ch[1..], batch := s.batch + [s.ch[0]])
    ensures Partitioned(s') && InOrder(s')
  {
    hide Tried;
    assert s.ch == [s.ch[0]] + s.ch[1..];
    assert s'.sent == Tried(s'.attempts) + s'.batch + s'.swept + s'.ch;
  }

  lemma TakeKeepsInv(s: WSys, z: Sizes, ok: bool)
    requires WInv(s, z) && s.ch != [] && !s.loop.Done?
    ensures WInv(Taken(s, z, ok), z)
  {
    hide Partitioned, InOrder, Ended;
    var s1 := s.(ch := s.ch[1..], batch := s.batch + [s.ch[0]]);
    TakenKeepsPlaces(s, s1);
    if |s1.batch| >= z.batchN {
      FlushKeepsInv(s1, z, ok);
    }
  }

  lemma SendKeepsPartition(s: WSys, z: Sizes, i: nat)
    requires Partitioned(s) && i < |s.inSend|
    ensures Partitioned(DoSend(s, z, i))
  {
    hide Tried;
    var r, s' := s.inSend[i], DoSend(s, z, i);
    OneOut(s.inSend, i);
    assert multiset(s'.ch) + multiset(s'.refused) == multiset(s.ch) + multiset(s.refused) + multiset{r};
    assert multiset(s'.inSend) + multiset{r} == multiset(s.inSend);
  }

  lemma OneOut(rs: seq<Rec>, i: nat)
    requires i < |rs|
    ensures multiset(rs[..i] + rs[i + 1..]) + multiset{rs[i]} == multiset(rs)
  {
    assert rs == rs[..i] + [rs[i]] + rs[i + 1..];
  }

  lemma SendKeepsInv(s: WSys, z: Sizes, i: nat)
    requires WInv(s, z) && i < |s.inSend|
    ensures WInv(DoSend(s, z, i), z)
  {
    hide Partitioned, InOrder, Counted, Bounded, PhasesOK, DoSend;
    SendKeepsPartition(s, z, i);
    SendKeepsOrder(s, z, i);
    SendKeepsCounts(s, z, i);
  }

  lemma SendKeepsCounts(s: WSys, z: Sizes, i: nat)
    requires Counted(s) && Bounded(s, z) && PhasesOK(s) && i < |s.inSend|
    ensures Counted(DoSend(s, z, i)) && Bounded(DoSend(s, z, i), z) && PhasesOK(DoSend(s, z, i))
  {
  }

  lemma SendKeepsOrder(s: WSys, z: Sizes, i: nat)
    requires InOrder(s) && i < |s.inSend|
    ensures InOrder(DoSend(s, z, i))
  {
    assert |s.ch| < z.buffer ==> DoSend(s, z, i).sent == Tried(s.attempts) + s.batch + s.swept + (s.ch + [s.inSend[i]]);
  }

  lemma BeginKeepsPartition(s: WSys, z: Sizes, r: Rec)
    requires Partitioned(s)
    ensures Partitioned(Step(s, z, BeginWrite(r)))
  {
    hide Tried;
  }

  lemma BeginKeepsInv(s: WSys, z: Sizes, r: Rec)
    requires WInv(s, z)
    ensures WInv(Step(s, z, BeginWrite(r)), z)
  {
    hide Partitioned, Tried, Ended, AttemptsBounded;
    BeginKeepsPartition(s, z, r);
  }

  lemma SamePlaces(s: WSys, s': WSys, z: Sizes)
    requires s'.written == s.written && s'.attempts == s.attempts && s'.refused == s.refused && s'.swept == s.swept
    requires s'.ch == s.ch && s'.batch == s.batch && s'.inSend == s.inSend && s'.sent == s.sent && s'.dropped == s.dropped
    ensures Partitioned(s') == Partitioned(s) && InOrder(s') == InOrder(s) && Counted(s') == Counted(s) && Bounded(s', z) == Bounded(s, z)
  {
    hide Tried, Ended, AttemptsBounded;
  }

  /** Steps that move only the phases. */
  lemma PhaseKeepsInv(s: WSys, z: Sizes, e: Event)
    requires WInv(s, z) && Enabled(s, e) && (e.SeeQuit? || e.CloseMark? || e.CloseSignal? || e.CloseWait? || e.SweepEnd?)
    ensures WInv(Step(s, z, e), z)
  {
    hide Partitioned, InOrder, Counted, Bounded;
    SamePlaces(s, Step(s, z, e), z);
  }

  lemma SweepKeepsInv(s: WSys, z: Sizes)
    requires WInv(s, z) && Enabled(s, SweepOne)
    ensures WInv(Step(s, z, SweepOne), z)
  {
    assert s.ch == [s.ch[0]] + s.ch[1..];
    var s' := Step(s, z, SweepOne);
    assert s'.sent == Tried(s'.attempts) + s'.batch + s'.swept + s'.ch;
  }

  lemma LoopStops(s: WSys, z: Sizes)
    requires WInv(s, z) && s.loop.Draining? && s.batch == []
    ensures WInv(s.(loop := Done), z)
  {
    hide Partitioned, InOrder, Counted, Bounded;
    SamePlaces(s, s.(loop := Done), z);
  }

  lemma DrainEndKeepsInv(s: WSys, z: Sizes, ok: bool)
    requires WInv(s, z) && Enabled(s, DrainEnd(ok))
    ensures WInv(Step(s, z, DrainEnd(ok)), z)
  {
    FlushKeepsInv(s, z, ok);
    LoopStops(Flush(s, ok), z);
    hide WInv;
  }

  lemma StepKeepsInv(s: WSys, z: Sizes, e: Event)
    requires WInv(s, z) && Enabled(s, e)
    ensures WInv(Step(s, z, e), z)
  {
    match e
    case BeginWrite(r) => BeginKeepsInv(s, z, r);
    case Send(i) => SendKeepsInv(s, z, i);
    case Receive(ok) => TakeKeepsInv(s, z, ok);
    case Timer(ok) => FlushKeepsInv(s, z, ok);
    case DrainOne(ok) => TakeKeepsInv(s, z, ok);
    case DrainEnd(ok) => DrainEndKeepsInv(s, z, ok);
    case SweepOne => SweepKeepsInv(s, z);
    case _ => PhaseKeepsInv(s, z, e);
  }

  lemma {:induction false} RunKeepsInv(z: Sizes, es: seq<Event>)
    ensures WInv(Run(z, es), z)
  {
    if es != [] {
      var s, e := Run(z, es[..|es| - 1]), es[|es| - 1];
      RunKeepsInv(z, es[..|es| - 1]);
      if Enabled(s, e) {
        StepKeepsInv(s, z, e);
      }
    }
  }

  // ---- the theorems -----------------------------------------------------------------------------------------------

  function Everywhere(s: WSys): multiset<Rec> {
    multiset(Flushed(s)) + multiset(Ended(s.attempts, false)) + multiset(s.refused)
    + multiset(s.swept) + multiset(s.ch) + multiset(s.batch) + multiset(s.inSend)
  }

  lemma Accounted(s: WSys, z: Sizes)
    requires WInv(s, z)
    ensures multiset(s.written) == Everywhere(s)
    ensures |s.written| == |Flushed(s)| + s.dropped + |s.ch| + |s.batch| + |s.inSend|
    ensures s.close.Returned? ==> s.batch == []
  {
    TriedSplit(s.attempts);
    assert |multiset(s.written)| == |Everywhere(s)|;
  }

  /** At every step each record is flushed, counted as dropped, buffered, in the batch, or held by
      a Write between its check and its send; flushes succeed in send order, batch sizes apart. */
  lemma EveryRecordAccountedFor(z: Sizes, es: seq<Event>)
    ensures var s := Run(z, es);
            && multiset(s.written) == Everywhere(s)
            && s.dropped == |Ended(s.attempts, false)| + |s.refused| + |s.swept|
            && Subsequence(Flushed(s), s.sent)
            && AttemptsBounded(s.attempts, z)
  {
    var s := Run(z, es);
    RunKeepsInv(z, es);
    Accounted(s, z);
    FlushedInOrder(s);
    hide Everywhere, Subsequence, Partitioned, InOrder;
  }

  lemma FlushedInOrder(s: WSys)
    requires InOrder(s)
    ensures Subsequence(Flushed(s), s.sent)
  {
    EndedIsSubsequence(s.attempts, true);
    SubsequenceSkip(Flushed(s), Tried(s.attempts), s.batch + s.swept + s.ch);
    assert s.sent == Tried(s.attempts) + (s.batch + s.swept + s.ch);
  }

  ghost predicate Exact(s: WSys) {
    |s.written| == |Flushed(s)| + s.dropped
  }

  /** After Close has returned, written = flushed + dropped exactly when no Write is between its
      check and its send and none has sent since the sweep. */
  lemma ExactAfterClose(z: Sizes, es: seq<Event>)
    requires Run(z, es).close.Returned?
    ensures Exact(Run(z, es)) <==> Run(z, es).inSend == [] && Run(z, es).ch == []
  {
    RunKeepsInv(z, es);
    Accounted(Run(z, es), z);
  }

  /** If no Write is caught in between when Close returns, the totals agree ever after. */
  lemma {:induction false} CleanCloseStaysExact(z: Sizes, es: seq<Event>, more: seq<Event>)
    requires var s := Run(z, es); s.close.Returned? && s.inSend == [] && s.ch == []
    ensures var s := RunFrom(Run(z, es), z, more); s.close.Returned? && s.inSend == [] && s.ch == [] && Exact(s)
  {
    if more != [] {
      CleanCloseStaysExact(z, es, more[..|more| - 1]);
    }
    RunKeepsInv(z, es);
    FromKeepsInv(Run(z, es), z, more);
    hide WInv;
    Accounted(RunFrom(Run(z, es), z, more), z);
  }

  lemma {:induction false} FromKeepsInv(s: WSys, z: Sizes, more: seq<Event>)
    requires WInv(s, z)
    ensures WInv(RunFrom(s, z, more), z)
  {
    if more != [] {
      FromKeepsInv(s, z, more[..|more| - 1]);
      var s1, e := RunFrom(s, z, more[..|more| - 1]), more[|more| - 1];
      if Enabled(s1, e) {
        StepKeepsInv(s1, z, e);
      }
    }
  }

  /** A Write preempted between its check and its send can send after the sweep: its record then
      stays in the buffer for good, neither flushed nor counted. */
  lemma LateSendIsLost(z: Sizes, es: seq<Event>, more: seq<Event>)
    requires z.buffer > 0
    requires var s := Run(z, es); s.close.Returned? && s.inSend != [] && s.ch == []
    ensures var s := RunFrom(Run(z, es + [Send(0)]), z, more); s.ch != [] && !Exact(s)
  {
    RunThen(WStart, z, es, Send(0));
    var s := Run(z, es + [Send(0)]);
    RunKeepsInv(z, es);
    StuckForGood(s, z, more);
    RunKeepsInv(z, es + [Send(0)]);
    FromKeepsInv(s, z, more);
    Accounted(RunFrom(s, z, more), z);
  }

  /** One Write preempted between its check and its send while Close runs to its end. */
  function Preempted(r: Rec): seq<Event> {
    [BeginWrite(r), CloseMark, CloseSignal, SeeQuit, DrainEnd(true), CloseWait, SweepEnd]
  }

  /** Close comes as far as draining while the Write stands. */
  lemma PreemptedDrains(z: Sizes, r: Rec)
    ensures Run(z, Preempted(r)[..4]) == WStart.(written := [r], inSend := [r], closed := true, loop := Draining, close := Signalled)
  {
    var es := Preempted(r);
    assert es[..1] == [] + [es[0]] && es[..2] == es[..1] + [es[1]] && es[..3] == es[..2] + [es[2]] && es[..4] == es[..3] + [es[3]];
    RunThen(WStart, z, [], es[0]);
    RunThen(WStart, z, es[..1], es[1]);
    RunThen(WStart, z, es[..2], es[2]);
    RunThen(WStart, z, es[..3], es[3]);
    hide RunFrom;
    var s1 := WStart.(written := [r], inSend := [r]);
    assert Next(WStart, z, es[0]) == s1;
  }

  lemma PreemptedEnds(z: Sizes, r: Rec)
    ensures Run(z, Preempted(r)) == WStart.(written := [r], inSend := [r], closed := true, loop := Done, close := Returned)
  {
    hide RunFrom;
    var es := Preempted(r);
    assert es[..5] == es[..4] + [es[4]] && es[..6] == es[..5] + [es[5]] && es == es[..6] + [es[6]];
    PreemptedDrains(z, r);
    RunThen(WStart, z, es[..4], es[4]);
    RunThen(WStart, z, es[..5], es[5]);
    RunThen(WStart, z, es[..6], es[6]);
  }

  /** Such a run exists: Close returns with the buffer empty and a record about to be sent, and once
      it is sent the totals disagree for good. */
  lemma WriteCanOutliveClose(z: Sizes, r: Rec, more: seq<Event>)
    requires z.buffer > 0
    ensures var s := Run(z, Preempted(r)); s.close.Returned? && s.inSend == [r] && s.ch == []
    ensures !Exact(RunFrom(Run(z, Preempted(r) + [Send(0)]), z, more))
  {
    hide Run, RunFrom;
    PreemptedEnds(z, r);
    LateSendIsLost(z, Preempted(r), more);
  }

  lemma {:induction false} StuckForGood(s: WSys, z: Sizes, more: seq<Event>)
    requires s.close.Returned? && s.loop.Done? && s.ch != []
    ensures var s' := RunFrom(s, z, more); s'.close.Returned? && s'.loop.Done? && s.ch <= s'.ch
  {
    if more != [] {
      StuckForGood(s, z, more[..|more| - 1]);
    }
  }

  // ---- what is flushed and what is swept -----------------------------------------------------------------------

  datatype Mark = LoopEnded | CloseEnded

  predicate Passed(s: WSys, m: Mark) {
    match m
    case LoopEnded => s.loop.Done?
    case CloseEnded => s.close.Returned?
  }

  /** How many records had been sent when the mark was passed; so far, if it has not been. */
  function SentBy(z: Sizes, es: seq<Event>, m: Mark): nat {
    if es != [] && Passed(Run(z, es[..|es| - 1]), m) then SentBy(z, es[..|es| - 1], m) else |Run(z, es).sent|
  }

  /** Nothing moves a record out of where it was when the mark was passed. */
  ghost predicate Settles(s: WSys, m: Mark, n: nat) {
    && n <= |s.sent|
    && (s.loop.Done? && m.LoopEnded? ==> Tried(s.attempts) == s.sent[..n])
    && (s.close.Returned? && m.CloseEnded? ==>
          |Tried(s.attempts)| <= |s.sent| && s.swept + s.ch == s.sent[|Tried(s.attempts)|..] && s.ch == s.sent[n..])
  }

  /** Once the loop has ended no record is flushed; once Close has returned none is swept either. */
  lemma StepAfterEnd(s: WSys, z: Sizes, e: Event) returns (late: seq<Rec>)
    requires Enabled(s, e) && PhasesOK(s) && s.loop.Done?
    ensures var s' := Step(s, z, e);
            && s'.loop.Done? && s'.attempts == s.attempts && s'.sent == s.sent + late
            && (s.close.Returned? ==> s'.close.Returned? && s'.swept == s.swept && s'.ch == s.ch + late)
  {
    late := if e.Send? && |s.ch| < z.buffer then [s.inSend[e.i]] else [];
    assert s.sent + [] == s.sent && s.ch + [] == s.ch;
  }

  lemma StepSettles(s: WSys, z: Sizes, e: Event, m: Mark, n: nat)
    requires PhasesOK(s) && Enabled(s, e) && Passed(s, m) && Settles(s, m, n)
    ensures Passed(Step(s, z, e), m) && Settles(Step(s, z, e), m, n)
  {
    hide Step, Tried, Enabled;
    var late := StepAfterEnd(s, z, e);
    var s', k := Step(s, z, e), |Tried(s.attempts)|;
    assert s'.sent[..n] == s.sent[..n] && s'.sent[n..] == s.sent[n..] + late;
    if m.CloseEnded? {
      assert s'.sent[k..] == s.sent[k..] + late;
      assert s'.swept + s'.ch == s.swept + s.ch + late;
    }
  }

  lemma JustPassed(s: WSys, z: Sizes, e: Event, m: Mark)
    requires WInv(s, z) && Enabled(s, e) && !Passed(s, m) && Passed(Step(s, z, e), m)
    ensures Settles(Step(s, z, e), m, |Step(s, z, e).sent|)
  {
    hide Partitioned, Bounded, AttemptsBounded, Ended;
    StepKeepsInv(s, z, e);
    var s' := Step(s, z, e);
    assert s'.ch == [] && s'.batch == [];
    assert m.LoopEnded? ==> s'.swept == [];
    assert s'.sent[..|s'.sent|] == s'.sent && s'.sent[|s'.sent|..] == [];
  }

  lemma {:induction false} RunSettles(z: Sizes, es: seq<Event>, m: Mark)
    ensures SentBy(z, es, m) <= |Run(z, es).sent|
    ensures Passed(Run(z, es), m) ==> Settles(Run(z, es), m, SentBy(z, es, m))
  {
    if es != [] {
      hide Settles, Step, Enabled, WInv;
      var s, e := Run(z, es[..|es| - 1]), es[|es| - 1];
      RunSettles(z, es[..|es| - 1], m);
      RunKeepsInv(z, es[..|es| - 1]);
      if Enabled(s, e) && Passed(s, m) {
        StepSettles(s, z, e, m, SentBy(z, es[..|es| - 1], m));
      } else if Enabled(s, e) && Passed(Step(s, z, e), m) {
        JustPassed(s, z, e, m);
      }
      SettlesBound(Run(z, es), m, SentBy(z, es, m));
    }
  }

  lemma SettlesBound(s: WSys, m: Mark, n: nat)
    ensures Settles(s, m, n) ==> n <= |s.sent|
  {
  }

  /** Everything sent before the loop ended was flushed, or its flush failed, in the order it was sent;
      Close sweeps exactly what was sent after that and before it returned, and what is sent later
      stays in the buffer. */
  lemma SweptIsWhatCameLate(z: Sizes, es: seq<Event>)
    ensures var s, d, r := Run(z, es), SentBy(z, es, LoopEnded), SentBy(z, es, CloseEnded);
            && (s.loop.Done? ==> d <= |s.sent| && Tried(s.attempts) == s.sent[..d])
            && (s.close.Returned? ==> d <= r <= |s.sent| && s.swept == s.sent[d..r] && s.ch == s.sent[r..])
  {
    hide Run, SentBy, Tried;
    var s, d, r := Run(z, es), SentBy(z, es, LoopEnded), SentBy(z, es, CloseEnded);
    RunSettles(z, es, LoopEnded);
    RunSettles(z, es, CloseEnded);
    RunKeepsInv(z, es);
    if s.close.Returned? {
      assert s.loop.Done? && |Tried(s.attempts)| == d;
      assert |s.swept| + |s.ch| == |s.sent| - d && |s.ch| == |s.sent| - r;
      assert s.swept == (s.swept + s.ch)[..r - d] == s.sent[d..][..r - d] == s.sent[d..r];
    }
  }

  /** While the loop runs its timer leaves nothing unflushed: what the batch held is one more attempt,
      counted as dropped if it fails. */
  lemma TimerFlushes(z: Sizes, es: seq<Event>, ok: bool)
    requires Run(z, es).loop.Running?
    ensures var s, s' := Run(z, es), Run(z, es + [Timer(ok)]);
            && s'.batch == [] && s'.ch == s.ch && s'.sent == s.sent
            && s'.attempts == (if s.batch == [] then s.attempts else s.attempts + [Attempt(s.batch, ok)])
            && s'.dropped == s.dropped + if ok then 0 else |s.batch|
  {
    RunThen(WStart, z, es, Timer(ok));
  }
}
