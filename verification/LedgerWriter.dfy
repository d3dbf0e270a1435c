/** The asynchronous ledger writer as concurrent steps: request goroutines, the batching loop
    and Close interleave freely at the points where each can be preempted. */
module LedgerWriter {
  type Rec = nat

  datatype LoopPhase = Running | Draining | Done
  datatype ClosePhase = Open | Marked | Signalled | Sweeping | Returned

  /** One flush of a batch and how it ended. */
  datatype Attempt = Attempt(batch: seq<Rec>, ok: bool)

  /** ch is the channel buffer; inSend holds the records of Writes that passed their
      closed-check and have not sent yet. The last five fields are history: every record given
      to Write, the records in send order, the flush attempts, the records Write refused, and
      those Close swept. */
  datatype WSys = WSys(
    ch: seq<Rec>, batch: seq<Rec>, dropped: nat, closed: bool, loop: LoopPhase, close: ClosePhase, inSend: seq<Rec>,
    written: seq<Rec>, sent: seq<Rec>, attempts: seq<Attempt>, refused: seq<Rec>, swept: seq<Rec>)

  datatype Sizes = Sizes(buffer: nat, batchN: nat)

  const WStart := WSys([], [], 0, false, Running, Open, [], [], [], [], [], [])

  datatype Event =
    | BeginWrite(r: Rec)        // Write reads closed
    | Send(i: nat)              // a Write past its check sends, or drops when the buffer is full
    | Receive(ok: bool)         // the loop takes a record, and flushes when the batch is full
    | Timer(ok: bool)           // the loop flushes on its timer
    | SeeQuit                   // the loop starts draining
    | DrainOne(ok: bool)
    | DrainEnd(ok: bool)        // the buffer is empty: flush what is left and stop
    | CloseMark                 // Close sets closed
    | CloseSignal               // Close closes quit
    | CloseWait                 // the loop is done
    | SweepOne
    | SweepEnd

  function Flush(s: WSys, ok: bool): WSys {
    if s.batch == [] then s
    else s.(batch := [], attempts := s.attempts + [Attempt(s.batch, ok)],
            dropped := if ok then s.dropped else s.dropped + |s.batch|)
  }

  function Taken(s: WSys, z: Sizes, ok: bool): WSys
    requires s.ch != []
  {
    var s' := s.(ch := s.ch[1..], batch := s.batch + [s.ch[0]]);
    if |s'.batch| >= z.batchN then Flush(s', ok) else s'
  }

  function DoSend(s: WSys, z: Sizes, i: nat): WSys
    requires i < |s.inSend|
  {
    var r, s' := s.inSend[i], s.(inSend := s.inSend[..i] + s.inSend[i + 1..]);
    if |s.ch| < z.buffer then s'.(ch := s.ch + [r], sent := s.sent + [r])
    else s'.(dropped := s.dropped + 1, refused := s.refused + [r])
  }

  /** Whether an event can happen. */
  predicate Enabled(s: WSys, e: Event) {
    match e
    case BeginWrite(_) => true
    case Send(i) => i < |s.inSend|
    case Receive(_) => s.loop.Running? && s.ch != []
    case Timer(_) => s.loop.Running?
    case SeeQuit => s.loop.Running? && !s.close.Open? && !s.close.Marked?
    case DrainOne(_) => s.loop.Draining? && s.ch != []
    case DrainEnd(_) => s.loop.Draining? && s.ch == []
    case CloseMark => s.close.Open?
    case CloseSignal => s.close.Marked?
    case CloseWait => s.close.Signalled? && s.loop.Done?
    case SweepOne => s.close.Sweeping? && s.ch != []
    case SweepEnd => s.close.Sweeping? && s.ch == []
  }

  function Step(s: WSys, z: Sizes, e: Event): WSys
    requires Enabled(s, e)
  {
    match e
    case BeginWrite(r) =>
      if s.closed then s.(written := s.written + [r], dropped := s.dropped + 1, refused := s.refused + [r])
      else s.(written := s.written + [r], inSend := s.inSend + [r])
    case Send(i) => DoSend(s, z, i)
    case Receive(ok) => Taken(s, z, ok)
    case Timer(ok) => Flush(s, ok)
    case SeeQuit => s.(loop := Draining)
    case DrainOne(ok) => Taken(s, z, ok)
    case DrainEnd(ok) => Flush(s, ok).(loop := Done)
    case CloseMark => s.(closed := true, close := Marked)
    case CloseSignal => s.(close := Signalled)
    case CloseWait => s.(close := Sweeping)
    case SweepOne => s.(ch := s.ch[1..], dropped := s.dropped + 1, swept := s.swept + [s.ch[0]])
    case SweepEnd => s.(close := Returned)
  }

  function Next(s: WSys, z: Sizes, e: Event): WSys {
    if Enabled(s, e) then Step(s, z, e) else s
  }

  function RunFrom(s: WSys, z: Sizes, es: seq<Event>): WSys {
    if es == [] then s else Next(RunFrom(s, z, es[..|es| - 1]), z, es[|es| - 1])
  }

  function Run(z: Sizes, es: seq<Event>): WSys {
    RunFrom(WStart, z, es)
  }

  // ---- the class --------------------------------------------------------------------------------------------

  /** The writer's own state. Each method is one atomic step of Write, of the loop or of Close. */
  class Writer {
    const sizes: Sizes
    var ch: seq<Rec>
    var batch: seq<Rec>
    var dropped: nat
    var closed: bool
    var loop: LoopPhase
    var close: ClosePhase
    var inSend: seq<Rec>
    ghost var written: seq<Rec>
    ghost var sent: seq<Rec>
    ghost var attempts: seq<Attempt>
    ghost var refused: seq<Rec>
    ghost var swept: seq<Rec>

    ghost function View(): WSys
      reads this
    {
      WSys(ch, batch, dropped, closed, loop, close, inSend, written, sent, attempts, refused, swept)
    }

    constructor (sizes: Sizes)
      ensures View() == WStart && this.sizes == sizes
    {
      this.sizes := sizes;
      ch, batch, dropped, closed, loop, close, inSend := [], [], 0, false, Running, Open, [];
      written, sent, attempts, refused, swept := [], [], [], [], [];
    }

    method BeginWrite(r: Rec)
      modifies this
      ensures View() == Step(old(View()), sizes, Event.BeginWrite(r))
    {
      written := written + [r];
      if closed {
        dropped := dropped + 1;
        refused := refused + [r];
      } else {
        inSend := inSend + [r];
      }
    }

    method Send(i: nat)
      requires Enabled(View(), Event.Send(i))
      modifies this
      ensures View() == Step(old(View()), sizes, Event.Send(i))
    {
      var r := inSend[i];
      inSend := inSend[..i] + inSend[i + 1..];
      if |ch| < sizes.buffer {
        ch := ch + [r];
        sent := sent + [r];
      } else {
        dropped := dropped + 1;
        refused := refused + [r];
      }
    }

    /** The loop's flush; ok is what the sink answered. */
    method DoFlush(ok: bool)
      modifies this`batch, this`dropped, this`attempts
      ensures View() == Flush(old(View()), ok)
    {
      if |batch| == 0 {
        return;
      }
      attempts := attempts + [Attempt(batch, ok)];
      if !ok {
        dropped := dropped + |batch|;
      }
      batch := [];
    }

    /** Takes one record off the channel, while running or while draining. */
    method Take(ok: bool)
      requires ch != []
      modifies this
      ensures View() == Taken(old(View()), sizes, ok)
    {
      batch := batch + [ch[0]];
      ch := ch[1..];
      if |batch| >= sizes.batchN {
        DoFlush(ok);
      }
    }

    /** The drain after quit, run without interruption: everything buffered is taken, what is left
        is flushed, and the loop stops. oks answers the flushes. */
    method Drain(oks: seq<bool>) returns (ghost es: seq<Event>)
      requires loop.Draining? && |oks| == |ch| + 1
      modifies this
      ensures View() == RunFrom(old(View()), sizes, es) && loop.Done? && ch == [] && batch == []
    {
      es := [];
      var i := 0;
      while |ch| > 0
        invariant loop.Draining? && i + |ch| + 1 == |oks|
        invariant View() == RunFrom(old(View()), sizes, es)
        decreases |ch|
      {
        ghost var before := View();
        Take(oks[i]);
        RunThen(old(View()), sizes, es, DrainOne(oks[i]));
        es := es + [DrainOne(oks[i])];
        i := i + 1;
      }
      RunThen(old(View()), sizes, es, DrainEnd(oks[i]));
      es := es + [DrainEnd(oks[i])];
      DoFlush(oks[i]);
      loop := Done;
    }

    /** Close's sweep, run without interruption: what is still buffered is counted as dropped. */
    method Sweep() returns (ghost es: seq<Event>)
      requires close.Sweeping?
      modifies this
      ensures View() == RunFrom(old(View()), sizes, es) && close.Returned? && ch == [] && dropped == old(dropped) + |old(ch)|
    {
      es := [];
      while |ch| > 0
        invariant close.Sweeping? && dropped + |ch| == old(dropped) + |old(ch)|
        invariant View() == RunFrom(old(View()), sizes, es)
        decreases |ch|
      {
        RunThen(old(View()), sizes, es, SweepOne);
        es := es + [SweepOne];
        swept := swept + [ch[0]];
        ch := ch[1..];
        dropped := dropped + 1;
      }
      RunThen(old(View()), sizes, es, SweepEnd);
      es := es + [SweepEnd];
      close := Returned;
    }
  }

  lemma RunThen(s: WSys, z: Sizes, es: seq<Event>, e: Event)
    ensures RunFrom(s, z, es + [e]) == Next(RunFrom(s, z, es), z, e)
  {
    assert (es + [e])[..|es|] == es;
  }
}
