/** The transmitter with a driver that takes every byte, and how a refusing driver jams it. */
module UartDriver {
  import opened Uart
  import opened UartTransmit

  // ----- A driver that takes every byte -----

  /** Nothing is waiting to be sent, and the status register says so. */
  predicate Sent(u: Uart) {
    u.tsrRetry == 0 && u.xmit == [] && Has(u.lsr, LSR_THRE)
  }

  predicate AllAccepted(ops: seq<Op>) {
    forall k :: 0 <= k < |ops| && ops[k].Write? ==> ops[k].accepts
  }

  lemma QueueKeepsSent(u: Uart, v: Uart)
    requires Sent(u) && KeepsQueue(u, v)
    ensures Sent(v)
  {
    hide Has;
  }

  lemma LoadedIsSent(u: Uart, b: bv8)
    requires Sent(u)
    ensures var w := Loaded(Hold(u, b)); Sent(w) && w.tsr == b && w.mcr == u.mcr
    ensures !NothingToSend(Hold(u, b))
  {
    hide Has, Hold, Loaded;
    HoldShape(u, b);
    LoadedShape(Hold(u, b));
  }

  lemma WriteThrKeepsSent(u: Uart, b: bv8)
    requires Sent(u)
    ensures Sent(Transmit(Hold(u, b), true))
    ensures Offer(Hold(u, b)) == if Has(u.mcr, MCR_LOOP) then [] else [b]
  {
    hide Hold, Loaded, Sent, Has, Receive, NothingToSend, FinishTransmit, Untouched;
    LoadedIsSent(u, b);
    var v := Loaded(Hold(u, b));
    var w := v.(tsrRetry := 0);
    assert Sent(w) by { SentRetry(v); }
    FinishShape(w);
    UntouchedKeepsSent(w, FinishTransmit(w));
    var r := Receive(v, [v.tsr]);
    ReceiveUntouched(v, [v.tsr]);
    UntouchedKeepsSent(v, r);
    FinishShape(r);
    UntouchedKeepsSent(r, FinishTransmit(r));
  }

  lemma UntouchedKeepsSent(u: Uart, v: Uart)
    requires Untouched(u, v)
    ensures Sent(u) ==> Sent(v)
  {
    hide Has;
  }

  lemma SentRetry(u: Uart)
    requires Sent(u)
    ensures Sent(u.(tsrRetry := 0))
  {
    hide Has;
  }

  lemma WriteFcrKeepsSent(u: Uart, b: bv8)
    requires Sent(u)
    ensures Sent(WriteFcr(u, b))
  {
    hide With, Identified, Has, Without, Pending, Flushing, TriggerLevel;
  }

  lemma WriteKeepsSent(u: Uart, i: Index, value: bv32)
    requires Sent(u)
    ensures Sent(IOWrite(u, i, value, true))
  {
    hide Sent, Has, Hold, Transmit, WriteFcr, WriteIer, WriteLcr, WriteMcr, LowByte, KeepsQueue;
    var b := LowByte(value);
    if i == 0 && !Has(u.lcr, LCR_DLAB) {
      WriteThrKeepsSent(u, b);
    } else if i == 2 {
      WriteFcrKeepsSent(u, b);
    } else {
      if i == 4 {
        PlainRegistersUntouched(u, b, u.divider);
      } else {
        OtherWritesUntouched(u, i, value, true);
      }
      QueueKeepsSent(u, IOWrite(u, i, value, true));
    }
  }

  lemma StepKeepsSent(u: Uart, op: Op)
    requires Sent(u) && Allowed(u, op) && (op.Write? ==> op.accepts)
    ensures Sent(Step(u, op))
    ensures Offers(u, op) == Written(u, op)
  {
    hide Sent, Allowed, IORead, IOWrite, Register, Has, Receive, ReceiveBreak, FifoTimeoutInterrupt, UpdateMsl, Hold,
      Offer, LowByte, KeepsQueue;
    if op.Write? {
      WriteKeepsSent(u, Register(op.port), op.value);
      WriteThrKeepsSent(u, LowByte(op.value));
    } else {
      if op.Read? {
        ReadUntouched(u, Register(op.port));
      } else {
        EventUntouched(u, op);
      }
      QueueKeepsSent(u, Step(u, op));
    }
  }

  /** With a driver that takes every byte, it is handed exactly the bytes written, in order, in every mode. */
  lemma {:induction false} RunSendsWhatIsWritten(u: Uart, ops: seq<Op>)
    requires Sent(u) && RunAllowed(u, ops) && AllAccepted(ops)
    ensures OffersOf(u, ops) == WrittenBy(u, ops)
    ensures Sent(Run(u, ops))
    decreases |ops|
  {
    hide Sent, Step, Allowed, Offers, Written;
    if ops != [] {
      assert ops[0].Write? ==> ops[0].accepts;
      StepKeepsSent(u, ops[0]);
      RunSendsWhatIsWritten(Step(u, ops[0]), ops[1..]);
    }
  }

  // ----- A driver that refuses bytes -----

  /** A byte written to the holding register, and the driver's answer to the byte that it is offered on that. */
  datatype Try = Try(b: bv8, accepts: bool)

  function WriteAll(u: Uart, tries: seq<Try>): Uart
    decreases |tries|
  {
    if tries == [] then u
    else
      var last := tries[|tries| - 1];
      Transmit(Hold(WriteAll(u, tries[..|tries| - 1]), last.b), last.accepts)
  }

  function OfferAll(u: Uart, tries: seq<Try>): seq<bv8>
    decreases |tries|
  {
    if tries == [] then []
    else
      var front := tries[..|tries| - 1];
      OfferAll(u, front) + Offer(Hold(WriteAll(u, front), tries[|tries| - 1].b))
  }

  /** The retry counter after these writes, starting from an idle transmitter. */
  function Retry(tries: seq<Try>): (r: int)
    ensures 0 <= r <= MAX_XMIT_RETRY
    decreases |tries|
  {
    if tries == [] then 0 else NextRetry(Retry(tries[..|tries| - 1]), tries[|tries| - 1].accepts)
  }

  /** How many of the writes were made while a byte was being retried. */
  function Busy(tries: seq<Try>): nat
    decreases |tries|
  {
    if tries == [] then 0
    else
      var front := tries[..|tries| - 1];
      Busy(front) + if Retry(front) > 0 then 1 else 0
  }

  predicate FifoSending(u: Uart) {
    Sending(u) && Has(u.fcr, FCR_FE)
  }

  /** Each write made during a retry stays in the FIFO; with fifteen there, the next one fills it. */
  function Fill(tries: seq<Try>): nat {
    if tries != [] && Busy(tries[..|tries| - 1]) >= FIFO_LENGTH - 1 then FIFO_LENGTH else Busy(tries)
  }

  lemma {:induction false} FillCounts(u: Uart, tries: seq<Try>)
    requires FifoSending(u) && u.tsrRetry == 0 && u.xmit == []
    ensures var w := WriteAll(u, tries); FifoSending(w) && w.tsrRetry == Retry(tries) && |w.xmit| == Fill(tries)
    decreases |tries|
  {
    hide Has, Hold, Transmit, Offer;
    if tries != [] {
      var front := tries[..|tries| - 1];
      var last := tries[|tries| - 1];
      FillCounts(u, front);
      ThrWriteShape(WriteAll(u, front), last.b, last.accepts);
      WriteKeepsSending(WriteAll(u, front), last.b, last.accepts);
    }
  }

  /** From an empty FIFO, a run of writes fills it if and only if fifteen of those before the last met a retry. */
  lemma FillsIff(u: Uart, tries: seq<Try>)
    requires FifoSending(u) && u.tsrRetry == 0 && u.xmit == [] && tries != []
    ensures |WriteAll(u, tries).xmit| == FIFO_LENGTH <==> Busy(tries[..|tries| - 1]) >= FIFO_LENGTH - 1
  {
    hide FifoSending, WriteAll;
    FillCounts(u, tries);
  }

  /** A full FIFO that the shift register takes nothing from: any byte left in it is a zero. */
  predicate Jammed(u: Uart) {
    FifoSending(u) && |u.xmit| == FIFO_LENGTH && (u.tsrRetry == 0 || u.tsr == 0)
  }

  lemma FullStaysFull(u: Uart, b: bv8, accepts: bool)
    requires FifoSending(u) && |u.xmit| == FIFO_LENGTH
    ensures var w := Transmit(Hold(u, b), accepts);
      && FifoSending(w) && |w.xmit| == FIFO_LENGTH
      && Offer(Hold(u, b)) == [if u.tsrRetry == 0 then 0 else u.tsr]
      && (w.tsrRetry == 0 || w.tsr == if u.tsrRetry == 0 then 0 else u.tsr)
  {
    hide Has, Hold, Transmit, Offer;
    ThrWriteShape(u, b, accepts);
    WriteKeepsSending(u, b, accepts);
  }

  /** Once full, the FIFO stays full while bytes are written, and the driver is offered zeros, whatever it answers. */
  lemma {:induction false} JammedForGood(u: Uart, tries: seq<Try>)
    requires Jammed(u)
    ensures Jammed(WriteAll(u, tries))
    ensures OfferAll(u, tries) == seq(|tries|, k => 0)
    decreases |tries|
  {
    hide FifoSending, Hold, Transmit, Offer;
    if tries != [] {
      var front := tries[..|tries| - 1];
      JammedForGood(u, front);
      FullStaysFull(WriteAll(u, front), tries[|tries| - 1].b, tries[|tries| - 1].accepts);
    }
  }

  function Refusals(tries: seq<Try>): nat
    decreases |tries|
  {
    if tries == [] then 0
    else Refusals(tries[..|tries| - 1]) + if tries[|tries| - 1].accepts then 0 else 1
  }

  lemma {:induction false} BusyNeedsRefusals(tries: seq<Try>)
    ensures Busy(tries) + (if Retry(tries) > 0 then 1 else 0) <= Refusals(tries)
    decreases |tries|
  {
    if tries != [] {
      BusyNeedsRefusals(tries[..|tries| - 1]);
    }
  }

  /** A driver that refuses fewer than fifteen times never jams an idle transmitter. */
  lemma FewRefusalsNeverJam(u: Uart, tries: seq<Try>)
    requires FifoSending(u) && u.tsrRetry == 0 && u.xmit == [] && Refusals(tries) < FIFO_LENGTH - 1
    ensures |WriteAll(u, tries).xmit| < FIFO_LENGTH - 1
  {
    hide FifoSending, WriteAll;
    FillCounts(u, tries);
    BusyNeedsRefusals(tries);
  }

  predicate AllRefused(tries: seq<Try>) {
    forall t :: t in tries ==> !t.accepts
  }

  lemma {:induction false} RefusedCounts(tries: seq<Try>)
    requires AllRefused(tries)
    ensures Retry(tries) == |tries| % 5 && Busy(tries) == |tries| - (|tries| + 4) / 5
    decreases |tries|
  {
    if tries != [] {
      assert tries[|tries| - 1] in tries;
      RefusedCounts(tries[..|tries| - 1]);
    }
  }

  /** Of a driver that refuses everything, the twentieth refusal jams the transmitter, and no earlier one. */
  lemma TwentyRefusalsJam(u: Uart, refused: seq<Try>, tries: seq<Try>)
    requires FifoSending(u) && u.tsrRetry == 0 && u.xmit == [] && AllRefused(refused)
    ensures |WriteAll(u, refused).xmit| == FIFO_LENGTH <==> |refused| >= 20
    ensures |refused| == 20 ==> OfferAll(WriteAll(u, refused), tries) == seq(|tries|, k => 0)
  {
    hide FifoSending, WriteAll, OfferAll, Busy, Retry;
    FillCounts(u, refused);
    RefusedCounts(refused);
    if refused != [] {
      RefusedCounts(refused[..|refused| - 1]);
    }
    if |refused| == 20 {
      JammedForGood(WriteAll(u, refused), tries);
    }
  }

  /** Without FIFOs one refusal is enough to lose a byte: here the second one is never offered. */
  lemma OneRefusalLosesAByte()
    ensures OfferAll(PowerOn(), [Try(0x41, false), Try(0x42, true), Try(0x43, true)]) == [0x41, 0x41, 0x43]
  {
    var t1, t2, t3 := Try(0x41, false), Try(0x42, true), Try(0x43, true);
    var u0 := PowerOn();
    assert Sending(u0) && !Has(u0.fcr, FCR_FE);
    hide Has, Hold, Transmit, Offer;
    var u1 := Transmit(Hold(u0, 0x41), false);
    var u2 := Transmit(Hold(u1, 0x42), true);
    ThrWriteShape(u0, 0x41, false);
    ThrWriteShape(u1, 0x42, true);
    ThrWriteShape(u2, 0x43, true);
    var all := [t1, t2, t3];
    assert all[..2] == [t1, t2] && [t1, t2][..1] == [t1] && [t1][..0] == [];
    assert WriteAll(u0, []) == u0 && WriteAll(u0, [t1]) == u1 && WriteAll(u0, [t1, t2]) == u2;
    assert OfferAll(u0, []) == [];
    assert OfferAll(u0, [t1]) == [] + [0x41];
    assert OfferAll(u0, [t1, t2]) == [0x41] + [0x41];
  }
}
