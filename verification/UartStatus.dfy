/**
What a guest learns from the line status and identification registers, and what
loopback, breaks and flushes do.
*/
module UartStatus {
  import opened Uart
  import opened UartTransmit
  import opened UartDriver
  import opened UartInterrupts
  import opened UartReceive
  import opened UartRegisters

  // ----- The transmitter -----

  /** With a driver that takes every byte, a byte that is written is gone when the write returns. */
  lemma ThrWriteEmpties(u: Uart, b: bv8)
    requires Sent(u)
    ensures Transmit(Hold(u, b), true).lsr & 0x60 == 0x60 && Transmit(Hold(u, b), true).thrPending
  {
    WriteThrKeepsSent(u, b);
    LoadedIsSent(u, b);
    var v := Loaded(Hold(u, b));
    var w := Offering(v, true);
    hide Hold, Loaded, Offering, UpdateIrq, NothingToSend;
    assert Transmit(Hold(u, b), true) == FinishTransmit(w);
    FinishEmpties(w);
  }

  lemma FinishEmpties(w: Uart)
    requires Has(FinishTransmit(w).lsr, LSR_THRE)
    ensures FinishTransmit(w).lsr & 0x60 == 0x60 && FinishTransmit(w).thrPending
  {
    EmptyBits(w.lsr);
    var v := w.(lsr := With(w.lsr, LSR_TEMT), thrPending := true);
    UpdateKeepsRest(v);
    hide UpdateIrq, With, Has;
  }

  lemma EmptyBits(lsr: bv8)
    requires Has(lsr, LSR_THRE)
    ensures With(lsr, LSR_TEMT) & 0x60 == 0x60
  {
  }

  predicate SameEnds(u: Uart, v: Uart) {
    v.lsr & 0x60 == u.lsr & 0x60
  }

  lemma EndsStay(lsr: bv8)
    ensures Without(lsr, LSR_DR | LSR_BI) & 0x60 == lsr & 0x60 && Without(lsr, LSR_BI | LSR_OE) & 0x60 == lsr & 0x60
    ensures With(lsr, LSR_DR) & 0x60 == lsr & 0x60 && With(lsr, LSR_OE) & 0x60 == lsr & 0x60
    ensures With(With(lsr, LSR_OE), LSR_DR) & 0x60 == lsr & 0x60 && With(lsr, LSR_BI | LSR_DR) & 0x60 == lsr & 0x60
  {
  }

  lemma UpdateSameEnds(u: Uart)
    ensures UpdateIrq(u).lsr == u.lsr
  {
    hide Pending, Identified;
  }

  lemma {:induction false} PutAllSameEnds(u: Uart, buf: seq<bv8>)
    ensures SameEnds(u, RecvFifoPutAll(u, buf))
    decreases |buf|
  {
    hide With;
    if buf != [] {
      PutAllSameEnds(u, buf[..|buf| - 1]);
      EndsStay(RecvFifoPutAll(u, buf[..|buf| - 1]).lsr);
    }
  }

  lemma ReceiveSameEnds(u: Uart, buf: seq<bv8>)
    requires Has(u.fcr, FCR_FE) || buf != []
    ensures SameEnds(u, Receive(u, buf))
  {
    hide With, Has, RecvFifoPutAll, UpdateIrq;
    PutAllSameEnds(u, buf);
    EndsStay(RecvFifoPutAll(u, buf).lsr);
    EndsStay(u.lsr);
    UpdateSameEnds(Queued(u, buf));
    UpdateSameEnds(Latched(u, if buf == [] then 0 else buf[0]));
  }

  lemma EventSameEnds(u: Uart, op: Op)
    requires Allowed(u, op) && !op.Read? && !op.Write?
    ensures SameEnds(u, Step(u, op))
  {
    hide With, Has, Receive, UpdateIrq;
    if op.Arrive? {
      ReceiveSameEnds(u, op.buf);
    }
    EndsStay(u.lsr);
    EndsStay(With(u.lsr, LSR_OE));
    UpdateSameEnds(Broken(u));
    UpdateSameEnds(u.(timeoutPending := true));
  }

  lemma BufferSameEnds(u: Uart)
    ensures SameEnds(u, ReadRbr(u))
  {
    hide Without, Has, UpdateIrq;
    EndsStay(u.lsr);
    UpdateSameEnds(Drained(u));
  }

  lemma LineStatusSameEnds(u: Uart)
    ensures SameEnds(u, ReadLsr(u))
  {
    hide Without, Has, UpdateIrq;
    EndsStay(u.lsr);
    UpdateSameEnds(u.(lsr := Without(u.lsr, LSR_BI | LSR_OE)));
  }

  lemma OtherReadsKeepLsr(u: Uart)
    ensures ReadIir(u).lsr == u.lsr && ReadMsr(u).lsr == u.lsr
  {
    hide Without, Has, UpdateIrq;
    UpdateSameEnds(u.(thrPending := false));
    UpdateSameEnds(u.(msr := Without(u.msr, MSR_ANY_DELTA)));
    UpdateSameEnds(UpdateMsl(u).(msr := Without(u.msr, MSR_ANY_DELTA)));
  }

  lemma ReadSameEnds(u: Uart, i: Index)
    ensures SameEnds(u, IORead(u, i))
  {
    hide Has, ReadRbr, ReadIir, ReadLsr, ReadMsr;
    BufferSameEnds(u);
    LineStatusSameEnds(u);
    OtherReadsKeepLsr(u);
  }

  lemma ControlWritesKeepLsr(u: Uart, b: bv8)
    ensures WriteIer(u, b).lsr == u.lsr && WriteFcr(u, b).lsr == u.lsr
  {
    hide With, Without, Has, UpdateIrq, Flushing, TriggerLevel;
    UpdateSameEnds(EnablesSet(u, b).(thrPending := true));
    UpdateSameEnds(FcrWritten(u, Flushing(u, b)));
  }

  lemma WriteSameEnds(u: Uart, i: Index, value: bv32, accepts: bool)
    requires i == 0 ==> Has(u.lcr, LCR_DLAB)
    ensures IOWrite(u, i, value, accepts).lsr == u.lsr
  {
    hide Has, WriteIer, WriteFcr, WriteLcr, WriteMcr, Transmit, Hold, LowByte, WithLowByte, WithHighByte;
    var b := LowByte(value);
    match i
    case 1 => ControlWritesKeepLsr(u, b);
    case 2 => ControlWritesKeepLsr(u, b);
    case 3 => LcrKeepsLsr(u, b);
    case 4 => McrKeepsLsr(u, b);
    case _ =>
  }

  lemma LcrKeepsLsr(u: Uart, b: bv8)
    ensures WriteLcr(u, b).lsr == u.lsr
  {
    hide Has;
  }

  lemma McrKeepsLsr(u: Uart, b: bv8)
    ensures WriteMcr(u, b).lsr == u.lsr
  {
    hide Without;
  }

  lemma StepEmpties(u: Uart, op: Op)
    requires Sent(u) && u.lsr & 0x60 == 0x60 && Allowed(u, op) && (op.Write? ==> op.accepts)
    ensures Step(u, op).lsr & 0x60 == 0x60
  {
    hide Sent, IORead, IOWrite, Register, Has, Receive, ReceiveBreak, FifoTimeoutInterrupt, UpdateMsl, LowByte, Hold,
      Transmit;
    if op.Read? {
      ReadSameEnds(u, Register(op.port));
    } else if op.Write? {
      if Register(op.port) == 0 && !Has(u.lcr, LCR_DLAB) {
        ThrWriteEmpties(u, LowByte(op.value));
        ThrWritten(u, op.value, op.accepts);
      } else {
        WriteSameEnds(u, Register(op.port), op.value, op.accepts);
      }
    } else {
      EventSameEnds(u, op);
    }
  }

  lemma ThrWritten(u: Uart, value: bv32, accepts: bool)
    requires !Has(u.lcr, LCR_DLAB)
    ensures IOWrite(u, 0, value, accepts) == Transmit(Hold(u, LowByte(value)), accepts)
  {
    hide Has, Transmit, Hold, LowByte;
  }

  lemma {:induction false} RunEmpties(u: Uart, ops: seq<Op>)
    requires Sent(u) && u.lsr & 0x60 == 0x60 && RunAllowed(u, ops) && AllAccepted(ops)
    ensures Run(u, ops).lsr & 0x60 == 0x60
    decreases |ops|
  {
    hide Sent, Step, Allowed;
    if ops != [] {
      assert ops[0].Write? ==> ops[0].accepts;
      StepEmpties(u, ops[0]);
      StepKeepsSent(u, ops[0]);
      RunEmpties(Step(u, ops[0]), ops[1..]);
    }
  }

  /** In every run from power-on with a driver that takes every byte, the transmitter reads as empty. */
  lemma TransmitterReadsEmpty(ops: seq<Op>, port: bv32)
    requires RunAllowed(PowerOn(), ops) && AllAccepted(ops) && port & 7 == 5
    ensures ReadValue(Run(PowerOn(), ops), Register(port)) & 0x60 == 0x60
  {
    PortRegister(port);
    hide Run, Register;
    RunEmpties(PowerOn(), ops);
  }

  /** The identification that is read names the foremost source, or that there is none. */
  lemma IdentificationReads(ops: seq<Op>, port: bv32, s: Source)
    requires RunAllowed(PowerOn(), ops) && AllAccepted(ops) && port & 7 == 2
    ensures var u := Run(PowerOn(), ops);
      var value := ReadValue(u, Register(port));
      && (Foremost(u, s) ==> value & 0x0F == Code(s))
      && (value & 0x0F == 0x01 <==> !AnyAsserted(u))
  {
    PortRegister(port);
    PowerOnAgrees();
    hide Run, Register, Foremost, AnyAsserted, PowerOn, Code;
    assert Sent(PowerOn()) by { PowerOnSent(); }
    RunAgrees(PowerOn(), ops);
  }

  lemma PowerOnSent()
    ensures Sent(PowerOn())
  {
  }

  // ----- The receiver -----

  /** While the FIFOs are on, the data ready bit says whether the receive FIFO holds something. */
  predicate Truthful(u: Uart) {
    u.fcr & 0x01 != 0 ==> (u.lsr & 0x01 != 0 <==> u.recv != [])
  }

  /**
  The driver delivers nothing to an empty FIFO; or the receive FIFO is flushed, by
  command or because the FIFOs are turned on, while data is ready.
  */
  predicate Misleads(u: Uart, op: Op) {
    match op
    case Arrive(buf) => u.fcr & 0x01 != 0 && buf == [] && u.recv == []
    case Write(port, value, _) =>
      var b := (value & 0xFF) as bv8;
      && port & 7 == 2 && b != u.fcr && b & 0x01 != 0
      && u.lsr & 0x01 != 0 && (b & 0x02 != 0 || u.fcr & 0x01 == 0)
    case _ => false
  }

  predicate SameData(u: Uart, v: Uart) {
    v.recv == u.recv && v.fcr == u.fcr && Has(v.lsr, LSR_DR) == Has(u.lsr, LSR_DR)
  }

  lemma SameDataTruthful(u: Uart, v: Uart)
    requires SameData(u, v)
    ensures Truthful(u) <==> Truthful(v)
  {
  }

  lemma InputSameData(u: Uart, v: Uart)
    requires KeepsInput(u, v)
    ensures SameData(u, v)
  {
    hide Has;
  }

  lemma UpdateSameData(u: Uart)
    ensures SameData(u, UpdateIrq(u))
  {
    hide Pending, Identified, Has;
  }

  /** Data is ready and the FIFO is not empty. */
  lemma FullIsTruthful(u: Uart)
    requires Has(u.lsr, LSR_DR) && u.recv != []
    ensures Truthful(u)
  {
  }

  lemma ReadyBits(lsr: bv8)
    ensures Has(With(lsr, LSR_DR), LSR_DR) && Has(With(lsr, LSR_BI | LSR_DR), LSR_DR)
    ensures !Has(Without(lsr, LSR_DR | LSR_BI), LSR_DR)
  {
  }

  lemma {:induction false} PutAllEmpty(u: Uart, buf: seq<bv8>)
    ensures RecvFifoPutAll(u, buf).recv == [] <==> u.recv == [] && buf == []
    decreases |buf|
  {
    hide With;
    if buf != [] {
      PutAllEmpty(u, buf[..|buf| - 1]);
    }
  }

  lemma ReceiveTruthfulIff(u: Uart, buf: seq<bv8>)
    requires Truthful(u) && (Has(u.fcr, FCR_FE) || buf != [])
    ensures Truthful(Receive(u, buf)) <==> !(u.fcr & 0x01 != 0 && buf == [] && u.recv == [])
  {
    PutAllEmpty(u, buf);
    PutAllKeepsThre(u, buf);
    var v := if Has(u.fcr, FCR_FE) then Queued(u, buf) else Latched(u, buf[0]);
    assert v.fcr == u.fcr && (Has(u.fcr, FCR_FE) ==> v.recv == RecvFifoPutAll(u, buf).recv && Has(v.lsr, LSR_DR)) by {
      ReadyBits(RecvFifoPutAll(u, buf).lsr);
      hide Has, With, RecvFifoPutAll;
    }
    UpdateSameData(v);
    SameDataTruthful(v, UpdateIrq(v));
    hide Queued, Latched, UpdateIrq, RecvFifoPutAll;
  }

  lemma DrainTruthful(u: Uart)
    requires Truthful(u)
    ensures Truthful(ReadRbr(u))
  {
    var v := Drained(u);
    ReadyBits(u.lsr);
    UpdateSameData(v);
    SameDataTruthful(v, UpdateIrq(v));
    hide UpdateIrq, Without;
  }

  lemma BreakTruthful(u: Uart)
    ensures Truthful(ReceiveBreak(u))
  {
    var v := Broken(u);
    assert v.recv != [] && Has(v.lsr, LSR_DR) by {
      ReadyBits(u.lsr);
      ReadyBits(With(u.lsr, LSR_OE));
      hide With, Has;
    }
    FullIsTruthful(v);
    UpdateSameData(v);
    SameDataTruthful(v, UpdateIrq(v));
    hide UpdateIrq, Broken;
  }

  lemma ThrTruthful(u: Uart, b: bv8, accepts: bool)
    requires Truthful(u)
    ensures Truthful(Transmit(Hold(u, b), accepts))
  {
    var h := Hold(u, b);
    var v := Loaded(h);
    HoldKeepsInput(u, b);
    LoadedKeepsInput(h);
    InputSameData(u, h);
    InputSameData(h, v);
    SameDataTruthful(u, h);
    SameDataTruthful(h, v);
    assert Truthful(h) && Truthful(v);
    DeliveredTruthful(v, accepts);
    hide Truthful, SameData, Hold, Loaded, Delivered, NothingToSend;
  }

  lemma DeliveredTruthful(v: Uart, accepts: bool)
    requires Truthful(v)
    ensures Truthful(Delivered(v, accepts))
  {
    hide Truthful, SameData, KeepsInput, Receive, FinishTransmit, Has;
    if Has(v.mcr, MCR_LOOP) {
      LoopTruthful(v);
    } else {
      DeliveredKeepsInput(v, accepts);
      InputSameData(v, Delivered(v, accepts));
      SameDataTruthful(v, Delivered(v, accepts));
    }
  }

  lemma LoopTruthful(v: Uart)
    requires Truthful(v)
    ensures Truthful(FinishTransmit(Receive(v, [v.tsr])))
  {
    hide Truthful, SameData, KeepsInput, FinishTransmit, Receive;
    var w := Receive(v, [v.tsr]);
    ReceiveTruthfulIff(v, [v.tsr]);
    FinishKeepsInput(w, w.tsrRetry);
    assert w.(tsrRetry := w.tsrRetry) == w;
    InputSameData(w, FinishTransmit(w));
    SameDataTruthful(w, FinishTransmit(w));
  }

  lemma FcrTruthfulIff(u: Uart, b: bv8)
    requires Truthful(u)
    ensures Truthful(WriteFcr(u, b)) <==>
      !(b != u.fcr && b & 0x01 != 0 && u.lsr & 0x01 != 0 && (b & 0x02 != 0 || u.fcr & 0x01 == 0))
  {
    var c := Flushing(u, b);
    FlushBits(u.fcr, b);
    var v := FcrWritten(u, c);
    UpdateSameData(v);
    SameDataTruthful(v, UpdateIrq(v));
    assert v.lsr == u.lsr && v.fcr == Without(c, 0x36) && v.recv == (if Has(c, FCR_RFR) then [] else u.recv) by {
      hide Has, With, Without, TriggerLevel, Flushing;
    }
    hide UpdateIrq, FcrWritten, With, Without;
  }

  lemma FlushBits(fcr: bv8, b: bv8)
    ensures var c := if Has(b ^ fcr, FCR_FE) then With(b, FCR_XFR | FCR_RFR) else b;
      && (Without(c, 0x36) & 0x01 != 0 <==> b & 0x01 != 0)
      && (b & 0x01 != 0 ==> (Has(c, FCR_RFR) <==> b & 0x02 != 0 || fcr & 0x01 == 0))
  {
  }

  lemma ReadTruthful(u: Uart, i: Index)
    requires Truthful(u)
    ensures Truthful(IORead(u, i))
  {
    hide Truthful, SameData, KeepsInput, ReadRbr, ReadIir, ReadLsr, ReadMsr, Has;
    if i == 0 && !Has(u.lcr, LCR_DLAB) {
      DrainTruthful(u);
    } else {
      ReadKeepsInput(u, i);
      InputSameData(u, IORead(u, i));
      SameDataTruthful(u, IORead(u, i));
    }
  }

  lemma WriteTruthfulIff(u: Uart, port: bv32, value: bv32, accepts: bool)
    requires Truthful(u)
    ensures Truthful(IOWrite(u, Register(port), value, accepts)) <==> !Misleads(u, Write(port, value, accepts))
  {
    PortRegister(port);
    var b := LowByte(value);
    var i := Register(port);
    hide Truthful, SameData, KeepsInput, Register, Has, Hold, Transmit, WriteFcr, WriteIer, WriteLcr, WriteMcr,
      WithLowByte, WithHighByte;
    if i == 0 && !Has(u.lcr, LCR_DLAB) {
      ThrTruthful(u, b, accepts);
    } else if i == 2 {
      FcrTruthfulIff(u, b);
    } else {
      WriteSameData(u, i, value, accepts);
      SameDataTruthful(u, IOWrite(u, i, value, accepts));
    }
  }

  lemma WriteSameData(u: Uart, i: Index, value: bv32, accepts: bool)
    requires i != 2 && (i == 0 ==> Has(u.lcr, LCR_DLAB))
    ensures SameData(u, IOWrite(u, i, value, accepts))
  {
    hide SameData, KeepsInput, Has, LowByte, Hold, Transmit, WriteIer, WriteLcr, WriteMcr, WithLowByte, WithHighByte;
    var b := LowByte(value);
    match i
    case 0 => PlainSameData(u, b, WithLowByte(u.divider, value));
    case 1 =>
      PlainSameData(u, b, WithHighByte(u.divider, value));
      WriteIerKeepsInput(u, b);
      InputSameData(u, WriteIer(u, b));
    case 3 => PlainSameData(u, b, 0);
    case 4 => McrSameData(u, b);
    case 7 => PlainSameData(u, b, 0);
    case _ =>
      SameKeepsInput(u);
      InputSameData(u, u);
  }

  lemma PlainSameData(u: Uart, b: bv8, d: bv16)
    ensures SameData(u, WriteLcr(u, b)) && SameData(u, u.(scr := b)) && SameData(u, u.(divider := d))
  {
    PlainRegistersKeepInput(u, b, d);
    InputSameData(u, WriteLcr(u, b));
    InputSameData(u, u.(scr := b));
    InputSameData(u, u.(divider := d));
    hide SameData, KeepsInput, WriteLcr;
  }

  lemma McrSameData(u: Uart, b: bv8)
    ensures SameData(u, WriteMcr(u, b))
  {
    hide Has, Without;
  }

  lemma EventTruthfulIff(u: Uart, op: Op)
    requires Truthful(u) && Allowed(u, op) && !op.Read? && !op.Write?
    ensures Truthful(Step(u, op)) <==> !Misleads(u, op)
  {
    hide Truthful, SameData, KeepsInput, Receive, ReceiveBreak, FifoTimeoutInterrupt, UpdateMsl;
    match op
    case Arrive(buf) => ReceiveTruthfulIff(u, buf);
    case Break => BreakTruthful(u);
    case TimeoutFires =>
      TimeoutKeepsInput(u);
      InputSameData(u, FifoTimeoutInterrupt(u));
      SameDataTruthful(u, FifoTimeoutInterrupt(u));
    case PollFires =>
      PollKeepsInput(u);
      InputSameData(u, UpdateMsl(u));
      SameDataTruthful(u, UpdateMsl(u));
  }

  /** In every mode, whatever the driver answers, an operation makes the data ready bit wrong in exactly these cases. */
  lemma StepTruthfulIff(u: Uart, op: Op)
    requires Truthful(u) && Allowed(u, op)
    ensures Truthful(Step(u, op)) <==> !Misleads(u, op)
  {
    hide Truthful, Allowed, IORead, IOWrite, Register, Receive, ReceiveBreak, FifoTimeoutInterrupt, UpdateMsl;
    if op.Read? {
      ReadTruthful(u, Register(op.port));
    } else if op.Write? {
      WriteTruthfulIff(u, op.port, op.value, op.accepts);
    } else {
      EventTruthfulIff(u, op);
    }
  }

  predicate NeverMisleads(u: Uart, ops: seq<Op>)
    requires RunAllowed(u, ops)
    decreases |ops|
  {
    ops != [] ==> !Misleads(u, ops[0]) && NeverMisleads(Step(u, ops[0]), ops[1..])
  }

  lemma {:induction false} RunTruthful(u: Uart, ops: seq<Op>)
    requires Truthful(u) && RunAllowed(u, ops) && NeverMisleads(u, ops)
    ensures Truthful(Run(u, ops))
    decreases |ops|
  {
    hide Truthful, Misleads, Step, Allowed;
    if ops != [] {
      StepTruthfulIff(u, ops[0]);
      RunTruthful(Step(u, ops[0]), ops[1..]);
    }
  }

  /**
  In a run from power-on without those, a guest in FIFO mode reads data ready exactly
  while there is something to read.
  */
  lemma DataReadyReads(ops: seq<Op>, port: bv32)
    requires RunAllowed(PowerOn(), ops) && NeverMisleads(PowerOn(), ops) && port & 7 == 5
    ensures var u := Run(PowerOn(), ops);
      u.fcr & 0x01 != 0 ==> (ReadValue(u, Register(port)) & 0x01 != 0 <==> u.recv != [])
  {
    PortRegister(port);
    hide Run, Register;
    RunTruthful(PowerOn(), ops);
  }

  /** A misleading run: a byte arrives, and then the FIFOs are turned on. */
  lemma EnablingMisleads()
    ensures var ops := [Arrive([0x55]), Write(2, 0x01, true)];
      && RunAllowed(PowerOn(), ops)
      && var u := Run(PowerOn(), ops); u.fcr == 0x01 && u.lsr & 0x01 != 0 && u.recv == []
  {
    var a, b := Arrive([0x55]), Write(2, 0x01, true);
    var ops := [a, b];
    assert ops[1..] == [b] && [b][1..] == [];
    var u := PowerOn().(rbr := 0x55, lsr := 0x61, line := Low);
    assert Step(PowerOn(), a) == u by { FirstArrives(); }
    var v := Step(u, b);
    assert v.fcr == 0x01 && v.lsr == 0x61 && v.recv == [] by { ThenEnabled(u); }
    hide Step;
    assert Run(v, []) == v && Run(u, [b]) == v;
  }

  lemma FirstArrives()
    ensures Step(PowerOn(), Arrive([0x55])) == PowerOn().(rbr := 0x55, lsr := 0x61, line := Low)
  {
    var v := PowerOn().(rbr := 0x55, lsr := 0x61);
    assert Latched(PowerOn(), 0x55) == v;
    NothingEnabled(v);
    hide Latched, UpdateIrq;
  }

  lemma ThenEnabled(u: Uart)
    requires u.fcr == 0 && u.lsr == 0x61
    ensures var v := Step(u, Write(2, 0x01, true)); v.fcr == 0x01 && v.lsr == 0x61 && v.recv == []
  {
    hide UpdateIrq;
    UpdateSameEnds(FcrWritten(u, Flushing(u, 0x01)));
    UpdateKeepsRest(FcrWritten(u, Flushing(u, 0x01)));
  }

  // ----- Single operations -----

  /** Reading the line status gives it as it is, and clears its break and overrun bits and nothing else. */
  lemma StatusReadClears(u: Uart, port: bv32)
    requires port & 7 == 5
    ensures ReadValue(u, Register(port)) == u.lsr && Step(u, Read(port)).lsr == u.lsr & 0xED
  {
    PortRegister(port);
    ClearedStatus(u.lsr);
    UpdateSameEnds(u.(lsr := Without(u.lsr, LSR_BI | LSR_OE)));
    hide Register, UpdateIrq, Without, Has;
  }

  lemma ClearedStatus(lsr: bv8)
    ensures Without(lsr, LSR_BI | LSR_OE) == lsr & 0xED
    ensures !Has(lsr, LSR_BI | LSR_OE) ==> lsr & 0xED == lsr
  {
  }

  /** A break puts a zero byte into the FIFO if it has room, and sets data ready and the break bit. */
  lemma BreakEnters(u: Uart)
    ensures var v := Step(u, Break);
      && v.rbr == 0 && v.recv == (if |u.recv| < 16 then u.recv + [0] else u.recv)
      && v.lsr == (if |u.recv| < 16 then u.lsr | 0x11 else u.lsr | 0x13)
  {
    UpdateKeepsRest(Broken(u));
    BreakBits(u.lsr);
    hide UpdateIrq, With;
  }

  lemma BreakBits(lsr: bv8)
    ensures With(lsr, LSR_BI | LSR_DR) == lsr | 0x11 && With(With(lsr, LSR_OE), LSR_BI | LSR_DR) == lsr | 0x13
  {
  }

  /** In loopback a written byte is received, and the driver gets nothing. */
  lemma LoopbackEchoes(u: Uart, port: bv32, value: bv32)
    requires Sent(u) && u.mcr & 0x10 != 0 && u.lcr & 0x80 == 0 && port & 7 == 0
    ensures var v := Step(u, Write(port, value, true));
      var b := (value & 0xFF) as bv8;
      && Offered(u, Register(port), value) == []
      && (u.fcr & 0x01 == 0 ==> v.rbr == b)
      && (u.fcr & 0x01 != 0 && |u.recv| < 16 ==> v.recv == u.recv + [b])
      && (u.fcr & 0x01 != 0 && |u.recv| == 16 ==> v.recv == u.recv && v.lsr & 0x02 != 0)
  {
    PortRegister(port);
    var b := LowByte(value);
    assert b == (value & 0xFF) as bv8;
    hide Register, Hold, Loaded, FinishTransmit, Receive, LowByte, KeepsInput, Sent, NothingToSend;
    WriteThrKeepsSent(u, b);
    LoadedIsSent(u, b);
    var v := Loaded(Hold(u, b));
    HoldKeepsInput(u, b);
    LoadedKeepsInput(Hold(u, b));
    KeptInput(u, Hold(u, b), v);
    var w := Receive(v, [b]);
    LoopReceives(v, b);
    FinishKeeps(w);
  }

  lemma KeptInput(u: Uart, h: Uart, v: Uart)
    requires KeepsInput(u, h) && KeepsInput(h, v)
    ensures v.recv == u.recv && v.fcr == u.fcr
  {
    hide Has;
  }

  lemma LoopReceives(v: Uart, b: bv8)
    ensures var w := Receive(v, [b]);
      && (v.fcr & 0x01 == 0 ==> w.rbr == b)
      && (v.fcr & 0x01 != 0 && |v.recv| < 16 ==> w.recv == v.recv + [b])
      && (v.fcr & 0x01 != 0 && |v.recv| == 16 ==> w.recv == v.recv && w.lsr & 0x02 != 0)
  {
    assert [b][..0] == [] && RecvFifoPutAll(v, []) == v;
    assert RecvFifoPutAll(v, [b]) == RecvFifoPut(v, b);
    UpdateKeepsRest(Queued(v, [b]));
    UpdateKeepsRest(Latched(v, b));
    OverrunBits(v.lsr);
    hide UpdateIrq, With;
  }

  lemma OverrunBits(lsr: bv8)
    ensures With(With(lsr, LSR_OE), LSR_DR) & 0x02 != 0
  {
  }

  lemma FinishKeeps(w: Uart)
    ensures var f := FinishTransmit(w); f.rbr == w.rbr && f.recv == w.recv && f.lsr & 0x02 == w.lsr & 0x02
  {
    var v := w.(lsr := With(w.lsr, LSR_TEMT), thrPending := true);
    UpdateKeepsRest(v);
    assert With(w.lsr, LSR_TEMT) & 0x02 == w.lsr & 0x02;
    hide UpdateIrq, Has, With;
  }

  /** The driver may deliver up to the trigger level, and one byte at a time beyond it, as long as there is room. */
  lemma CanReceiveReachesTrigger(u: Uart, s: Settings)
    requires Holds(u, s) && s.fcr & 0x01 != 0
    ensures |u.recv| <= Threshold(s.fcr) ==> |u.recv| + CanReceive(u) == Threshold(s.fcr)
    ensures Threshold(s.fcr) < |u.recv| < 16 ==> CanReceive(u) == 1
    ensures |u.recv| >= 16 ==> CanReceive(u) == 0
  {
  }

  /** Without FIFOs there is room for one byte, until it is read. */
  lemma CanReceiveOne(u: Uart)
    requires u.fcr & 0x01 == 0
    ensures CanReceive(u) == if u.lsr & 0x01 != 0 then 0 else 1
  {
  }

  /** Writing the control register flushes the FIFOs that it names, or both when it turns them on or off. */
  lemma ControlFlushes(u: Uart, port: bv32, value: bv32, accepts: bool)
    requires port & 7 == 2
    ensures var v := Step(u, Write(port, value, accepts));
      var b := (value & 0xFF) as bv8;
      var turned := b & 0x01 != u.fcr & 0x01;
      && v.recv == (if b != u.fcr && (turned || b & 0x02 != 0) then [] else u.recv)
      && v.xmit == (if b != u.fcr && (turned || b & 0x04 != 0) then [] else u.xmit)
      && (b != u.fcr && (turned || b & 0x02 != 0) ==> !v.timeoutPending)
  {
    hide Register, WriteFcr;
    PortRegister(port);
    FcrFlushes(u, LowByte(value));
  }

  lemma FcrFlushes(u: Uart, b: bv8)
    ensures var v := WriteFcr(u, b);
      var turned := b & 0x01 != u.fcr & 0x01;
      && v.recv == (if b != u.fcr && (turned || b & 0x02 != 0) then [] else u.recv)
      && v.xmit == (if b != u.fcr && (turned || b & 0x04 != 0) then [] else u.xmit)
      && (b != u.fcr && (turned || b & 0x02 != 0) ==> !v.timeoutPending)
  {
    var c := Flushing(u, b);
    TurnedBits(u.fcr, b);
    UpdateKeepsRest(FcrWritten(u, c));
    hide UpdateIrq, With, Without, TriggerLevel, Has;
  }

  lemma TurnedBits(fcr: bv8, b: bv8)
    ensures var c := if Has(b ^ fcr, FCR_FE) then With(b, FCR_XFR | FCR_RFR) else b;
      && (Has(c, FCR_RFR) <==> b & 0x01 != fcr & 0x01 || b & 0x02 != 0)
      && (Has(c, FCR_XFR) <==> b & 0x01 != fcr & 0x01 || b & 0x04 != 0)
  {
  }

  /**
  The holding register's interrupt: pending once a written byte has left and when
  interrupts are enabled while the register is empty, and no longer once the
  identification that names it has been read.
  */
  lemma HolderInterrupt(u: Uart, port: bv32, value: bv32)
    requires Sent(u)
    ensures port & 7 == 0 && u.lcr & 0x80 == 0 ==> Step(u, Write(port, value, true)).thrPending
    ensures port & 7 == 1 && u.lcr & 0x80 == 0 ==> Step(u, Write(port, value, true)).thrPending
    ensures port & 7 == 2 ==> Step(u, Read(port)).thrPending == (u.thrPending && u.iir & 0x06 != 0x02)
  {
    PortRegister(port);
    var b := LowByte(value);
    ThrWriteEmpties(u, b);
    UpdateKeepsRest(EnablesSet(u, b).(thrPending := true));
    UpdateKeepsRest(u.(thrPending := false));
    hide Register, UpdateIrq, Without, Transmit, Hold, LowByte, Has;
  }

  /** A character timeout becomes pending exactly if the FIFO holds something, until the buffer is read. */
  lemma TimeoutBecomesPending(u: Uart)
    ensures Step(u, TimeoutFires).timeoutPending <==> u.timeoutPending || u.recv != []
    ensures u.fcr & 0x01 != 0 ==> !ReadRbr(u).timeoutPending
  {
    UpdateKeepsRest(u.(timeoutPending := true));
    UpdateKeepsRest(Drained(u));
    hide UpdateIrq, Without;
  }

  lemma RefusedBits(lsr: bv8)
    ensures LoadedLsr(Without(lsr, LSR_TEMT | LSR_THRE), true, true) & 0x60 == 0x20
    ensures LoadedLsr(Without(lsr, LSR_THRE), false, true) & 0x60 == 0x20
    ensures LoadedLsr(Without(lsr, LSR_THRE), false, false) & 0x60 == 0x20
    ensures !Has(Without(lsr, LSR_THRE), LSR_THRE)
  {
  }

  /** A byte that the driver refuses leaves the holding register but not the transmitter. */
  lemma RefusedByteReads(u: Uart, port: bv32, value: bv32)
    requires Sent(u) && u.mcr & 0x10 == 0 && u.lcr & 0x80 == 0 && port & 7 == 0
    ensures Step(u, Write(port, value, false)).lsr & 0x60 == 0x20
  {
    PortRegister(port);
    var b := LowByte(value);
    RefusedBits(u.lsr);
    hide Register, LowByte;
    HeldRefused(u, b);
    ThrWritten(u, value, false);
    hide Transmit, Hold;
  }

  lemma HeldRefused(u: Uart, b: bv8)
    requires Sent(u) && u.mcr & 0x10 == 0
    ensures Transmit(Hold(u, b), false).lsr & 0x60 == 0x20
  {
    RefusedBits(u.lsr);
    UpdateKeepsRest(Held(u, b));
    var h := Held(u, b);
    var v := Hold(u, b);
    assert Has(u.fcr, FCR_FE) ==> v.xmit == [b];
    LoadedIsSent(u, b);
    var w := Loaded(v);
    LoadedRefused(v);
    hide Held, UpdateIrq, Without, LoadedLsr, Hold, Loaded, NothingToSend, Receive;
    assert !Has(w.mcr, MCR_LOOP);
  }

  lemma LoadedRefused(v: Uart)
    requires v.tsrRetry == 0 && (Has(v.fcr, FCR_FE) ==> |v.xmit| == 1)
    ensures var w := Loaded(v);
      && w.lsr == LoadedLsr(v.lsr, Has(v.fcr, FCR_FE), w.xmit == []) && w.tsrRetry == 0
      && (Has(v.fcr, FCR_FE) ==> w.xmit == [])
  {
    hide Has, LoadedLsr;
  }

  /** What Reset leaves in the registers, and what it leaves alone. */
  lemma ResetRegisters(u: Uart)
    ensures var v := Reset(u);
      && v.rbr == 0 && v.ier == 0 && v.iir == 0x01 && v.lcr == 0 && v.mcr == 0x08 && v.lsr == 0x60 && v.msr == 0xB0
      && v.scr == 0 && v.divider == 0x000C && v.recv == [] && v.xmit == [] && v.tsrRetry == 0 && !v.thrPending
      && v.fcr == u.fcr && v.itl == u.itl && v.timeoutPending == u.timeoutPending && v.line == u.line
  {
  }

  /**
  Reading the buffer takes the front of the FIFO, or the buffer register without
  FIFOs; data ready and break are cleared when nothing is left, and nothing else is.
  */
  lemma BufferReadTakes(u: Uart, port: bv32)
    requires port & 7 == 0 && u.lcr & 0x80 == 0
    ensures var v := Step(u, Read(port));
      var value := ReadValue(u, Register(port));
      && value == (if u.fcr & 0x01 == 0 then u.rbr else if u.recv != [] then u.recv[0] else 0)
      && v.recv == (if u.fcr & 0x01 != 0 && u.recv != [] then u.recv[1..] else u.recv)
      && v.lsr == (if u.fcr & 0x01 == 0 || |u.recv| <= 1 then u.lsr & 0xEE else u.lsr)
  {
    PortRegister(port);
    UpdateKeepsRest(Drained(u));
    TakenBits(u.lsr);
    hide Register, UpdateIrq, Without;
  }

  lemma TakenBits(lsr: bv8)
    ensures Without(lsr, LSR_DR | LSR_BI) == lsr & 0xEE
  {
  }

  /** A byte that arrives without FIFOs is latched, sets data ready, and overruns one that has not been read. */
  lemma ByteIsLatched(u: Uart, buf: seq<bv8>)
    requires u.fcr & 0x01 == 0 && buf != []
    ensures var v := Step(u, Arrive(buf));
      && v.rbr == buf[0] && v.recv == u.recv
      && v.lsr == (if u.lsr & 0x01 != 0 then u.lsr | 0x03 else u.lsr | 0x01)
  {
    UpdateKeepsRest(Latched(u, buf[0]));
    LatchedBits(u.lsr);
    hide UpdateIrq, With;
  }

  lemma LatchedBits(lsr: bv8)
    ensures With(With(lsr, LSR_OE), LSR_DR) == lsr | 0x03 && With(lsr, LSR_DR) == lsr | 0x01
  {
  }

  /** Outside loopback, reading the modem status gives it and clears its delta bits. */
  lemma ModemStatusClears(u: Uart, port: bv32)
    requires port & 7 == 6 && u.mcr & 0x10 == 0
    ensures ReadValue(u, Register(port)) == u.msr && Step(u, Read(port)).msr == u.msr & 0xF0
  {
    PortRegister(port);
    DeltaBits(u.msr);
    UpdateKeepsRest(u.(msr := Without(u.msr, MSR_ANY_DELTA)));
    UpdateKeepsRest(UpdateMsl(u).(msr := Without(u.msr, MSR_ANY_DELTA)));
    hide Register, UpdateIrq, Without, Has;
    assert !Has(u.mcr, MCR_LOOP) by { OutsideLoop(u.mcr); }
  }

  lemma DeltaBits(msr: bv8)
    ensures Without(msr, MSR_ANY_DELTA) == msr & 0xF0 && (!Has(msr, MSR_ANY_DELTA) ==> msr & 0xF0 == msr)
  {
  }

  lemma OutsideLoop(mcr: bv8)
    requires mcr & 0x10 == 0
    ensures !Has(mcr, MCR_LOOP)
  {
  }
}
