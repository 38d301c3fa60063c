/**
The UART's registers as a guest that only counts its own writes expects to read them
back, over every run from power-on.
*/
module UartRegisters {
  import opened Uart
  import opened UartTransmit

  // ----- What was last written -----

  datatype Settings = Settings(ier: bv8, fcr: bv8, lcr: bv8, mcr: bv8, scr: bv8, divisor: bv16)

  /** The settings after power-on. */
  const DEFAULTS := Settings(0, 0, 0, 0x08, 0, 0x000C)

  /** What a write to a port leaves in the settings; a byte-wide port takes the value's low byte. */
  function Programmed(s: Settings, port: bv32, value: bv32): Settings {
    var b := (value & 0xFF) as bv8;
    var latch := s.lcr & 0x80 != 0;
    match port & 7
    case 0 => if latch then s.(divisor := (s.divisor & 0xFF00) | (value & 0xFFFF) as bv16) else s
    case 1 =>
      if latch then s.(divisor := (s.divisor & 0x00FF) | ((value << 8) & 0xFFFF) as bv16)
      else s.(ier := b & 0x0F)
    case 2 => s.(fcr := b & 0xC9)
    case 3 => s.(lcr := b)
    case 4 => s.(mcr := b & 0x1F)
    case 7 => s.(scr := b)
    case _ => s
  }

  function ProgrammedBy(s: Settings, ops: seq<Op>): Settings
    decreases |ops|
  {
    if ops == [] then s
    else if ops[0].Write? then ProgrammedBy(Programmed(s, ops[0].port, ops[0].value), ops[1..])
    else ProgrammedBy(s, ops[1..])
  }

  /** The trigger levels of the receive FIFO. */
  function Threshold(fcr: bv8): nat {
    if fcr & 0xC0 == 0x00 then 1 else if fcr & 0xC0 == 0x40 then 4 else if fcr & 0xC0 == 0x80 then 8 else 14
  }

  /**
  The registers are as set; the identification shows in its high half whether the
  FIFOs are on; the modem lines are as they were at power-on; the driver was last told
  of the break bit that the line control register holds.
  */
  predicate Holds(u: Uart, s: Settings) {
    && u.ier == s.ier && u.fcr == s.fcr && u.lcr == s.lcr && u.mcr == s.mcr && u.scr == s.scr && u.divider == s.divisor
    && s.fcr & 0x36 == 0
    && u.iir & 0xF0 == (if s.fcr & 0x01 != 0 then 0xC0 else 0x00)
    && (s.fcr & 0x01 != 0 ==> u.itl == Threshold(s.fcr))
    && u.msr == 0xB0
    && (u.lastBreakEnable <==> s.lcr & 0x40 != 0)
  }

  // ----- What changes none of it -----

  predicate Same(u: Uart, v: Uart) {
    && v.ier == u.ier && v.fcr == u.fcr && v.lcr == u.lcr && v.mcr == u.mcr && v.scr == u.scr
    && v.divider == u.divider && v.itl == u.itl && v.iir & 0xF0 == u.iir & 0xF0
    && (u.msr == 0xB0 ==> v.msr == 0xB0) && v.lastBreakEnable == u.lastBreakEnable
  }

  lemma SameTwice(u: Uart, v: Uart, w: Uart)
    ensures Same(u, u)
    ensures Same(u, v) && Same(v, w) ==> Same(u, w)
  {
  }

  lemma SameHolds(u: Uart, v: Uart, s: Settings)
    requires Same(u, v) && Holds(u, s)
    ensures Holds(v, s)
  {
    hide Threshold;
  }

  lemma CodeIsLow(u: Uart)
    ensures Identified(u.iir, Pending(u)) & 0xF0 == u.iir & 0xF0
  {
    var iir := u.iir;
    var code := Pending(u);
    assert code in {0x00, 0x01, 0x02, 0x04, 0x06, 0x0C};
    hide Pending, Has;
    HighNibble(iir, code);
  }

  lemma HighNibble(iir: bv8, code: bv8)
    requires code in {0x00, 0x01, 0x02, 0x04, 0x06, 0x0C}
    ensures Identified(iir, code) & 0xF0 == iir & 0xF0
  {
  }

  lemma UpdateIsSame(u: Uart, v: Uart)
    requires Same(u, v)
    ensures Same(u, UpdateIrq(v))
  {
    CodeIsLow(v);
    hide Pending, Identified;
  }

  lemma QueueIsSame(u: Uart, buf: seq<bv8>)
    ensures Same(u, Queued(u, buf))
  {
    PutAllKeepsThre(u, buf);
    hide With, RecvFifoPutAll;
  }

  lemma ReceiveIsSame(u: Uart, buf: seq<bv8>)
    requires Has(u.fcr, FCR_FE) || buf != []
    ensures Same(u, Receive(u, buf))
  {
    QueueIsSame(u, buf);
    UpdateIsSame(u, Queued(u, buf));
    var b := if buf == [] then 0 else buf[0];
    assert Same(u, Latched(u, b)) by { hide With, Has; }
    UpdateIsSame(u, Latched(u, b));
    hide Same, Queued, Latched, UpdateIrq, Has;
  }

  lemma EventIsSame(u: Uart, op: Op)
    requires Allowed(u, op) && !op.Read? && !op.Write?
    ensures Same(u, Step(u, op))
  {
    hide Receive, UpdateIrq, Broken, Same, Has, UpdateMsl;
    if op.Arrive? {
      ReceiveIsSame(u, op.buf);
    }
    BreakIsSame(u);
    TimeoutIsSame(u);
    PollIsSame(u);
    SameTwice(u, u, u);
  }

  lemma BreakIsSame(u: Uart)
    ensures Same(u, UpdateIrq(Broken(u)))
  {
    assert Same(u, Broken(u)) by { hide With; }
    UpdateIsSame(u, Broken(u));
    hide Broken, UpdateIrq;
  }

  lemma TimeoutIsSame(u: Uart)
    ensures Same(u, UpdateIrq(u.(timeoutPending := true)))
  {
    UpdateIsSame(u, u.(timeoutPending := true));
    hide UpdateIrq;
  }

  lemma ReadIsSame(u: Uart, i: Index)
    ensures Same(u, IORead(u, i))
  {
    hide Same, Has, ReadRbr, ReadIir, ReadLsr, ReadMsr;
    BufferIsSame(u);
    IdIsSame(u);
    StatusIsSame(u);
    ModemIsSame(u);
    SameTwice(u, u, u);
  }

  lemma BufferIsSame(u: Uart)
    ensures Same(u, ReadRbr(u))
  {
    hide Same, Drained, UpdateIrq;
    DrainIsSame(u);
    UpdateIsSame(u, Drained(u));
  }

  lemma IdIsSame(u: Uart)
    ensures Same(u, ReadIir(u))
  {
    hide UpdateIrq;
    UpdateIsSame(u, u.(thrPending := false));
  }

  lemma StatusIsSame(u: Uart)
    ensures Same(u, ReadLsr(u))
  {
    hide UpdateIrq, Without, Has;
    UpdateIsSame(u, u.(lsr := Without(u.lsr, LSR_BI | LSR_OE)));
  }

  lemma ModemIsSame(u: Uart)
    ensures Same(u, ReadMsr(u))
  {
    hide Same, UpdateMsl, DeltasRead, Has;
    DeltasAreSame(u);
    DeltasAreSame(UpdateMsl(u));
    PollIsSame(u);
    SameTwice(u, UpdateMsl(u), DeltasRead(UpdateMsl(u)));
    SameTwice(u, u, u);
  }

  lemma DrainIsSame(u: Uart)
    ensures Same(u, Drained(u))
  {
    hide Without, Has;
  }

  lemma PollIsSame(u: Uart)
    ensures Same(u, UpdateMsl(u))
  {
  }

  lemma DeltasAreSame(u: Uart)
    ensures Same(u, DeltasRead(u))
  {
    assert Has(0xB0, MSR_ANY_DELTA) == false;
    UpdateIsSame(u, u);
    SameTwice(u, u, u);
    if u.msr != 0xB0 {
      UpdateIsSame(u, u.(msr := Without(u.msr, MSR_ANY_DELTA)));
    }
    hide UpdateIrq, Without;
  }

  lemma HoldIsSame(u: Uart, b: bv8)
    ensures Same(u, Hold(u, b))
  {
    assert Same(u, Held(u, b)) by { hide Has, Without; }
    UpdateIsSame(u, Held(u, b));
    hide Held, UpdateIrq;
  }

  lemma FinishIsSame(u: Uart)
    ensures Same(u, FinishTransmit(u))
  {
    hide Has, With, UpdateIrq;
    UpdateIsSame(u, u.(lsr := With(u.lsr, LSR_TEMT), thrPending := true));
  }

  lemma OfferIsSame(v: Uart, accepts: bool)
    ensures Same(v, Offering(v, accepts))
  {
    ReceiveIsSame(v, [v.tsr]);
    hide Has, Receive, TriesAgain;
  }

  lemma LoadedIsSame(u: Uart)
    ensures Same(u, Loaded(u))
  {
    hide Same, LoadTsr;
    LoadTsrRest(u);
    SendIsSame(u, LoadTsr(u));
    SameTwice(u, u, u);
  }

  lemma LoadTsrRest(u: Uart)
    ensures var v := LoadTsr(u); v == u.(tsr := v.tsr, xmit := v.xmit, lsr := v.lsr)
  {
    hide Has, LoadedLsr;
  }

  lemma SendIsSame(u: Uart, v: Uart)
    requires v == u.(tsr := v.tsr, xmit := v.xmit, lsr := v.lsr)
    ensures Same(u, v)
  {
  }

  lemma DeliveredIsSame(v: Uart, accepts: bool)
    ensures Same(v, Delivered(v, accepts))
  {
    hide Has, Same, Offering, FinishTransmit, TriesAgain;
    var w := Offering(v, accepts);
    OfferIsSame(v, accepts);
    FinishIsSame(w);
    SameTwice(v, w, FinishTransmit(w));
  }

  lemma TransmitIsSame(u: Uart, accepts: bool)
    ensures Same(u, Transmit(u, accepts))
  {
    hide Has, Same, Loaded, Delivered, NothingToSend;
    var v := Loaded(u);
    LoadedIsSame(u);
    DeliveredIsSame(v, accepts);
    SameTwice(u, v, Delivered(v, accepts));
  }

  // ----- Writes -----

  lemma WriteThrHolds(u: Uart, b: bv8, accepts: bool, s: Settings)
    requires Holds(u, s)
    ensures Holds(Transmit(Hold(u, b), accepts), s)
  {
    hide Same, Holds, Hold, Transmit;
    HoldIsSame(u, b);
    TransmitIsSame(Hold(u, b), accepts);
    SameTwice(u, Hold(u, b), Transmit(Hold(u, b), accepts));
    SameHolds(u, Transmit(Hold(u, b), accepts), s);
  }

  lemma WriteIerHolds(u: Uart, b: bv8, s: Settings)
    requires Holds(u, s)
    ensures Holds(WriteIer(u, b), s.(ier := b & 0x0F))
  {
    hide Threshold, Has, UpdateIrq, Without;
    var v := EnablesSet(u, b);
    EnabledBits(b);
    assert Holds(v, s.(ier := b & 0x0F));
    var w := v.(thrPending := true);
    UpdateIsSame(v, w);
    SameHolds(v, UpdateIrq(w), s.(ier := b & 0x0F));
  }

  lemma EnabledBits(b: bv8)
    ensures Without(b, 0xF0) == b & 0x0F
  {
  }

  lemma ControlBits(b: bv8, c: bv8)
    requires c == b || c == With(b, FCR_XFR | FCR_RFR)
    ensures Without(c, 0x36) == b & 0xC9 && (b & 0xC9) & 0x36 == 0 && (Has(c, FCR_FE) <==> (b & 0xC9) & 0x01 != 0)
    ensures TriggerLevel(c) == Threshold(b & 0xC9)
  {
  }

  lemma SameControl(b: bv8)
    requires b & 0x36 == 0
    ensures b & 0xC9 == b
  {
  }

  lemma EnableShown(iir: bv8)
    ensures With(iir, IIR_FE) & 0xF0 == 0xC0 | (iir & 0x30) && Without(iir, IIR_FE) & 0xF0 == iir & 0x30
    ensures iir & 0xF0 == 0xC0 || iir & 0xF0 == 0x00 ==> iir & 0x30 == 0
  {
  }

  lemma FcrWrittenHolds(u: Uart, c: bv8, b: bv8, s: Settings)
    requires Holds(u, s) && (c == b || c == With(b, FCR_XFR | FCR_RFR))
    ensures Holds(FcrWritten(u, c), s.(fcr := b & 0xC9))
  {
    ControlBits(b, c);
    EnableShown(u.iir);
    hide Threshold, TriggerLevel, With, Without, Has, Flushed;
    assert Flushed(u, c).iir == u.iir && Same(u, Flushed(u, c)) by { FlushIsSame(u, c); }
  }

  lemma FlushIsSame(u: Uart, c: bv8)
    ensures Same(u, Flushed(u, c)) && Flushed(u, c).iir == u.iir
  {
    hide Has;
  }

  lemma WriteFcrHolds(u: Uart, b: bv8, s: Settings)
    requires Holds(u, s)
    ensures Holds(WriteFcr(u, b), s.(fcr := b & 0xC9))
  {
    if u.fcr == b {
      SameControl(b);
    } else {
      FlushingIs(u, b);
      var v := FcrWritten(u, Flushing(u, b));
      FcrWrittenHolds(u, Flushing(u, b), b, s);
      SameTwice(v, v, v);
      UpdateIsSame(v, v);
      SameHolds(v, UpdateIrq(v), s.(fcr := b & 0xC9));
    }
    hide UpdateIrq, Flushing, FcrWritten, Same;
  }

  lemma FlushingIs(u: Uart, b: bv8)
    ensures Flushing(u, b) == b || Flushing(u, b) == With(b, FCR_XFR | FCR_RFR)
  {
    hide With, Has;
  }

  lemma LcrHolds(u: Uart, b: bv8, s: Settings)
    requires Holds(u, s)
    ensures Holds(WriteLcr(u, b), s.(lcr := b))
  {
    assert Has(b, 0x40) <==> b & 0x40 != 0;
    hide Threshold, Has;
  }

  lemma McrHolds(u: Uart, b: bv8, s: Settings)
    requires Holds(u, s)
    ensures Holds(WriteMcr(u, b), s.(mcr := b & 0x1F))
  {
    McrBits(b);
    hide Threshold, Without;
  }

  lemma McrBits(b: bv8)
    ensures Without(b, 0xE0) == b & 0x1F
  {
  }

  lemma ScrHolds(u: Uart, b: bv8, s: Settings)
    requires Holds(u, s)
    ensures Holds(u.(scr := b), s.(scr := b))
  {
    hide Threshold;
  }

  lemma DivisorHolds(u: Uart, d: bv16, s: Settings)
    requires Holds(u, s)
    ensures Holds(u.(divider := d), s.(divisor := d))
  {
    hide Threshold;
  }

  lemma PortRegister(port: bv32)
    ensures port & 7 == 0 <==> Register(port) == 0
    ensures port & 7 == 1 <==> Register(port) == 1
    ensures port & 7 == 2 <==> Register(port) == 2
    ensures port & 7 == 3 <==> Register(port) == 3
    ensures port & 7 == 4 <==> Register(port) == 4
    ensures port & 7 == 5 <==> Register(port) == 5
    ensures port & 7 == 6 <==> Register(port) == 6
    ensures port & 7 == 7 <==> Register(port) == 7
  {
  }

  lemma WriteHolds(u: Uart, port: bv32, value: bv32, accepts: bool, s: Settings)
    requires Holds(u, s)
    ensures Holds(IOWrite(u, Register(port), value, accepts), Programmed(s, port, value))
  {
    hide Holds, Register, Transmit, Hold, WriteIer, WriteFcr, WriteLcr, WriteMcr, WithLowByte, WithHighByte;
    PortRegister(port);
    assert u.lcr == s.lcr && u.divider == s.divisor by { HoldsLatch(u, s); }
    var b := LowByte(value);
    WriteThrHolds(u, b, accepts, s);
    WriteIerHolds(u, b, s);
    WriteFcrHolds(u, b, s);
    LcrHolds(u, b, s);
    McrHolds(u, b, s);
    ScrHolds(u, b, s);
    DivisorHolds(u, WithLowByte(u.divider, value), s);
    DivisorHolds(u, WithHighByte(u.divider, value), s);
    DivisorBytes(u.divider, value);
  }

  lemma HoldsLatch(u: Uart, s: Settings)
    requires Holds(u, s)
    ensures u.lcr == s.lcr && u.divider == s.divisor
  {
    hide Threshold;
  }

  lemma DivisorBytes(d: bv16, value: bv32)
    ensures WithLowByte(d, value) == (d & 0xFF00) | (value & 0xFFFF) as bv16
    ensures WithHighByte(d, value) == (d & 0x00FF) | ((value << 8) & 0xFFFF) as bv16
  {
  }

  /** One operation, whatever the driver answers: a write programs its register, and nothing else changes a setting. */
  lemma StepHolds(u: Uart, op: Op, s: Settings)
    requires Holds(u, s) && Allowed(u, op)
    ensures Holds(Step(u, op), if op.Write? then Programmed(s, op.port, op.value) else s)
  {
    hide Holds, Programmed, IORead, IOWrite, Register, Same, Receive, ReceiveBreak, FifoTimeoutInterrupt, UpdateMsl,
      Has;
    if op.Write? {
      WriteHolds(u, op.port, op.value, op.accepts, s);
    } else {
      if op.Read? {
        ReadIsSame(u, Register(op.port));
      } else {
        EventIsSame(u, op);
      }
      SameHolds(u, Step(u, op), s);
    }
  }

  lemma {:induction false} RunHolds(u: Uart, ops: seq<Op>, s: Settings)
    requires Holds(u, s) && RunAllowed(u, ops)
    ensures Holds(Run(u, ops), ProgrammedBy(s, ops))
    decreases |ops|
  {
    hide Holds, Programmed, Step, Allowed;
    if ops != [] {
      StepHolds(u, ops[0], s);
      RunHolds(Step(u, ops[0]), ops[1..], if ops[0].Write? then Programmed(s, ops[0].port, ops[0].value) else s);
    }
  }

  lemma PowerOnHolds()
    ensures Holds(PowerOn(), DEFAULTS)
  {
  }

  // ----- What reads give -----

  /** In loopback the modem outputs DTR, RTS, OUT1 and OUT2 come back as DSR, CTS, RI and DCD. */
  predicate LoopedBack(mcr: bv8, value: bv8) {
    && (value & 0x80 != 0 <==> mcr & 0x08 != 0)
    && (value & 0x40 != 0 <==> mcr & 0x04 != 0)
    && (value & 0x20 != 0 <==> mcr & 0x01 != 0)
    && (value & 0x10 != 0 <==> mcr & 0x02 != 0)
    && value & 0x0F == 0
  }

  lemma LoopBits(mcr: bv8)
    ensures LoopedBack(mcr, ((mcr & 0x0C) << 4) | ((mcr & 0x02) << 3) | ((mcr & 0x01) << 5))
  {
  }

  lemma LowThenHigh(d: bv16, low: bv32, high: bv32)
    requires low & 0xFFFF_FF00 == 0 && high & 0xFFFF_FF00 == 0
    ensures var e := WithHighByte(WithLowByte(d, low), high); (e & 0xFF) as bv32 == low && (e >> 8) as bv32 == high
  {
  }

  lemma HighThenLow(d: bv16, low: bv32, high: bv32)
    requires low & 0xFFFF_FF00 == 0 && high & 0xFFFF_FF00 == 0
    ensures var e := WithLowByte(WithHighByte(d, high), low); (e & 0xFF) as bv32 == low && (e >> 8) as bv32 == high
  {
  }

  lemma LatchWritten(s: Settings, value: bv32)
    requires s.lcr & 0x80 != 0
    ensures Programmed(s, 0, value) == s.(divisor := WithLowByte(s.divisor, value))
    ensures Programmed(s, 1, value) == s.(divisor := WithHighByte(s.divisor, value))
  {
    hide WithLowByte, WithHighByte;
    DivisorBytes(s.divisor, value);
    FirstPorts();
  }

  lemma FirstPorts()
    ensures (0 as bv32) & 7 == 0 && (1 as bv32) & 7 == 1
  {
  }

  /** The divisor latch takes its two bytes in either order. */
  lemma DivisorIsBothBytes(s: Settings, low: bv32, high: bv32)
    requires s.lcr & 0x80 != 0 && low & 0xFFFF_FF00 == 0 && high & 0xFFFF_FF00 == 0
    ensures var d := Programmed(Programmed(s, 0, low), 1, high).divisor;
      (d & 0xFF) as bv32 == low && (d >> 8) as bv32 == high
    ensures var d := Programmed(Programmed(s, 1, high), 0, low).divisor;
      (d & 0xFF) as bv32 == low && (d >> 8) as bv32 == high
  {
    hide Programmed, WithLowByte, WithHighByte;
    LatchWritten(s, low);
    LatchWritten(s, high);
    LatchWritten(Programmed(s, 0, low), high);
    LatchWritten(Programmed(s, 1, high), low);
    LowThenHigh(s.divisor, low, high);
    HighThenLow(s.divisor, low, high);
  }

  /** The value that a read of a port gives, as far as it follows from the settings. */
  predicate Reads(s: Settings, port: bv32, value: bv8) {
    match port & 7
    case 0 => s.lcr & 0x80 != 0 ==> value == (s.divisor & 0xFF) as bv8
    case 1 => value == if s.lcr & 0x80 != 0 then (s.divisor >> 8) as bv8 else s.ier
    case 2 => value & 0xF0 == if s.fcr & 0x01 != 0 then 0xC0 else 0x00
    case 3 => value == s.lcr
    case 4 => value == s.mcr
    case 6 => if s.mcr & 0x10 != 0 then LoopedBack(s.mcr, value) else value == 0xB0
    case 7 => value == s.scr
    case _ => true
  }

  lemma HighByte(d: bv16)
    ensures ((d >> 8) & 0xFF) as bv8 == (d >> 8) as bv8
  {
    assert (d >> 8) & 0xFF == d >> 8;
  }

  lemma HoldsReads(u: Uart, s: Settings, port: bv32)
    requires Holds(u, s)
    ensures Reads(s, port, ReadValue(u, Register(port)))
  {
    PortRegister(port);
    HighByte(s.divisor);
    LoopBits(s.mcr);
    hide Register, LoopedBack, Threshold;
  }

  /**
  In every run from power-on, whatever the driver takes and delivers, a port reads
  back what was last written to it under its mask.
  */
  lemma ReadsBack(ops: seq<Op>, port: bv32)
    requires RunAllowed(PowerOn(), ops)
    ensures Reads(ProgrammedBy(DEFAULTS, ops), port, ReadValue(Run(PowerOn(), ops), Register(port)))
  {
    hide *;
    PowerOnHolds();
    RunHolds(PowerOn(), ops, DEFAULTS);
    HoldsReads(Run(PowerOn(), ops), ProgrammedBy(DEFAULTS, ops), port);
  }

  /** In every such run the driver was last told to hold the line in a break exactly if that bit of port 3 is set. */
  lemma BreakFollowsLineControl(ops: seq<Op>)
    requires RunAllowed(PowerOn(), ops)
    ensures Run(PowerOn(), ops).lastBreakEnable <==> ProgrammedBy(DEFAULTS, ops).lcr & 0x40 != 0
  {
    hide *;
    PowerOnHolds();
    RunHolds(PowerOn(), ops, DEFAULTS);
    HoldsBreak(Run(PowerOn(), ops), ProgrammedBy(DEFAULTS, ops));
  }

  lemma HoldsBreak(u: Uart, s: Settings)
    requires Holds(u, s)
    ensures u.lastBreakEnable <==> s.lcr & 0x40 != 0
  {
    hide Threshold;
  }
}
