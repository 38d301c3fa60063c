/**
The interrupt identification of the UART against the priority table of section 8.5
of the PC16550D datasheet, over whole runs.
*/
module UartInterrupts {
  import opened Uart
  import opened UartDriver

  datatype Source = LineStatus | CharacterTimeout | DataAvailable | HolderEmpty | ModemStatus

  predicate Asserted(u: Uart, s: Source) {
    match s
    case LineStatus => u.ier & 0x04 != 0 && u.lsr & 0x1E != 0
    case CharacterTimeout => u.ier & 0x01 != 0 && u.timeoutPending
    case DataAvailable => u.ier & 0x01 != 0 && u.lsr & 0x01 != 0 && (u.fcr & 0x01 != 0 ==> u.itl <= |u.recv|)
    case HolderEmpty => u.ier & 0x02 != 0 && u.thrPending
    case ModemStatus => u.ier & 0x08 != 0 && u.msr & 0x0F != 0
  }

  /** The sources in order of priority; of the two of the second level the code prefers the timeout. */
  function Rank(s: Source): nat {
    match s
    case LineStatus => 0
    case CharacterTimeout => 1
    case DataAvailable => 2
    case HolderEmpty => 3
    case ModemStatus => 4
  }

  function Code(s: Source): bv8 {
    match s
    case LineStatus => 0x06
    case CharacterTimeout => 0x0C
    case DataAvailable => 0x04
    case HolderEmpty => 0x02
    case ModemStatus => 0x00
  }

  predicate Foremost(u: Uart, s: Source) {
    Asserted(u, s) && forall t: Source :: Asserted(u, t) ==> Rank(s) <= Rank(t)
  }

  predicate AnyAsserted(u: Uart) {
    exists s: Source :: Asserted(u, s)
  }

  /** The identification names the foremost source, or says that there is none. */
  predicate Identifies(u: Uart) {
    && (forall s: Source :: Foremost(u, s) ==> u.iir & 0x0F == Code(s))
    && (u.iir & 0x0F == 0x01 <==> !AnyAsserted(u))
  }

  /** The line is high exactly while a source is asserted. */
  predicate LineAgrees(u: Uart) {
    u.line != Untold ==> (u.line == High <==> AnyAsserted(u))
  }

  predicate Agrees(u: Uart) {
    Identifies(u) && LineAgrees(u)
  }

  /** The if-chain of UpdateIRQ picks the foremost source. */
  lemma PendingIsForemost(u: Uart)
    ensures Pending(u) == IIR_NO_INT <==> !AnyAsserted(u)
    ensures forall s: Source :: Foremost(u, s) ==> Pending(u) == Code(s)
    ensures AnyAsserted(u) ==> exists s: Source :: Foremost(u, s)
    ensures Pending(u) & 0x0F == Pending(u)
  {
    if Asserted(u, LineStatus) {
      assert Foremost(u, LineStatus);
    } else if Asserted(u, CharacterTimeout) {
      assert Foremost(u, CharacterTimeout);
    } else if Asserted(u, DataAvailable) {
      assert Foremost(u, DataAvailable);
    } else if Asserted(u, HolderEmpty) {
      assert Foremost(u, HolderEmpty);
    } else if Asserted(u, ModemStatus) {
      assert Foremost(u, ModemStatus);
    } else {
      assert forall s: Source :: !Asserted(u, s);
    }
  }

  /** The same agreement said of the code's own choice; the lemmas below work with this form. */
  predicate Current(u: Uart) {
    u.iir & 0x0F == Pending(u) && (u.line == Untold || u.line == if Pending(u) != IIR_NO_INT then High else Low)
  }

  lemma AgreesIffCurrent(u: Uart)
    ensures Agrees(u) <==> Current(u)
  {
    PendingIsForemost(u);
    if AnyAsserted(u) {
      var s: Source :| Foremost(u, s);
      assert Pending(u) == Code(s);
    }
  }

  lemma UpdateMakesCurrent(u: Uart)
    ensures Current(UpdateIrq(u)) && UpdateIrq(u).line != Untold
  {
    var code := Pending(u);
    var v := UpdateIrq(u);
    assert Pending(v) == code;
    NibbleKept(code, u.iir);
    PendingIsForemost(u);
  }

  lemma NibbleKept(code: bv8, iir: bv8)
    ensures Identified(iir, code) & 0x0F == code & 0x0F
  {
  }

  /** Nothing that Pending, the identification and the line depend on has changed. */
  predicate SameCauses(u: Uart, v: Uart) {
    && u.ier == v.ier && u.lsr & 0x1F == v.lsr & 0x1F && u.msr == v.msr && u.fcr == v.fcr
    && u.timeoutPending == v.timeoutPending && u.thrPending == v.thrPending
    && u.recv == v.recv && u.itl == v.itl && u.iir == v.iir && u.line == v.line
  }

  lemma SameCausesSamePending(u: Uart, v: Uart)
    requires SameCauses(u, v)
    ensures Pending(u) == Pending(v)
    ensures Current(u) <==> Current(v)
  {
    MaskedBits(u.lsr, v.lsr);
  }

  lemma MaskedBits(a: bv8, b: bv8)
    requires a & 0x1F == b & 0x1F
    ensures Has(a, LSR_INT_ANY) == Has(b, LSR_INT_ANY)
    ensures Has(a, LSR_DR) == Has(b, LSR_DR)
  {
    assert a & 0x1E == (a & 0x1F) & 0x1E;
    assert b & 0x1E == (b & 0x1F) & 0x1E;
    assert a & 0x01 == (a & 0x1F) & 0x01;
    assert b & 0x01 == (b & 0x1F) & 0x01;
  }

  lemma LoadedLsrBits(lsr: bv8, fifo: bool, empty: bool)
    ensures LoadedLsr(lsr, fifo, empty) & 0x1F == lsr & 0x1F
  {
  }

  lemma LoadSameCauses(u: Uart)
    ensures SameCauses(u, LoadTsr(u))
  {
    hide With, Has, Without, LoadedLsr;
    var fifo := Has(u.fcr, FCR_FE);
    var v := LoadTsr(u);
    var lsr := v.lsr;
    assert lsr == LoadedLsr(u.lsr, fifo, v.xmit == []);
    LoadedLsrBits(u.lsr, fifo, v.xmit == []);
    assert u.lsr & 0x1F == v.lsr & 0x1F;
  }

  lemma LoadKeepsCurrent(u: Uart)
    requires Current(u)
    ensures Current(Loaded(u))
  {
    hide LoadTsr, SameCauses, Current;
    LoadSameCauses(u);
    SameCausesSamePending(u, LoadTsr(u));
  }

  lemma FinishMakesCurrent(u: Uart)
    requires Current(u)
    ensures Current(FinishTransmit(u))
  {
    hide Current, UpdateIrq, With, Has, Pending;
    UpdateMakesCurrent(u.(lsr := With(u.lsr, LSR_TEMT), thrPending := true));
  }

  lemma ReceiveMakesCurrent(u: Uart, buf: seq<bv8>)
    requires Has(u.fcr, FCR_FE) || buf != []
    ensures Current(Receive(u, buf))
  {
    hide Current, UpdateIrq, Queued, Latched, With, Has;
    UpdateMakesCurrent(Queued(u, buf));
    UpdateMakesCurrent(Latched(u, if buf != [] then buf[0] else 0));
  }

  lemma TransmitKeepsCurrent(u: Uart, accepts: bool)
    requires Current(u)
    ensures Current(Transmit(u, accepts))
  {
    hide UpdateIrq, Loaded, Receive, With, Has, FinishTransmit, Current;
    var v := Loaded(u);
    LoadKeepsCurrent(u);
    RetryKeepsCurrent(v, v.tsrRetry + 1);
    RetryKeepsCurrent(v, 0);
    FinishMakesCurrent(v.(tsrRetry := 0));
    ReceiveMakesCurrent(v, [v.tsr]);
    FinishMakesCurrent(Receive(v, [v.tsr]));
  }

  lemma RetryKeepsCurrent(u: Uart, n: int)
    requires Current(u)
    ensures Current(u.(tsrRetry := n))
  {
    hide Pending, With, Has;
    assert Pending(u) == Pending(u.(tsrRetry := n)) by { SameCausesSamePending(u, u.(tsrRetry := n)); }
  }

  lemma HoldMakesCurrent(u: Uart, b: bv8)
    ensures Current(Hold(u, b))
  {
    hide Current, UpdateIrq, Held;
    UpdateMakesCurrent(Held(u, b));
  }

  lemma ReadRbrMakesCurrent(u: Uart)
    ensures Current(ReadRbr(u))
  {
    hide Current, UpdateIrq, Drained;
    UpdateMakesCurrent(Drained(u));
  }

  lemma UpdateMslKeepsCurrent(u: Uart)
    requires Current(u)
    ensures Current(UpdateMsl(u))
  {
    hide Pending;
    SameCausesSamePending(u, UpdateMsl(u));
  }

  lemma ReadMsrKeepsCurrent(u: Uart)
    requires Current(u)
    ensures Current(ReadMsr(u))
  {
    hide Current, UpdateIrq, With, Has, Pending, UpdateMsl;
    UpdateMslKeepsCurrent(u);
    var v := if u.pollMsl >= 0 then UpdateMsl(u) else u;
    UpdateMakesCurrent(v.(msr := Without(v.msr, MSR_ANY_DELTA)));
  }

  lemma ReadKeepsCurrent(u: Uart, i: Index)
    requires Current(u)
    ensures Current(IORead(u, i))
  {
    hide Current, UpdateIrq, With, Has, Without, Pending, ReadRbr, ReadMsr;
    ReadRbrMakesCurrent(u);
    UpdateMakesCurrent(u.(thrPending := false));
    UpdateMakesCurrent(u.(lsr := Without(u.lsr, LSR_BI | LSR_OE)));
    ReadMsrKeepsCurrent(u);
  }

  lemma WriteFcrKeepsCurrent(u: Uart, b: bv8)
    requires Current(u)
    ensures Current(WriteFcr(u, b))
  {
    hide Current, UpdateIrq, FcrWritten, Flushing;
    UpdateMakesCurrent(FcrWritten(u, Flushing(u, b)));
  }

  /**
  An interrupt enable write that the code does not follow up: the transmit holding
  register is full, and the foremost source is another one under the new enables.
  */
  predicate Missed(u: Uart, b: bv8) {
    !Has(u.lsr, LSR_THRE) && Pending(u.(ier := Without(b, 0xF0))) != Pending(u)
  }

  lemma WriteIerIff(u: Uart, b: bv8)
    requires Current(u)
    ensures Current(WriteIer(u, b)) <==> !Missed(u, b)
  {
    hide With, Has, UpdateIrq, Current, Pending;
    var poll := if u.pollMsl < 0 then u.pollMsl else if Has(Without(b, 0xF0), IER_MSI) then -1 else 0;
    UpdateMakesCurrent(u.(ier := Without(b, 0xF0), pollMsl := poll, thrPending := true));
    EnablesIff(u, Without(b, 0xF0), poll);
  }

  lemma EnablesIff(u: Uart, ier: bv8, poll: int)
    requires Current(u)
    ensures Current(u.(ier := ier, pollMsl := poll)) <==> Pending(u.(ier := ier)) == Pending(u)
  {
    hide Current, Pending;
    SameCausesSamePending(u.(ier := ier, pollMsl := poll), u.(ier := ier));
    CurrentIffSamePending(u, u.(ier := ier, pollMsl := poll));
  }

  lemma CurrentIffSamePending(u: Uart, v: Uart)
    requires Current(u) && v.iir == u.iir && v.line == u.line
    ensures Current(v) <==> Pending(v) == Pending(u)
  {
    hide Pending;
  }

  lemma LcrKeepsCurrent(u: Uart, b: bv8)
    requires Current(u)
    ensures Current(WriteLcr(u, b))
  {
    hide Current, Pending, Has, Without;
    SameCausesSamePending(u, WriteLcr(u, b));
  }

  lemma McrKeepsCurrent(u: Uart, b: bv8)
    requires Current(u)
    ensures Current(WriteMcr(u, b))
  {
    hide Current, Pending, Has, Without;
    SameCausesSamePending(u, WriteMcr(u, b));
  }

  lemma ScrKeepsCurrent(u: Uart, b: bv8)
    requires Current(u)
    ensures Current(u.(scr := b))
  {
    hide Current, Pending, Has, Without;
    SameCausesSamePending(u, u.(scr := b));
  }

  lemma DividerKeepsCurrent(u: Uart, d: bv16)
    requires Current(u)
    ensures Current(u.(divider := d))
  {
    hide Current, Pending, Has, Without;
    SameCausesSamePending(u, u.(divider := d));
  }

  predicate MissedBy(u: Uart, op: Op) {
    op.Write? && Register(op.port) == 1 && !Has(u.lcr, LCR_DLAB) && Missed(u, LowByte(op.value))
  }

  lemma WriteAgreesIff(u: Uart, port: bv32, value: bv32, accepts: bool)
    requires Current(u)
    ensures Current(IOWrite(u, Register(port), value, accepts)) <==> !MissedBy(u, Write(port, value, accepts))
  {
    hide Current, Has, Missed, LowByte, Register, WriteFcr, WriteIer, WriteLcr, WriteMcr, Transmit, Hold, Pending,
      WithLowByte, WithHighByte;
    var b := LowByte(value);
    HoldMakesCurrent(u, b);
    TransmitKeepsCurrent(Hold(u, b), accepts);
    WriteIerIff(u, b);
    WriteFcrKeepsCurrent(u, b);
    LcrKeepsCurrent(u, b);
    McrKeepsCurrent(u, b);
    ScrKeepsCurrent(u, b);
    DividerKeepsCurrent(u, WithLowByte(u.divider, value));
    DividerKeepsCurrent(u, WithHighByte(u.divider, value));
  }

  lemma EventKeepsCurrent(u: Uart, op: Op)
    requires Current(u) && Allowed(u, op) && !op.Read? && !op.Write?
    ensures Current(Step(u, op))
  {
    hide Current, UpdateIrq, With, Has, Pending, Receive, Broken, UpdateMsl;
    if op.Arrive? {
      ReceiveMakesCurrent(u, op.buf);
    }
    UpdateMakesCurrent(Broken(u));
    UpdateMakesCurrent(u.(timeoutPending := true));
    UpdateMslKeepsCurrent(u);
  }

  /** An operation breaks the agreement in exactly one case, whatever the driver answers. */
  lemma StepAgreesIff(u: Uart, op: Op)
    requires Agrees(u) && Allowed(u, op)
    ensures Agrees(Step(u, op)) <==> !MissedBy(u, op)
  {
    hide Agrees, Current, Allowed, IORead, IOWrite, MissedBy, Register, Receive, ReceiveBreak,
      FifoTimeoutInterrupt, UpdateMsl;
    AgreesIffCurrent(u);
    AgreesIffCurrent(Step(u, op));
    assert !op.Write? ==> !MissedBy(u, op) by { OnlyWritesAreMissed(u, op); }
    if op.Read? {
      ReadKeepsCurrent(u, Register(op.port));
    } else if op.Write? {
      WriteAgreesIff(u, op.port, op.value, op.accepts);
    } else {
      EventKeepsCurrent(u, op);
    }
  }

  lemma OnlyWritesAreMissed(u: Uart, op: Op)
    ensures MissedBy(u, op) ==> op.Write?
  {
  }

  /** The registers after the constructor agree. */
  lemma PowerOnAgrees()
    ensures Agrees(PowerOn())
  {
    AgreesIffCurrent(PowerOn());
  }

  /** Reset forgets every source but does not lower a line that is high. */
  lemma ResetAgreesIff(u: Uart)
    ensures Identifies(Reset(u))
    ensures Agrees(Reset(u)) <==> u.line != High
  {
    var v := Reset(u);
    forall s: Source ensures !Asserted(v, s) {
    }
  }

  /** With a driver that takes every byte, the holding register is empty between operations, so no write is missed. */
  lemma {:induction false} RunAgrees(u: Uart, ops: seq<Op>)
    requires Agrees(u) && Sent(u) && RunAllowed(u, ops) && AllAccepted(ops)
    ensures Agrees(Run(u, ops)) && Sent(Run(u, ops))
    decreases |ops|
  {
    hide Agrees, Sent, Step, MissedBy, Allowed;
    if ops != [] {
      assert ops[0].Write? ==> ops[0].accepts;
      StepAgreesIff(u, ops[0]);
      SentIsNotMissed(u, ops[0]);
      StepKeepsSent(u, ops[0]);
      RunAgrees(Step(u, ops[0]), ops[1..]);
    }
  }

  lemma SentIsNotMissed(u: Uart, op: Op)
    requires Sent(u)
    ensures !MissedBy(u, op)
  {
    hide Pending, Register, LowByte;
  }

  /** A first refused byte is loaded; a second one stays in the holding register; then a byte arrives. */
  lemma RefusedRun()
    ensures var u := Step(PowerOn(), Write(0, 0x41, false));
      u == PowerOn().(thr := 0x41, tsr := 0x41, lsr := 0x20, line := Low, tsrRetry := 1)
  {
  }

  lemma RefusedAgain(u: Uart)
    requires u == PowerOn().(thr := 0x41, tsr := 0x41, lsr := 0x20, line := Low, tsrRetry := 1)
    ensures Step(u, Write(0, 0x42, false)) == u.(thr := 0x42, lsr := 0x00, tsrRetry := 2)
  {
  }

  lemma ThenInput(u: Uart)
    requires u == PowerOn().(thr := 0x42, tsr := 0x41, lsr := 0x00, line := Low, tsrRetry := 2)
    ensures Step(u, Arrive([0x55])) == u.(rbr := 0x55, lsr := 0x01)
  {
    var v := u.(rbr := 0x55, lsr := 0x01);
    assert Latched(u, 0x55) == v;
    NothingEnabled(v);
    hide Latched, UpdateIrq, Pending;
  }

  lemma NothingEnabled(u: Uart)
    requires u.ier == 0 && u.iir == 0x01
    ensures UpdateIrq(u) == u.(line := Low)
  {
    assert Pending(u) == IIR_NO_INT;
    hide Pending;
  }

  lemma EnableIsMissed(u: Uart)
    requires u == PowerOn().(rbr := 0x55, thr := 0x42, tsr := 0x41, lsr := 0x01, line := Low, tsrRetry := 2)
    ensures !Agrees(Step(u, Write(1, 0x01, true)))
  {
    var v := Step(u, Write(1, 0x01, true));
    assert Asserted(v, DataAvailable);
    assert v.iir == 0x01;
  }

  /** A driver that refuses two bytes leaves the holding register full, and the enabling of an interrupt is missed. */
  lemma TwoRefusalsMissAnEnable()
    ensures var ops := [Write(0, 0x41, false), Write(0, 0x42, false), Arrive([0x55]), Write(1, 0x01, true)];
      RunAllowed(PowerOn(), ops) && !Agrees(Run(PowerOn(), ops))
  {
    hide Agrees, Step;
    var a, b, c, d := Write(0, 0x41, false), Write(0, 0x42, false), Arrive([0x55]), Write(1, 0x01, true);
    var ops := [a, b, c, d];
    RefusedRun();
    var u := Step(PowerOn(), a);
    RefusedAgain(u);
    var v := Step(u, b);
    ThenInput(v);
    EnableIsMissed(Step(v, c));
    assert ops[1..] == [b, c, d] && [b, c, d][1..] == [c, d] && [c, d][1..] == [d] && [d][1..] == [];
  }
}
