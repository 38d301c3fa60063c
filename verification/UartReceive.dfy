/** What the guest reads from the receive FIFO, against what the driver delivered. */
module UartReceive {
  import opened Uart
  import opened UartTransmit

  predicate Overrun(u: Uart) {
    Has(u.lsr, LSR_OE)
  }

  /** A 16-byte FIFO keeps the front of what is put into it, and reports an overrun exactly if something was dropped. */
  lemma {:induction false} PutAllKeepsFront(u: Uart, buf: seq<bv8>)
    requires |u.recv| <= FIFO_LENGTH
    ensures var v := RecvFifoPutAll(u, buf);
      && v.recv == (u.recv + buf)[..if |u.recv| + |buf| <= FIFO_LENGTH then |u.recv| + |buf| else FIFO_LENGTH]
      && (Overrun(v) <==> Overrun(u) || |u.recv| + |buf| > FIFO_LENGTH)
    decreases |buf|
  {
    hide Has;
    if buf != [] {
      var before := buf[..|buf| - 1];
      PutAllKeepsFront(u, before);
      SetsOverrun(RecvFifoPutAll(u, before).lsr);
      assert before + [buf[|buf| - 1]] == buf;
      assert u.recv + buf == (u.recv + before) + [buf[|buf| - 1]];
    }
  }

  lemma SetsOverrun(lsr: bv8)
    ensures Has(With(lsr, LSR_OE), LSR_OE)
  {
  }

  lemma OverrunKept(lsr: bv8, fifo: bool, empty: bool)
    ensures Has(With(lsr, LSR_DR), LSR_OE) == Has(lsr, LSR_OE)
    ensures Has(With(lsr, LSR_TEMT), LSR_OE) == Has(lsr, LSR_OE)
    ensures Has(Without(lsr, LSR_DR | LSR_BI), LSR_OE) == Has(lsr, LSR_OE)
    ensures Has(Without(lsr, LSR_TEMT | LSR_THRE), LSR_OE) == Has(lsr, LSR_OE)
    ensures Has(Without(lsr, LSR_THRE), LSR_OE) == Has(lsr, LSR_OE)
    ensures Has(LoadedLsr(lsr, fifo, empty), LSR_OE) == Has(lsr, LSR_OE)
    ensures !Has(Without(lsr, LSR_BI | LSR_OE), LSR_OE)
  {
  }

  lemma DataKept(lsr: bv8, fifo: bool, empty: bool)
    ensures Has(With(lsr, LSR_TEMT), LSR_DR) == Has(lsr, LSR_DR)
    ensures Has(Without(lsr, LSR_TEMT | LSR_THRE), LSR_DR) == Has(lsr, LSR_DR)
    ensures Has(Without(lsr, LSR_THRE), LSR_DR) == Has(lsr, LSR_DR)
    ensures Has(LoadedLsr(lsr, fifo, empty), LSR_DR) == Has(lsr, LSR_DR)
    ensures Has(Without(lsr, LSR_BI | LSR_OE), LSR_DR) == Has(lsr, LSR_DR)
  {
  }

  /** FIFO mode, outside loopback. */
  predicate Receiving(u: Uart) {
    Has(u.fcr, FCR_FE) && !Has(u.mcr, MCR_LOOP) && |u.recv| <= FIFO_LENGTH && u.itl <= 14
  }

  predicate KeepsLine(u: Uart, v: Uart) {
    v.fcr == u.fcr && v.mcr == u.mcr && v.itl == u.itl && (Overrun(v) ==> Overrun(u))
  }

  predicate KeepsInput(u: Uart, v: Uart) {
    KeepsLine(u, v) && v.recv == u.recv && Has(v.lsr, LSR_DR) == Has(u.lsr, LSR_DR)
  }

  /** An operation that neither flushes, nor leaves FIFO mode, nor enters loopback, nor delivers more than allowed. */
  predicate Gentle(u: Uart, op: Op) {
    match op
    case Arrive(buf) => |buf| <= CanReceive(u)
    case Break => false
    case Write(port, value, _) =>
      && (Register(port) == 2 ==>
            LowByte(value) == u.fcr || (Has(LowByte(value), FCR_FE) && !Has(LowByte(value), FCR_RFR)))
      && (Register(port) == 4 ==> !Has(LowByte(value), MCR_LOOP))
    case _ => true
  }

  /** What the guest gets when it reads the receive buffer while the FIFO holds something. */
  function ReadOut(u: Uart, op: Op): seq<bv8> {
    if op.Read? && Register(op.port) == 0 && !Has(u.lcr, LCR_DLAB) && u.recv != [] then [ReadValue(u, 0)] else []
  }

  function Arrived(op: Op): seq<bv8> {
    if op.Arrive? then op.buf else []
  }

  lemma ArriveAppends(u: Uart, buf: seq<bv8>)
    requires Receiving(u) && |buf| <= CanReceive(u)
    ensures var v := Receive(u, buf); KeepsLine(u, v) && v.recv == u.recv + buf
  {
    hide Has, With, Without, UpdateIrq, RecvFifoPutAll;
    PutAllKeepsFront(u, buf);
    PutAllKeepsThre(u, buf);
    OverrunKept(RecvFifoPutAll(u, buf).lsr, true, true);
    UpdateKeepsRest(Queued(u, buf));
  }

  lemma UpdateKeepsInput(u: Uart, v: Uart)
    requires KeepsInput(u, v)
    ensures KeepsInput(u, UpdateIrq(v))
  {
    hide Has, Pending, Identified;
  }

  lemma ReadRbrPops(u: Uart)
    requires Receiving(u)
    ensures var v := ReadRbr(u); KeepsLine(u, v) && v.recv == if u.recv == [] then [] else u.recv[1..]
  {
    hide Has, Without, Pending, Identified;
    OverrunKept(u.lsr, true, true);
  }

  lemma ReadLsrKeepsInput(u: Uart)
    ensures KeepsInput(u, ReadLsr(u))
  {
    hide Has, Without, UpdateIrq;
    OverrunKept(u.lsr, true, true);
    DataKept(u.lsr, true, true);
    UpdateKeepsInput(u, u.(lsr := Without(u.lsr, LSR_BI | LSR_OE)));
  }

  lemma ReadIirKeepsInput(u: Uart)
    ensures KeepsInput(u, ReadIir(u))
  {
    hide Has, UpdateIrq;
    UpdateKeepsInput(u, u.(thrPending := false));
  }

  lemma ReadMsrKeepsInput(u: Uart)
    ensures KeepsInput(u, ReadMsr(u))
  {
    hide Has, Without, UpdateIrq, UpdateMsl, KeepsInput;
    SameKeepsInput(u);
    PollKeepsInput(u);
    DeltasKeepInput(u, Without(u.msr, MSR_ANY_DELTA));
    DeltasKeepInput(UpdateMsl(u), Without(UpdateMsl(u).msr, MSR_ANY_DELTA));
    KeepsInputTwice(u, UpdateMsl(u), UpdateIrq(UpdateMsl(u).(msr := Without(UpdateMsl(u).msr, MSR_ANY_DELTA))));
  }

  lemma SameKeepsInput(u: Uart)
    ensures KeepsInput(u, u)
  {
  }

  lemma KeepsInputTwice(u: Uart, v: Uart, w: Uart)
    ensures KeepsInput(u, v) && KeepsInput(v, w) ==> KeepsInput(u, w)
  {
    hide Has;
  }

  lemma PollKeepsInput(u: Uart)
    ensures KeepsInput(u, UpdateMsl(u))
  {
    hide Has;
  }

  lemma DeltasKeepInput(u: Uart, msr: bv8)
    ensures KeepsInput(u, UpdateIrq(u.(msr := msr)))
  {
    hide Has, Pending, Identified;
  }

  lemma ReadKeepsInput(u: Uart, i: Index)
    requires i != 0 || Has(u.lcr, LCR_DLAB)
    ensures KeepsInput(u, IORead(u, i))
  {
    hide Has, KeepsInput, ReadRbr, ReadIir, ReadLsr, ReadMsr;
    ReadIirKeepsInput(u);
    ReadLsrKeepsInput(u);
    ReadMsrKeepsInput(u);
    SameKeepsInput(u);
  }

  lemma HoldKeepsInput(u: Uart, b: bv8)
    ensures KeepsInput(u, Hold(u, b))
  {
    hide Has, Without, Pending, Identified;
    OverrunKept(u.lsr, true, true);
    DataKept(u.lsr, true, true);
  }

  lemma LoadedKeepsInput(u: Uart)
    ensures KeepsInput(u, Loaded(u))
  {
    hide Has, LoadTsr;
    LoadTsrKeepsInput(u);
  }

  lemma LoadTsrKeepsInput(u: Uart)
    ensures KeepsInput(u, LoadTsr(u))
  {
    var fifo := Has(u.fcr, FCR_FE);
    var v := LoadTsr(u);
    assert v.lsr == LoadedLsr(u.lsr, fifo, v.xmit == []);
    OverrunKept(u.lsr, fifo, v.xmit == []);
    DataKept(u.lsr, fifo, v.xmit == []);
    hide Has, LoadedLsr;
  }

  lemma FinishKeepsInput(u: Uart, n: int)
    ensures KeepsInput(u, FinishTransmit(u.(tsrRetry := n)))
    ensures KeepsInput(u, u.(tsrRetry := n))
  {
    hide Has, With, UpdateIrq;
    OverrunKept(u.lsr, true, true);
    DataKept(u.lsr, true, true);
    UpdateKeepsInput(u, u.(tsrRetry := n, lsr := With(u.lsr, LSR_TEMT), thrPending := true));
  }

  lemma DeliveredKeepsInput(v: Uart, accepts: bool)
    requires !Has(v.mcr, MCR_LOOP)
    ensures KeepsInput(v, Delivered(v, accepts))
  {
    hide Has, KeepsInput, FinishTransmit;
    FinishKeepsInput(v, 0);
    FinishKeepsInput(v, v.tsrRetry + 1);
  }

  lemma TransmitKeepsInput(u: Uart, accepts: bool)
    requires !Has(u.mcr, MCR_LOOP)
    ensures KeepsInput(u, Transmit(u, accepts))
  {
    hide Has, Overrun, Loaded, Delivered, NothingToSend;
    LoadedKeepsInput(u);
    DeliveredKeepsInput(Loaded(u), accepts);
    SameKeepsInput(u);
  }

  lemma WriteThrKeepsInput(u: Uart, b: bv8, accepts: bool)
    requires !Has(u.mcr, MCR_LOOP)
    ensures KeepsInput(u, Transmit(Hold(u, b), accepts))
  {
    hide Has, Overrun, Hold, Transmit;
    HoldKeepsInput(u, b);
    TransmitKeepsInput(Hold(u, b), accepts);
  }

  lemma WriteIerKeepsInput(u: Uart, b: bv8)
    ensures KeepsInput(u, WriteIer(u, b))
  {
    EnablesKeepInput(u, b);
    UpdateKeepsInput(u, EnablesSet(u, b).(thrPending := true));
    hide Has, UpdateIrq, EnablesSet, KeepsInput;
  }

  lemma EnablesKeepInput(u: Uart, b: bv8)
    ensures KeepsInput(u, EnablesSet(u, b)) && KeepsInput(u, EnablesSet(u, b).(thrPending := true))
  {
    hide Has, Without;
  }

  /** What a write to the FIFO control register that does not flush leaves in it. */
  lemma GentleFcr(u: Uart, b: bv8)
    requires Has(u.fcr, FCR_FE) && Has(b, FCR_FE) && !Has(b, FCR_RFR)
    ensures Flushing(u, b) == b && Has(Without(b, 0x36), FCR_FE)
  {
    var f := u.fcr;
    assert f & 1 != 0 && b & 1 != 0 ==> (b ^ f) & 1 == 0;
    assert b & 1 != 0 ==> (b & (0x36 ^ 0xFF)) & 1 != 0;
  }

  lemma WriteFcrKeepsReceiving(u: Uart, b: bv8)
    requires Receiving(u) && (b == u.fcr || (Has(b, FCR_FE) && !Has(b, FCR_RFR)))
    ensures var v := WriteFcr(u, b); Receiving(v) && v.recv == u.recv && (Overrun(v) ==> Overrun(u))
  {
    hide Has, Without, With, Pending, Identified, Flushing;
    if b != u.fcr {
      GentleFcr(u, b);
    }
  }

  lemma McrKeepsReceiving(u: Uart, b: bv8)
    requires Receiving(u) && !Has(b, MCR_LOOP)
    ensures var v := WriteMcr(u, b); Receiving(v) && v.recv == u.recv && (Overrun(v) ==> Overrun(u))
  {
    assert !Has(b, MCR_LOOP) ==> !Has(Without(b, 0xE0), MCR_LOOP);
  }

  lemma PlainRegistersKeepInput(u: Uart, b: bv8, d: bv16)
    ensures KeepsInput(u, WriteLcr(u, b)) && KeepsInput(u, u.(scr := b)) && KeepsInput(u, u.(divider := d))
  {
    hide Has;
  }

  lemma KeepsReceiving(u: Uart, v: Uart)
    requires Receiving(u) && KeepsInput(u, v)
    ensures Receiving(v) && v.recv == u.recv && (Overrun(v) ==> Overrun(u))
  {
    hide Has;
  }

  lemma WriteKeepsReceiving(u: Uart, i: Index, value: bv32, accepts: bool)
    requires Receiving(u)
    requires i == 2 ==> LowByte(value) == u.fcr || (Has(LowByte(value), FCR_FE) && !Has(LowByte(value), FCR_RFR))
    requires i == 4 ==> !Has(LowByte(value), MCR_LOOP)
    ensures var v := IOWrite(u, i, value, accepts); Receiving(v) && v.recv == u.recv && (Overrun(v) ==> Overrun(u))
  {
    var b := LowByte(value);
    if i == 2 {
      WriteFcrKeepsReceiving(u, b);
    } else if i == 4 {
      McrKeepsReceiving(u, b);
    } else {
      OtherWritesKeepInput(u, i, value, accepts);
      KeepsReceiving(u, IOWrite(u, i, value, accepts));
    }
  }

  lemma OtherWritesKeepInput(u: Uart, i: Index, value: bv32, accepts: bool)
    requires i != 2 && i != 4 && !Has(u.mcr, MCR_LOOP)
    ensures KeepsInput(u, IOWrite(u, i, value, accepts))
  {
    hide KeepsInput, Has, LowByte, Hold, Transmit, WriteIer, WriteFcr, WriteLcr, WriteMcr, WithLowByte, WithHighByte;
    var b := LowByte(value);
    WriteThrKeepsInput(u, b, accepts);
    WriteIerKeepsInput(u, b);
    PlainRegistersKeepInput(u, b, WithLowByte(u.divider, value));
    PlainRegistersKeepInput(u, b, WithHighByte(u.divider, value));
    SameKeepsInput(u);
  }

  lemma TimeoutKeepsInput(u: Uart)
    ensures KeepsInput(u, FifoTimeoutInterrupt(u))
  {
    hide Has, UpdateIrq;
    UpdateKeepsInput(u, u.(timeoutPending := true));
  }

  lemma ReadGives(u: Uart, i: Index)
    requires Receiving(u)
    ensures var v := IORead(u, i);
      && Receiving(v) && (Overrun(v) ==> Overrun(u))
      && v.recv == if i == 0 && !Has(u.lcr, LCR_DLAB) && u.recv != [] then u.recv[1..] else u.recv
  {
    hide Has, Overrun, ReadRbr;
    if i == 0 && !Has(u.lcr, LCR_DLAB) {
      ReadRbrPops(u);
    } else {
      ReadKeepsInput(u, i);
    }
  }

  lemma StepKeepsOrder(u: Uart, op: Op)
    requires Receiving(u) && Allowed(u, op) && Gentle(u, op)
    ensures var v := Step(u, op);
      && Receiving(v) && (Overrun(v) ==> Overrun(u))
      && ReadOut(u, op) + v.recv == u.recv + Arrived(op)
  {
    hide Has, Overrun, IORead, IOWrite, Receive, ReceiveBreak, FifoTimeoutInterrupt, UpdateMsl, Register,
      LowByte, CanReceive;
    if op.Read? {
      ReadGives(u, Register(op.port));
    } else if op.Write? {
      WriteKeepsReceiving(u, Register(op.port), op.value, op.accepts);
    } else if op.Arrive? {
      CanReceiveFits(u);
      ArriveAppends(u, op.buf);
    } else {
      TimeoutKeepsInput(u);
      PollKeepsInput(u);
    }
  }

  lemma CanReceiveFits(u: Uart)
    requires Receiving(u)
    ensures |u.recv| + CanReceive(u) <= FIFO_LENGTH
  {
    hide Has;
  }

  predicate RunGentle(u: Uart, ops: seq<Op>)
    requires RunAllowed(u, ops)
    decreases |ops|
  {
    ops != [] ==> Gentle(u, ops[0]) && RunGentle(Step(u, ops[0]), ops[1..])
  }

  function ReadOutOf(u: Uart, ops: seq<Op>): seq<bv8>
    requires RunAllowed(u, ops)
    decreases |ops|
  {
    if ops == [] then [] else ReadOut(u, ops[0]) + ReadOutOf(Step(u, ops[0]), ops[1..])
  }

  function ArrivedIn(ops: seq<Op>): seq<bv8> {
    if ops == [] then [] else Arrived(ops[0]) + ArrivedIn(ops[1..])
  }

  /**
  Nothing is lost, reordered or invented: the bytes the guest has read, followed by
  the FIFO, are the bytes the FIFO started with followed by those delivered.
  */
  lemma {:induction false} RunLosesNothing(u: Uart, ops: seq<Op>)
    requires Receiving(u) && RunAllowed(u, ops) && RunGentle(u, ops)
    ensures ReadOutOf(u, ops) + Run(u, ops).recv == u.recv + ArrivedIn(ops)
    ensures Overrun(Run(u, ops)) ==> Overrun(u)
    ensures Receiving(Run(u, ops))
    decreases |ops|
  {
    hide Receiving, Overrun, Step, Allowed, Gentle, ReadOut, Arrived;
    if ops != [] {
      var v := Step(u, ops[0]);
      StepKeepsOrder(u, ops[0]);
      RunLosesNothing(v, ops[1..]);
      Chain(ReadOut(u, ops[0]), ReadOutOf(v, ops[1..]), Run(v, ops[1..]).recv, v.recv, u.recv,
            Arrived(ops[0]), ArrivedIn(ops[1..]));
    }
  }

  lemma Chain(a: seq<bv8>, b: seq<bv8>, c: seq<bv8>, m: seq<bv8>, d: seq<bv8>, e: seq<bv8>, f: seq<bv8>)
    requires b + c == m + f && a + m == d + e
    ensures (a + b) + c == d + (e + f)
  {
    assert (a + b) + c == a + (b + c);
    assert a + (m + f) == (a + m) + f;
    assert (d + e) + f == d + (e + f);
  }
}
