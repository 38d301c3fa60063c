/** What the UART hands to its driver, and which bytes it loses on the way. */
module UartTransmit {
  import opened Uart

  // ----- What leaves the transmitter alone -----

  /** The transmitter's registers and its empty bit are the same. */
  predicate KeepsQueue(u: Uart, v: Uart) {
    && v.thr == u.thr && v.tsr == u.tsr && v.tsrRetry == u.tsrRetry && v.xmit == u.xmit
    && Has(v.lsr, LSR_THRE) == Has(u.lsr, LSR_THRE)
  }

  /** So are the FIFO control and modem control registers. */
  predicate Untouched(u: Uart, v: Uart) {
    KeepsQueue(u, v) && v.fcr == u.fcr && v.mcr == u.mcr
  }

  lemma ThreStays(lsr: bv8)
    ensures Has(Without(lsr, LSR_DR | LSR_BI), LSR_THRE) == Has(lsr, LSR_THRE)
    ensures Has(Without(lsr, LSR_BI | LSR_OE), LSR_THRE) == Has(lsr, LSR_THRE)
    ensures Has(With(lsr, LSR_DR), LSR_THRE) == Has(lsr, LSR_THRE)
    ensures Has(With(lsr, LSR_OE), LSR_THRE) == Has(lsr, LSR_THRE)
    ensures Has(With(lsr, LSR_TEMT), LSR_THRE) == Has(lsr, LSR_THRE)
    ensures Has(With(With(lsr, LSR_OE), LSR_DR), LSR_THRE) == Has(lsr, LSR_THRE)
    ensures Has(With(lsr, LSR_BI | LSR_DR), LSR_THRE) == Has(lsr, LSR_THRE)
  {
  }

  lemma {:induction false} PutAllKeepsThre(u: Uart, buf: seq<bv8>)
    ensures Has(RecvFifoPutAll(u, buf).lsr, LSR_THRE) == Has(u.lsr, LSR_THRE)
    ensures var v := RecvFifoPutAll(u, buf); v == u.(recv := v.recv, lsr := v.lsr)
    decreases |buf|
  {
    hide With, Identified, Has;
    if buf != [] {
      var v := RecvFifoPutAll(u, buf[..|buf| - 1]);
      PutAllKeepsThre(u, buf[..|buf| - 1]);
      ThreStays(v.lsr);
    }
  }

  lemma UpdateKeepsRest(u: Uart)
    ensures var v := UpdateIrq(u); v == u.(iir := v.iir, line := v.line)
  {
    hide Pending;
  }

  lemma UpdateUntouched(u: Uart, v: Uart)
    requires Untouched(u, v)
    ensures Untouched(u, UpdateIrq(v))
  {
    hide Has, Pending, Identified;
  }

  lemma UntouchedTwice(u: Uart, v: Uart, w: Uart)
    ensures Untouched(u, v) && Untouched(v, w) ==> Untouched(u, w)
    ensures Untouched(u, u)
  {
    hide Has;
  }

  lemma QueuedUntouched(u: Uart, buf: seq<bv8>)
    ensures Untouched(u, Queued(u, buf))
  {
    hide With, Identified, Has, RecvFifoPutAll;
    PutAllKeepsThre(u, buf);
    ThreStays(RecvFifoPutAll(u, buf).lsr);
  }

  lemma LatchedUntouched(u: Uart, b: bv8)
    ensures Untouched(u, Latched(u, b))
  {
    hide With, Identified, Has;
    ThreStays(u.lsr);
  }

  lemma ReceiveUntouched(u: Uart, buf: seq<bv8>)
    requires Has(u.fcr, FCR_FE) || buf != []
    ensures Untouched(u, Receive(u, buf))
  {
    hide With, Identified, Has, Queued, Latched, UpdateIrq, Untouched;
    QueuedUntouched(u, buf);
    UpdateUntouched(u, Queued(u, buf));
    var b := if buf == [] then 0 else buf[0];
    LatchedUntouched(u, b);
    UpdateUntouched(u, Latched(u, b));
  }

  lemma DrainedUntouched(u: Uart)
    ensures Untouched(u, Drained(u))
  {
    hide Has, Without;
    ThreStays(u.lsr);
  }

  lemma LsrUntouched(u: Uart, lsr: bv8)
    requires Has(lsr, LSR_THRE) == Has(u.lsr, LSR_THRE)
    ensures Untouched(u, UpdateIrq(u.(lsr := lsr)))
  {
    hide Has, Pending, Identified;
  }

  lemma ReadLsrUntouched(u: Uart)
    ensures Untouched(u, ReadLsr(u))
  {
    hide Has, Without, UpdateIrq, Untouched;
    ThreStays(u.lsr);
    LsrUntouched(u, Without(u.lsr, LSR_BI | LSR_OE));
    UntouchedTwice(u, u, u);
  }

  lemma ReadIirUntouched(u: Uart)
    ensures Untouched(u, ReadIir(u))
  {
    hide Has, Pending, Identified;
  }

  lemma DeltasUntouched(u: Uart, msr: bv8)
    ensures Untouched(u, UpdateIrq(u.(msr := msr)))
  {
    hide Has, Pending, Identified;
  }

  lemma PollUntouched(u: Uart)
    ensures Untouched(u, UpdateMsl(u))
  {
    hide Has;
  }

  lemma ReadMsrUntouched(u: Uart)
    ensures Untouched(u, ReadMsr(u))
  {
    hide Has, Without, UpdateIrq, UpdateMsl, Untouched;
    var p := UpdateMsl(u);
    PollUntouched(u);
    DeltasUntouched(u, Without(u.msr, MSR_ANY_DELTA));
    DeltasUntouched(p, Without(p.msr, MSR_ANY_DELTA));
    UntouchedTwice(u, p, UpdateIrq(p.(msr := Without(p.msr, MSR_ANY_DELTA))));
  }

  lemma ReadUntouched(u: Uart, i: Index)
    ensures Untouched(u, IORead(u, i))
  {
    hide Has, Untouched, Drained, UpdateIrq, ReadIir, ReadLsr, ReadMsr;
    DrainedUntouched(u);
    UpdateUntouched(u, Drained(u));
    ReadLsrUntouched(u);
    ReadIirUntouched(u);
    ReadMsrUntouched(u);
    UntouchedTwice(u, u, u);
  }

  lemma BrokenUntouched(u: Uart)
    ensures Untouched(u, Broken(u))
  {
    hide With, Has;
    ThreStays(u.lsr);
    ThreStays(RecvFifoPut(u.(rbr := 0), 0).lsr);
  }

  lemma TimeoutUntouched(u: Uart)
    ensures Untouched(u, FifoTimeoutInterrupt(u))
  {
    hide Has, UpdateIrq;
    UpdateUntouched(u, u.(timeoutPending := true));
  }

  lemma EventUntouched(u: Uart, op: Op)
    requires Allowed(u, op) && !op.Read? && !op.Write?
    ensures Untouched(u, Step(u, op))
  {
    hide Has, Untouched, Receive, Broken, UpdateIrq, UpdateMsl, FifoTimeoutInterrupt;
    if op.Arrive? {
      ReceiveUntouched(u, op.buf);
    }
    BrokenUntouched(u);
    UpdateUntouched(u, Broken(u));
    TimeoutUntouched(u);
    PollUntouched(u);
  }

  lemma IerUntouched(u: Uart, b: bv8)
    ensures Untouched(u, WriteIer(u, b))
  {
    hide With, Without, Identified, Has, Pending;
  }

  lemma LcrUntouched(u: Uart, b: bv8)
    ensures Untouched(u, WriteLcr(u, b))
  {
    hide Has;
  }

  lemma ScrUntouched(u: Uart, b: bv8)
    ensures Untouched(u, u.(scr := b))
  {
    hide Has;
  }

  lemma DividerUntouched(u: Uart, d: bv16)
    ensures Untouched(u, u.(divider := d))
  {
    hide Has;
  }

  lemma McrUntouched(u: Uart, b: bv8)
    ensures KeepsQueue(u, WriteMcr(u, b)) && WriteMcr(u, b).fcr == u.fcr
  {
    hide Has, Without;
  }

  lemma PlainRegistersUntouched(u: Uart, b: bv8, d: bv16)
    ensures Untouched(u, WriteLcr(u, b)) && Untouched(u, u.(scr := b)) && Untouched(u, u.(divider := d))
    ensures KeepsQueue(u, WriteMcr(u, b)) && WriteMcr(u, b).fcr == u.fcr
  {
    hide Untouched, KeepsQueue, WriteLcr, WriteMcr;
    LcrUntouched(u, b);
    ScrUntouched(u, b);
    DividerUntouched(u, d);
    McrUntouched(u, b);
  }

  /** The writes that neither transmit nor change the transmitter's mode. */
  lemma OtherWritesUntouched(u: Uart, i: Index, value: bv32, accepts: bool)
    requires i != 2 && i != 4 && (i == 0 ==> Has(u.lcr, LCR_DLAB))
    ensures Untouched(u, IOWrite(u, i, value, accepts))
  {
    hide Untouched, Has, WriteIer, WriteLcr, LowByte, WithLowByte, WithHighByte, Transmit, Hold;
    var b := LowByte(value);
    IerUntouched(u, b);
    PlainRegistersUntouched(u, b, WithLowByte(u.divider, value));
    PlainRegistersUntouched(u, b, WithHighByte(u.divider, value));
    UntouchedTwice(u, u, u);
  }

  // ----- A write to the transmit holding register -----

  predicate IsThrWrite(u: Uart, op: Op) {
    op.Write? && Register(op.port) == 0 && !Has(u.lcr, LCR_DLAB)
  }

  /** Outside loopback, with the retry counter and the FIFO in their ranges. */
  predicate Sending(u: Uart) {
    !Has(u.mcr, MCR_LOOP) && 0 <= u.tsrRetry <= MAX_XMIT_RETRY && |u.xmit| <= FIFO_LENGTH
  }

  /** The FIFO with one more byte; a full one has lost its oldest. */
  function Queue(xmit: seq<bv8>, b: bv8): seq<bv8> {
    (if |xmit| == FIFO_LENGTH then xmit[1..] else xmit) + [b]
  }

  /** The fifth refusal of a byte gives it up. */
  function NextRetry(retry: int, accepts: bool): int {
    if accepts || retry == MAX_XMIT_RETRY then 0 else retry + 1
  }

  /** The byte that goes to the driver in FIFO mode: an old one, or the front of the queue, or 0 for a full queue. */
  function NextTsr(retry: int, tsr: bv8, q: seq<bv8>): bv8
    requires q != []
  {
    if retry > 0 then tsr else if |q| == FIFO_LENGTH then 0 else q[0]
  }

  function NextXmit(retry: int, q: seq<bv8>): seq<bv8>
    requires q != []
  {
    if retry == 0 && |q| != FIFO_LENGTH then q[1..] else q
  }

  lemma ClearedThre(lsr: bv8)
    ensures !Has(Without(lsr, LSR_TEMT | LSR_THRE), LSR_THRE) && !Has(Without(lsr, LSR_THRE), LSR_THRE)
    ensures Has(LoadedLsr(lsr, true, true), LSR_THRE) && Has(LoadedLsr(lsr, false, true), LSR_THRE)
    ensures Has(LoadedLsr(lsr, false, false), LSR_THRE) && LoadedLsr(lsr, true, false) == lsr
  {
  }

  lemma HoldShape(u: Uart, b: bv8)
    ensures var v := Hold(u, b);
      && v.thr == b && v.tsr == u.tsr && v.tsrRetry == u.tsrRetry && !Has(v.lsr, LSR_THRE)
      && v.fcr == u.fcr && v.mcr == u.mcr && v.lcr == u.lcr
      && v.xmit == if Has(u.fcr, FCR_FE) then Queue(u.xmit, b) else u.xmit
  {
    hide Has, Without, UpdateIrq;
    ClearedThre(u.lsr);
    UpdateKeepsRest(Held(u, b));
  }

  lemma LoadedShape(v: Uart)
    requires 0 <= v.tsrRetry && (Has(v.fcr, FCR_FE) ==> v.xmit != []) && !Has(v.lsr, LSR_THRE)
    ensures var w := Loaded(v);
      && w.thr == v.thr && w.tsrRetry == v.tsrRetry && w.fcr == v.fcr && w.mcr == v.mcr && w.lcr == v.lcr
      && (if Has(v.fcr, FCR_FE) then
            && w.tsr == NextTsr(v.tsrRetry, v.tsr, v.xmit) && w.xmit == NextXmit(v.tsrRetry, v.xmit)
            && (w.xmit == [] ==> Has(w.lsr, LSR_THRE))
          else
            && w.tsr == (if v.tsrRetry > 0 then v.tsr else v.thr) && w.xmit == v.xmit
            && Has(w.lsr, LSR_THRE) == (v.tsrRetry == 0))
  {
    hide Has, LoadedLsr;
    ClearedThre(v.lsr);
  }

  lemma FinishShape(v: Uart)
    ensures var w := FinishTransmit(v); Untouched(v, w) && w.lcr == v.lcr
  {
    hide Has, With, UpdateIrq;
    ThreStays(v.lsr);
    UpdateKeepsRest(v.(lsr := With(v.lsr, LSR_TEMT), thrPending := true));
  }

  lemma OfferingShape(v: Uart, accepts: bool)
    requires !Has(v.mcr, MCR_LOOP) && 0 <= v.tsrRetry <= MAX_XMIT_RETRY
    ensures Offering(v, accepts) == v.(tsrRetry := NextRetry(v.tsrRetry, accepts))
  {
    hide Has;
  }

  lemma DeliveredShape(v: Uart, accepts: bool)
    requires !Has(v.mcr, MCR_LOOP) && 0 <= v.tsrRetry <= MAX_XMIT_RETRY
    ensures var w := Delivered(v, accepts);
      && w.thr == v.thr && w.tsr == v.tsr && w.xmit == v.xmit && Has(w.lsr, LSR_THRE) == Has(v.lsr, LSR_THRE)
      && w.fcr == v.fcr && w.mcr == v.mcr && w.lcr == v.lcr
      && w.tsrRetry == NextRetry(v.tsrRetry, accepts)
  {
    hide Has, FinishTransmit, Offering, TriesAgain, NextRetry;
    OfferingShape(v, accepts);
    FinishShape(Offering(v, accepts));
  }

  /** Everything a write to the holding register does to the transmitter. */
  lemma ThrWriteShape(u: Uart, b: bv8, accepts: bool)
    requires Sending(u)
    ensures var w := Transmit(Hold(u, b), accepts);
      && w.thr == b && w.fcr == u.fcr && w.mcr == u.mcr && w.lcr == u.lcr
      && w.tsrRetry == NextRetry(u.tsrRetry, accepts) && Offer(Hold(u, b)) == [w.tsr]
      && (if Has(u.fcr, FCR_FE) then
            var q := Queue(u.xmit, b);
            && w.tsr == NextTsr(u.tsrRetry, u.tsr, q) && w.xmit == NextXmit(u.tsrRetry, q)
            && (w.xmit == [] ==> Has(w.lsr, LSR_THRE))
          else
            && w.tsr == (if u.tsrRetry > 0 then u.tsr else b) && w.xmit == u.xmit
            && Has(w.lsr, LSR_THRE) == (u.tsrRetry == 0))
  {
    hide Has, Hold, Loaded, Delivered, NextTsr, NextXmit, NextRetry;
    var v := Hold(u, b);
    HoldShape(u, b);
    LoadedShape(v);
    DeliveredShape(Loaded(v), accepts);
    assert !NothingToSend(v);
  }

  lemma WriteKeepsSending(u: Uart, b: bv8, accepts: bool)
    requires Sending(u)
    ensures Sending(Transmit(Hold(u, b), accepts))
  {
    hide Has, Hold, Transmit, Offer;
    ThrWriteShape(u, b, accepts);
  }

  // ----- Exactly which writes lose a byte -----

  /** The bytes written but not yet taken by the driver, in the order in which they are to go. */
  function Waiting(u: Uart): seq<bv8> {
    (if u.tsrRetry > 0 then [u.tsr] else [])
    + if Has(u.fcr, FCR_FE) then u.xmit else if Has(u.lsr, LSR_THRE) then [] else [u.thr]
  }

  /** The byte being retried is refused for the fifth time. */
  predicate GivesUp(u: Uart, accepts: bool) {
    !accepts && u.tsrRetry == MAX_XMIT_RETRY
  }

  /**
  When a write to the holding register loses or invents a byte. With FIFOs: an
  idle transmitter would fill the FIFO and sends a zero instead of its front
  (harmless only if the byte it discards for that is a zero itself), or a busy one
  meets a full FIFO. Without them: the holding register is still occupied. In
  either mode: a byte is given up.
  */
  predicate Loses(u: Uart, accepts: bool) {
    if Has(u.fcr, FCR_FE) then
      if u.tsrRetry == 0 then |u.xmit| == FIFO_LENGTH - 1 || (|u.xmit| == FIFO_LENGTH && u.xmit[0] != 0)
      else |u.xmit| == FIFO_LENGTH || GivesUp(u, accepts)
    else !Has(u.lsr, LSR_THRE) || GivesUp(u, accepts)
  }

  /** The bytes before a write and the written one are those taken by it and those waiting after it, in order. */
  predicate Conserves(u: Uart, b: bv8, accepts: bool) {
    Waiting(u) + [b] == (if accepts then Offer(Hold(u, b)) else []) + Waiting(Transmit(Hold(u, b), accepts))
  }

  lemma IdleFifoIff(xmit: seq<bv8>, b: bv8)
    requires |xmit| <= FIFO_LENGTH
    ensures var q := Queue(xmit, b);
      xmit + [b] == [NextTsr(0, 0, q)] + NextXmit(0, q)
      <==> !(|xmit| == FIFO_LENGTH - 1 || (|xmit| == FIFO_LENGTH && xmit[0] != 0))
  {
    var q := Queue(xmit, b);
    if |xmit| == FIFO_LENGTH {
      assert xmit == [xmit[0]] + xmit[1..];
      assert (xmit + [b])[0] == xmit[0];
    } else if |xmit| == FIFO_LENGTH - 1 {
      assert |[NextTsr(0, 0, q)] + NextXmit(0, q)| == |xmit| + 2;
    }
  }

  lemma BusyFifoIff(tsr: bv8, xmit: seq<bv8>, b: bv8, givesUp: bool)
    requires |xmit| <= FIFO_LENGTH
    ensures ([tsr] + xmit) + [b] == (if givesUp then [] else [tsr]) + Queue(xmit, b)
      <==> |xmit| != FIFO_LENGTH && !givesUp
  {
    var q := Queue(xmit, b);
    assert |([tsr] + xmit) + [b]| == |xmit| + 2;
    if |xmit| != FIFO_LENGTH && !givesUp {
      assert ([tsr] + xmit) + [b] == [tsr] + (xmit + [b]);
    }
  }

  /** The byte that was offered was either taken or is still there, or it was given up. */
  lemma OfferedByte(u: Uart, b: bv8, accepts: bool)
    requires Sending(u)
    ensures var w := Transmit(Hold(u, b), accepts);
      (if accepts then Offer(Hold(u, b)) else []) + (if w.tsrRetry > 0 then [w.tsr] else [])
      == if GivesUp(u, accepts) then [] else [w.tsr]
  {
    hide Has, Hold, Transmit, Offer, NextTsr, NextXmit;
    ThrWriteShape(u, b, accepts);
  }

  lemma FifoWriteConservesIff(u: Uart, b: bv8, accepts: bool)
    requires Sending(u) && Has(u.fcr, FCR_FE)
    ensures Conserves(u, b, accepts) <==> !Loses(u, accepts)
  {
    hide Has, Hold, Transmit, Offer, Queue;
    var w := Transmit(Hold(u, b), accepts);
    ThrWriteShape(u, b, accepts);
    OfferedByte(u, b, accepts);
    var taken := if accepts then Offer(Hold(u, b)) else [];
    var kept := if w.tsrRetry > 0 then [w.tsr] else [];
    assert taken + (kept + w.xmit) == (taken + kept) + w.xmit;
    if u.tsrRetry == 0 {
      IdleFifoIff(u.xmit, b);
      assert [] + u.xmit == u.xmit;
    } else {
      BusyFifoIff(u.tsr, u.xmit, b, GivesUp(u, accepts));
    }
  }

  lemma PlainWriteConservesIff(u: Uart, b: bv8, accepts: bool)
    requires Sending(u) && !Has(u.fcr, FCR_FE)
    ensures Conserves(u, b, accepts) <==> !Loses(u, accepts)
  {
    hide Has, Hold, Transmit, Offer;
    var w := Transmit(Hold(u, b), accepts);
    ThrWriteShape(u, b, accepts);
    OfferedByte(u, b, accepts);
    var taken := if accepts then Offer(Hold(u, b)) else [];
    var kept := if w.tsrRetry > 0 then [w.tsr] else [];
    var held := if Has(w.lsr, LSR_THRE) then [] else [w.thr];
    assert taken + (kept + held) == (taken + kept) + held;
  }

  /** A write, with any answer of the driver, conserves the bytes exactly if it is not one of the losing ones. */
  lemma WriteConservesIff(u: Uart, b: bv8, accepts: bool)
    requires Sending(u)
    ensures Conserves(u, b, accepts) <==> !Loses(u, accepts)
  {
    hide Conserves, Loses;
    if Has(u.fcr, FCR_FE) {
      FifoWriteConservesIff(u, b, accepts);
    } else {
      PlainWriteConservesIff(u, b, accepts);
    }
  }

  // ----- Runs -----

  /** The bytes that an operation hands to the driver. */
  function Offers(u: Uart, op: Op): seq<bv8> {
    if op.Write? then Offered(u, Register(op.port), op.value) else []
  }

  /** Those that the driver takes. */
  function Taken(u: Uart, op: Op): seq<bv8> {
    if op.Write? && op.accepts then Offers(u, op) else []
  }

  /** The bytes that the guest writes for sending; in loopback mode nothing is sent. */
  function Written(u: Uart, op: Op): seq<bv8> {
    if IsThrWrite(u, op) && !Has(u.mcr, MCR_LOOP) then [LowByte(op.value)] else []
  }

  function OffersOf(u: Uart, ops: seq<Op>): seq<bv8>
    requires RunAllowed(u, ops)
    decreases |ops|
  {
    if ops == [] then [] else Offers(u, ops[0]) + OffersOf(Step(u, ops[0]), ops[1..])
  }

  function TakenIn(u: Uart, ops: seq<Op>): seq<bv8>
    requires RunAllowed(u, ops)
    decreases |ops|
  {
    if ops == [] then [] else Taken(u, ops[0]) + TakenIn(Step(u, ops[0]), ops[1..])
  }

  function WrittenBy(u: Uart, ops: seq<Op>): seq<bv8>
    requires RunAllowed(u, ops)
    decreases |ops|
  {
    if ops == [] then [] else Written(u, ops[0]) + WrittenBy(Step(u, ops[0]), ops[1..])
  }

  /** The operation neither flushes the transmit FIFO, nor changes FIFO mode, nor enters loopback. */
  predicate Steady(u: Uart, op: Op) {
    op.Write? ==>
      && (Register(op.port) == 2 ==>
            || LowByte(op.value) == u.fcr
            || (Has(LowByte(op.value), FCR_FE) == Has(u.fcr, FCR_FE) && !Has(LowByte(op.value), FCR_XFR)))
      && (Register(op.port) == 4 ==> !Has(LowByte(op.value), MCR_LOOP))
  }

  /** The losing writes are the only operations that lose bytes. */
  predicate LosesBy(u: Uart, op: Op) {
    IsThrWrite(u, op) && Loses(u, op.accepts)
  }

  predicate StepConserves(u: Uart, op: Op)
    requires Allowed(u, op)
  {
    Waiting(u) + Written(u, op) == Taken(u, op) + Waiting(Step(u, op))
  }

  lemma SteadyFcr(fcr: bv8, b: bv8)
    requires Has(b, FCR_FE) == Has(fcr, FCR_FE)
    ensures !Has(b ^ fcr, FCR_FE) && Has(Without(b, 0x36), FCR_FE) == Has(fcr, FCR_FE)
  {
    assert b & 1 == 0 || b & 1 == 1;
    assert fcr & 1 == 0 || fcr & 1 == 1;
    assert (b ^ fcr) & 1 == (b & 1) ^ (fcr & 1);
    assert (b & (0x36 ^ 0xFF)) & 1 == b & 1;
  }

  lemma FcrKeepsQueue(u: Uart, b: bv8)
    requires b == u.fcr || (Has(b, FCR_FE) == Has(u.fcr, FCR_FE) && !Has(b, FCR_XFR))
    ensures var v := WriteFcr(u, b);
      KeepsQueue(u, v) && Has(v.fcr, FCR_FE) == Has(u.fcr, FCR_FE) && v.mcr == u.mcr
  {
    hide Has, Without, With, UpdateIrq, TriggerLevel;
    if b != u.fcr {
      SteadyFcr(u.fcr, b);
      UpdateKeepsRest(FcrWritten(u, b));
    }
  }

  lemma McrKeepsLoop(b: bv8)
    ensures Has(Without(b, 0xE0), MCR_LOOP) == Has(b, MCR_LOOP)
  {
  }

  /** Operations that do not transmit leave the transmitter and its mode alone. */
  lemma SteadyKeepsQueue(u: Uart, op: Op)
    requires Sending(u) && Allowed(u, op) && Steady(u, op) && !IsThrWrite(u, op)
    ensures var v := Step(u, op);
      KeepsQueue(u, v) && Has(v.fcr, FCR_FE) == Has(u.fcr, FCR_FE) && !Has(v.mcr, MCR_LOOP)
  {
    hide Has, Without, KeepsQueue, IORead, Receive, ReceiveBreak, FifoTimeoutInterrupt, UpdateMsl, Register, LowByte,
      WriteFcr, Transmit, Hold, WriteIer, WriteLcr, WithLowByte, WithHighByte;
    if op.Read? {
      ReadUntouched(u, Register(op.port));
    } else if op.Write? {
      var i := Register(op.port);
      var b := LowByte(op.value);
      if i == 2 {
        FcrKeepsQueue(u, b);
      } else if i == 4 {
        PlainRegistersUntouched(u, b, u.divider);
        McrKeepsLoop(b);
      } else {
        OtherWritesUntouched(u, i, op.value, op.accepts);
      }
    } else {
      EventUntouched(u, op);
    }
  }

  lemma SameQueueSameWaiting(u: Uart, v: Uart)
    requires KeepsQueue(u, v) && Has(v.fcr, FCR_FE) == Has(u.fcr, FCR_FE)
    ensures Waiting(v) == Waiting(u) && v.tsrRetry == u.tsrRetry && v.xmit == u.xmit
  {
    hide Has;
  }

  lemma StepConservesIff(u: Uart, op: Op)
    requires Sending(u) && Allowed(u, op) && Steady(u, op)
    ensures Sending(Step(u, op))
    ensures StepConserves(u, op) <==> !LosesBy(u, op)
  {
    hide Has, KeepsQueue, Waiting, Loses, Register, LowByte, Transmit, Hold, Offer, Receive, IORead, Steady;
    if IsThrWrite(u, op) {
      WriteKeepsSending(u, LowByte(op.value), op.accepts);
      WriteConservesIff(u, LowByte(op.value), op.accepts);
    } else {
      SteadyKeepsQueue(u, op);
      SameQueueSameWaiting(u, Step(u, op));
      OthersTakeNothing(u, op);
      assert Waiting(u) + [] == [] + Waiting(u);
    }
  }

  lemma OthersTakeNothing(u: Uart, op: Op)
    requires !IsThrWrite(u, op)
    ensures Taken(u, op) == [] && Written(u, op) == []
  {
    hide Has, Register, LowByte, Offer, Hold;
  }

  predicate RunSteady(u: Uart, ops: seq<Op>)
    requires RunAllowed(u, ops)
    decreases |ops|
  {
    ops != [] ==> Steady(u, ops[0]) && RunSteady(Step(u, ops[0]), ops[1..])
  }

  predicate NoneLoses(u: Uart, ops: seq<Op>)
    requires RunAllowed(u, ops)
    decreases |ops|
  {
    ops != [] ==> !LosesBy(u, ops[0]) && NoneLoses(Step(u, ops[0]), ops[1..])
  }

  lemma {:induction false} PrefixAllowed(u: Uart, ops: seq<Op>, n: nat)
    requires RunAllowed(u, ops) && n <= |ops|
    ensures RunAllowed(u, ops[..n])
    decreases n
  {
    hide Step, Allowed;
    if n > 0 {
      PrefixAllowed(Step(u, ops[0]), ops[1..], n - 1);
      assert ops[..n][1..] == ops[1..][..n - 1];
    }
  }

  /** What waited first and what was written since is what was taken since and what waits now, in order. */
  predicate RunConserves(u: Uart, ops: seq<Op>)
    requires RunAllowed(u, ops)
  {
    Waiting(u) + WrittenBy(u, ops) == TakenIn(u, ops) + Waiting(Run(u, ops))
  }

  /** Every stage of the run conserves the bytes. */
  ghost predicate StagesConserve(u: Uart, ops: seq<Op>)
    requires RunAllowed(u, ops)
  {
    forall n :: 0 <= n <= |ops| ==> RunAllowed(u, ops[..n]) && RunConserves(u, ops[..n])
  }

  lemma FirstStage(u: Uart, ops: seq<Op>)
    requires RunAllowed(u, ops) && ops != []
    ensures RunAllowed(u, ops[..1])
    ensures RunConserves(u, ops[..1]) <==> StepConserves(u, ops[0])
  {
    hide Step, Allowed, Waiting, Written, Taken;
    PrefixAllowed(u, ops, 1);
    var one := ops[..1];
    assert one[1..] == [];
    var v := Step(u, ops[0]);
    assert WrittenBy(v, []) == [] && TakenIn(v, []) == [] && Run(v, []) == v;
    assert Written(u, ops[0]) + [] == Written(u, ops[0]) && Taken(u, ops[0]) + [] == Taken(u, ops[0]);
  }

  lemma LaterStage(u: Uart, ops: seq<Op>, n: nat)
    requires RunAllowed(u, ops) && 0 < n <= |ops| && StepConserves(u, ops[0])
    requires RunAllowed(u, ops[..n]) && RunAllowed(Step(u, ops[0]), ops[1..][..n - 1])
    ensures RunConserves(u, ops[..n]) <==> RunConserves(Step(u, ops[0]), ops[1..][..n - 1])
  {
    hide Step, Allowed, Waiting, Written, Taken;
    var v := Step(u, ops[0]);
    var rest := ops[1..][..n - 1];
    assert ops[..n][1..] == rest;
    Cancel(Waiting(u), Written(u, ops[0]), WrittenBy(v, rest), Taken(u, ops[0]), TakenIn(v, rest), Waiting(Run(v, rest)),
           Waiting(v));
  }

  lemma Cancel(a: seq<bv8>, w: seq<bv8>, ws: seq<bv8>, t: seq<bv8>, ts: seq<bv8>, z: seq<bv8>, m: seq<bv8>)
    requires a + w == t + m
    ensures a + (w + ws) == (t + ts) + z <==> m + ws == ts + z
  {
    assert a + (w + ws) == (a + w) + ws;
    assert (t + m) + ws == t + (m + ws);
    assert (t + ts) + z == t + (ts + z);
    SameFront(t, m + ws, ts + z);
  }

  lemma SameFront(t: seq<bv8>, x: seq<bv8>, y: seq<bv8>)
    ensures t + x == t + y <==> x == y
  {
    assert (t + x)[|t|..] == x && (t + y)[|t|..] == y;
  }

  /**
  Over a run of any operations and any answers of the driver, every stage
  conserves the bytes in order if and only if none of its writes is a losing one.
  */
  lemma {:induction false} RunConservesIff(u: Uart, ops: seq<Op>)
    requires Sending(u) && RunAllowed(u, ops) && RunSteady(u, ops)
    ensures StagesConserve(u, ops) <==> NoneLoses(u, ops)
    decreases |ops|
  {
    hide Step, Allowed, Waiting, Written, Taken, Sending, Steady, LosesBy, StepConserves, RunConserves;
    if ops == [] {
      NothingHappened(u);
    } else {
      var v := Step(u, ops[0]);
      StepConservesIff(u, ops[0]);
      RunConservesIff(v, ops[1..]);
      FirstStage(u, ops);
      if !LosesBy(u, ops[0]) {
        StagesMove(u, ops);
      }
    }
  }

  lemma NothingHappened(u: Uart)
    ensures StagesConserve(u, [])
  {
    hide Waiting;
    assert Waiting(u) + [] == [] + Waiting(u);
    assert forall n :: 0 <= n <= 0 ==> RunConserves(u, [][..n]);
  }

  lemma StagesMove(u: Uart, ops: seq<Op>)
    requires RunAllowed(u, ops) && ops != [] && StepConserves(u, ops[0])
    ensures StagesConserve(u, ops) <==> StagesConserve(Step(u, ops[0]), ops[1..])
  {
    hide Step, Allowed, RunConserves, StepConserves;
    var v := Step(u, ops[0]);
    forall n | 0 <= n <= |ops|
      ensures RunAllowed(u, ops[..n])
      ensures n > 0 ==> RunAllowed(v, ops[1..][..n - 1])
      ensures n > 0 ==> (RunConserves(u, ops[..n]) <==> RunConserves(v, ops[1..][..n - 1]))
      ensures n == 0 ==> RunConserves(u, ops[..n])
    {
      PrefixAllowed(u, ops, n);
      if n > 0 {
        PrefixAllowed(v, ops[1..], n - 1);
        LaterStage(u, ops, n);
      } else {
        NothingHappened(u);
        assert ops[..0] == [] && [][..0] == ops[..0];
      }
    }
    if StagesConserve(u, ops) {
      forall m | 0 <= m <= |ops[1..]| ensures RunAllowed(v, ops[1..][..m]) && RunConserves(v, ops[1..][..m]) {
        assert RunConserves(u, ops[..m + 1]);
      }
    }
    if StagesConserve(v, ops[1..]) {
      forall n | 0 <= n <= |ops| ensures RunConserves(u, ops[..n]) {
        if n > 0 {
          assert RunConserves(v, ops[1..][..n - 1]);
        }
      }
    }
  }
}
