/**
The registers of the 16550 UART of serial.cpp as a value, and its operations as
functions. A bit of a register is tested by its mask. Timers, the baud rate and the
driver's parameters are not part of the state; what a timer does when it fires is
an operation of its own, and so is the delivery of input by the driver.
*/
module Uart {

  const FIFO_LENGTH := 16
  const MAX_XMIT_RETRY := 4

  const LCR_DLAB: bv8 := 0x80

  const IER_MSI: bv8 := 0x08
  const IER_RLSI: bv8 := 0x04
  const IER_THRI: bv8 := 0x02
  const IER_RDI: bv8 := 0x01

  const IIR_ID: bv8 := 0x06
  const IIR_NO_INT: bv8 := 0x01
  const IIR_MSI: bv8 := 0x00
  const IIR_THRI: bv8 := 0x02
  const IIR_RDI: bv8 := 0x04
  const IIR_RLSI: bv8 := 0x06
  const IIR_CTI: bv8 := 0x0C
  const IIR_FE: bv8 := 0xC0

  const MCR_LOOP: bv8 := 0x10

  const MSR_ANY_DELTA: bv8 := 0x0F

  const LSR_TEMT: bv8 := 0x40
  const LSR_THRE: bv8 := 0x20
  const LSR_BI: bv8 := 0x10
  const LSR_OE: bv8 := 0x02
  const LSR_DR: bv8 := 0x01
  const LSR_INT_ANY: bv8 := 0x1E

  const FCR_FE: bv8 := 0x01
  const FCR_RFR: bv8 := 0x02
  const FCR_XFR: bv8 := 0x04

  predicate Has(register: bv8, mask: bv8) {
    register & mask != 0
  }

  function With(register: bv8, mask: bv8): bv8 {
    register | mask
  }

  function Without(register: bv8, mask: bv8): bv8 {
    register & (mask ^ 0xFF)
  }

  /** What the interrupt handler was last told about the UART's line. */
  datatype Level = Untold | Low | High

  datatype Uart = Uart(
    rbr: bv8, thr: bv8, tsr: bv8, ier: bv8, iir: bv8, lcr: bv8, mcr: bv8, lsr: bv8, msr: bv8, scr: bv8, fcr: bv8,
    divider: bv16,
    thrPending: bool, timeoutPending: bool, lastBreakEnable: bool,
    tsrRetry: int, pollMsl: int, itl: nat,
    recv: seq<bv8>, xmit: seq<bv8>,
    line: Level)

  /** Reset, which leaves the FIFO control register, the pending timeout and the line as they are. */
  function Reset(u: Uart): Uart {
    u.(rbr := 0, ier := 0, iir := IIR_NO_INT, lcr := 0, lsr := LSR_TEMT | LSR_THRE, msr := 0xB0, divider := 0x0C,
       mcr := 0x08, scr := 0, tsrRetry := 0, pollMsl := 0, recv := [], xmit := [], thrPending := false,
       lastBreakEnable := false)
  }

  /** The state the constructor leaves. */
  function PowerOn(): Uart {
    Reset(Uart(0, 0, 0, 0, 0, 0, 0, 0, 0, 0, 0, 0, false, false, false, 0, 0, 14, [], [], Untold))
  }

  lemma ResetForgets(u: Uart)
    requires u.thr == 0 && u.tsr == 0 && u.fcr == 0 && !u.timeoutPending && u.itl == 14 && u.line == Untold
    ensures Reset(u) == PowerOn()
  {
  }

  /** The identification that UpdateIRQ chooses. */
  function Pending(u: Uart): bv8 {
    if Has(u.ier, IER_RLSI) && Has(u.lsr, LSR_INT_ANY) then IIR_RLSI
    else if Has(u.ier, IER_RDI) && u.timeoutPending then IIR_CTI
    else if Has(u.ier, IER_RDI) && Has(u.lsr, LSR_DR) && (!Has(u.fcr, FCR_FE) || |u.recv| >= u.itl) then IIR_RDI
    else if Has(u.ier, IER_THRI) && u.thrPending then IIR_THRI
    else if Has(u.ier, IER_MSI) && Has(u.msr, MSR_ANY_DELTA) then IIR_MSI
    else IIR_NO_INT
  }

  /** The new identification keeps the FIFO bits of the old one. */
  function Identified(iir: bv8, code: bv8): bv8 {
    code | (iir & 0xF0)
  }

  function UpdateIrq(u: Uart): Uart {
    u.(iir := Identified(u.iir, Pending(u)), line := if Pending(u) != IIR_NO_INT then High else Low)
  }

  function RecvFifoPut(u: Uart, b: bv8): Uart {
    u.(recv := if |u.recv| < FIFO_LENGTH then u.recv + [b] else u.recv,
       lsr := if |u.recv| < FIFO_LENGTH then u.lsr else With(u.lsr, LSR_OE))
  }

  function RecvFifoPutAll(u: Uart, buf: seq<bv8>): Uart
    decreases |buf|
  {
    if buf == [] then u else RecvFifoPut(RecvFifoPutAll(u, buf[..|buf| - 1]), buf[|buf| - 1])
  }

  /** How many bytes the driver may deliver. */
  function CanReceive(u: Uart): nat {
    if Has(u.fcr, FCR_FE) then
      if |u.recv| < FIFO_LENGTH then
        if |u.recv| <= u.itl then u.itl - |u.recv| else 1
      else 0
    else if Has(u.lsr, LSR_DR) then 0 else 1
  }

  function Queued(u: Uart, buf: seq<bv8>): Uart {
    var v := RecvFifoPutAll(u, buf);
    v.(lsr := With(v.lsr, LSR_DR))
  }

  function Latched(u: Uart, b: bv8): Uart {
    u.(lsr := With(if Has(u.lsr, LSR_DR) then With(u.lsr, LSR_OE) else u.lsr, LSR_DR), rbr := b)
  }

  /** Without FIFOs only the first byte is looked at, so there has to be one. */
  function Receive(u: Uart, buf: seq<bv8>): Uart
    requires Has(u.fcr, FCR_FE) || buf != []
  {
    if Has(u.fcr, FCR_FE) then UpdateIrq(Queued(u, buf)) else UpdateIrq(Latched(u, buf[0]))
  }

  function Broken(u: Uart): Uart {
    var v := RecvFifoPut(u.(rbr := 0), 0);
    v.(lsr := With(v.lsr, LSR_BI | LSR_DR))
  }

  function ReceiveBreak(u: Uart): Uart {
    UpdateIrq(Broken(u))
  }

  function FifoTimeoutInterrupt(u: Uart): Uart {
    if u.recv != [] then UpdateIrq(u.(timeoutPending := true)) else u
  }

  /** Polling the modem lines is not implemented, and says so once and for all. */
  function UpdateMsl(u: Uart): Uart {
    u.(pollMsl := -1)
  }

  /** Takes the next byte into the transmit shift register; a full FIFO counts as a zero byte. */
  function LoadTsr(u: Uart): Uart {
    var fifo := Has(u.fcr, FCR_FE);
    var full := |u.xmit| == FIFO_LENGTH;
    var left := if fifo && !full && u.xmit != [] then u.xmit[1..] else u.xmit;
    u.(tsr := if !fifo then u.thr else if full then 0 else if u.xmit == [] then u.tsr else u.xmit[0],
       xmit := left,
       lsr := LoadedLsr(u.lsr, fifo, left == []))
  }

  /** The part of it that concerns the FIFO. */
  function Shifted(u: Uart): Uart {
    var full := |u.xmit| == FIFO_LENGTH;
    u.(tsr := if full then 0 else if u.xmit == [] then u.tsr else u.xmit[0],
       xmit := if !full && u.xmit != [] then u.xmit[1..] else u.xmit)
  }

  lemma LoadTsrByShift(u: Uart, v: Uart)
    requires Has(u.fcr, FCR_FE) && v == Shifted(u)
    ensures LoadTsr(u) == v.(lsr := LoadedLsr(u.lsr, true, v.xmit == []))
  {
    hide Has, LoadedLsr;
  }

  function LoadedLsr(lsr: bv8, fifo: bool, empty: bool): bv8 {
    if !fifo then Without(With(lsr, LSR_THRE), LSR_TEMT) else if empty then With(lsr, LSR_THRE) else lsr
  }

  predicate NothingToSend(u: Uart) {
    u.tsrRetry <= 0 && !Has(u.fcr, FCR_FE) && Has(u.lsr, LSR_THRE)
  }

  function Loaded(u: Uart): Uart {
    if u.tsrRetry <= 0 then LoadTsr(u) else u
  }

  function FinishTransmit(u: Uart): Uart {
    if Has(u.lsr, LSR_THRE) then UpdateIrq(u.(lsr := With(u.lsr, LSR_TEMT), thrPending := true)) else u
  }

  /** The bytes that Transmit hands to the driver. */
  function Offer(u: Uart): seq<bv8> {
    if NothingToSend(u) || Has(Loaded(u).mcr, MCR_LOOP) then [] else [Loaded(u).tsr]
  }

  predicate MustRetry(u: Uart) {
    0 <= u.tsrRetry < MAX_XMIT_RETRY
  }

  /** The driver is offered the byte in the shift register; unless it is to be tried again, that is the end of it. */
  predicate TriesAgain(v: Uart, accepts: bool) {
    !Has(v.mcr, MCR_LOOP) && !accepts && MustRetry(v)
  }

  function Offering(v: Uart, accepts: bool): Uart {
    if Has(v.mcr, MCR_LOOP) then Receive(v, [v.tsr])
    else v.(tsrRetry := if TriesAgain(v, accepts) then v.tsrRetry + 1 else 0)
  }

  /** What becomes of the byte in the shift register; `accepts`: the driver takes it. */
  function Delivered(v: Uart, accepts: bool): Uart {
    if TriesAgain(v, accepts) then Offering(v, accepts) else FinishTransmit(Offering(v, accepts))
  }

  function Transmit(u: Uart, accepts: bool): Uart {
    if NothingToSend(u) then u else Delivered(Loaded(u), accepts)
  }

  /** The register that a port selects. */
  type Index = i: int | 0 <= i < 8

  function Register(port: bv32): Index {
    (port & 7) as int
  }

  /** What IORead stores in its result. */
  function ReadValue(u: Uart, i: Index): bv8 {
    match i
    case 0 =>
      if Has(u.lcr, LCR_DLAB) then (u.divider & 0xFF) as bv8
      else if !Has(u.fcr, FCR_FE) then u.rbr
      else if u.recv != [] then u.recv[0] else 0
    case 1 => if Has(u.lcr, LCR_DLAB) then ((u.divider >> 8) & 0xFF) as bv8 else u.ier
    case 2 => u.iir
    case 3 => u.lcr
    case 4 => u.mcr
    case 5 => u.lsr
    case 6 =>
      if Has(u.mcr, MCR_LOOP) then ((u.mcr & 0x0C) << 4) | ((u.mcr & 0x02) << 3) | ((u.mcr & 0x01) << 5)
      else u.msr
    case 7 => u.scr
  }

  function Drained(u: Uart): Uart {
    var fifo := Has(u.fcr, FCR_FE);
    var left := if fifo && u.recv != [] then u.recv[1..] else u.recv;
    u.(recv := left,
       lsr := if !fifo || left == [] then Without(u.lsr, LSR_DR | LSR_BI) else u.lsr,
       timeoutPending := !fifo && u.timeoutPending)
  }

  /** Reading the receive buffer. */
  function ReadRbr(u: Uart): Uart {
    UpdateIrq(Drained(u))
  }

  function ReadIir(u: Uart): Uart {
    if u.iir & IIR_ID == IIR_THRI then UpdateIrq(u.(thrPending := false)) else u
  }

  function ReadLsr(u: Uart): Uart {
    if Has(u.lsr, LSR_BI | LSR_OE) then UpdateIrq(u.(lsr := Without(u.lsr, LSR_BI | LSR_OE))) else u
  }

  function DeltasRead(u: Uart): Uart {
    if Has(u.msr, MSR_ANY_DELTA) then UpdateIrq(u.(msr := Without(u.msr, MSR_ANY_DELTA))) else u
  }

  function ReadMsr(u: Uart): Uart {
    if Has(u.mcr, MCR_LOOP) then u else DeltasRead(if u.pollMsl >= 0 then UpdateMsl(u) else u)
  }

  /** IORead, without the AcceptInput call that ends the reading of the receive buffer. */
  function IORead(u: Uart, i: Index): Uart {
    match i
    case 0 => if Has(u.lcr, LCR_DLAB) then u else ReadRbr(u)
    case 2 => ReadIir(u)
    case 5 => ReadLsr(u)
    case 6 => ReadMsr(u)
    case _ => u
  }

  function LowByte(value: bv32): bv8 {
    (value & 0xFF) as bv8
  }

  /** The transmit holding register is filled, and the FIFO makes room by forgetting its oldest byte. */
  function Stored(u: Uart, b: bv8): Uart {
    var room := if |u.xmit| == FIFO_LENGTH then u.xmit[1..] else u.xmit;
    u.(thr := b, xmit := if Has(u.fcr, FCR_FE) then room + [b] else u.xmit)
  }

  function Held(u: Uart, b: bv8): Uart {
    var v := Stored(u, b);
    v.(lsr := if Has(v.fcr, FCR_FE) then Without(v.lsr, LSR_TEMT | LSR_THRE) else Without(v.lsr, LSR_THRE),
       thrPending := false)
  }

  function Hold(u: Uart, b: bv8): Uart {
    UpdateIrq(Held(u, b))
  }

  function EnablesSet(u: Uart, b: bv8): Uart {
    u.(ier := Without(b, 0xF0),
       pollMsl := if u.pollMsl < 0 then u.pollMsl else if Has(Without(b, 0xF0), IER_MSI) then -1 else 0)
  }

  function WriteIer(u: Uart, b: bv8): Uart {
    var v := EnablesSet(u, b);
    if Has(v.lsr, LSR_THRE) then UpdateIrq(v.(thrPending := true)) else v
  }

  /** Changing the enable bit flushes both FIFOs. */
  function Flushing(u: Uart, b: bv8): bv8 {
    if Has(b ^ u.fcr, FCR_FE) then With(b, FCR_XFR | FCR_RFR) else b
  }

  function TriggerLevel(b: bv8): nat {
    match b & 0xC0
    case 0x00 => 1
    case 0x40 => 4
    case 0x80 => 8
    case _ => 14
  }

  function Flushed(u: Uart, c: bv8): Uart {
    u.(timeoutPending := !Has(c, FCR_RFR) && u.timeoutPending,
       recv := if Has(c, FCR_RFR) then [] else u.recv,
       xmit := if Has(c, FCR_XFR) then [] else u.xmit)
  }

  function FcrWritten(u: Uart, c: bv8): Uart {
    var v := Flushed(u, c);
    v.(iir := if Has(c, FCR_FE) then With(v.iir, IIR_FE) else Without(v.iir, IIR_FE),
       itl := if Has(c, FCR_FE) then TriggerLevel(c) else v.itl,
       fcr := Without(c, 0x36))
  }

  function WriteFcr(u: Uart, b: bv8): Uart {
    if u.fcr == b then u else UpdateIrq(FcrWritten(u, Flushing(u, b)))
  }

  /** The divider is 16 bits wide, and only these two writes look beyond the value's low byte. */
  function WithLowByte(divider: bv16, value: bv32): bv16 {
    (divider & 0xFF00) | (value & 0xFFFF) as bv16
  }

  function WithHighByte(divider: bv16, value: bv32): bv16 {
    (divider & 0xFF) | ((value << 8) & 0xFFFF) as bv16
  }

  function WriteLcr(u: Uart, b: bv8): Uart {
    u.(lcr := b, lastBreakEnable := Has(b, 0x40))
  }

  function WriteMcr(u: Uart, b: bv8): Uart {
    u.(mcr := Without(b, 0xE0))
  }

  /** IOWrite; `accepts` is the driver's answer if the write makes it transmit. */
  function IOWrite(u: Uart, i: Index, value: bv32, accepts: bool): Uart {
    match i
    case 0 =>
      if Has(u.lcr, LCR_DLAB) then u.(divider := WithLowByte(u.divider, value))
      else Transmit(Hold(u, LowByte(value)), accepts)
    case 1 =>
      if Has(u.lcr, LCR_DLAB) then u.(divider := WithHighByte(u.divider, value))
      else WriteIer(u, LowByte(value))
    case 2 => WriteFcr(u, LowByte(value))
    case 3 => WriteLcr(u, LowByte(value))
    case 4 => WriteMcr(u, LowByte(value))
    case 7 => u.(scr := LowByte(value))
    case _ => u
  }

  /** The bytes that IOWrite hands to the driver. */
  function Offered(u: Uart, i: Index, value: bv32): seq<bv8> {
    if i == 0 && !Has(u.lcr, LCR_DLAB) then Offer(Hold(u, LowByte(value))) else []
  }

  datatype Op =
    | Read(port: bv32)
    | Write(port: bv32, value: bv32, accepts: bool)
    | Arrive(buf: seq<bv8>)
    | Break
    | TimeoutFires
    | PollFires

  predicate Allowed(u: Uart, op: Op) {
    op.Arrive? ==> Has(u.fcr, FCR_FE) || op.buf != []
  }

  function Step(u: Uart, op: Op): Uart
    requires Allowed(u, op)
  {
    match op
    case Read(port) => IORead(u, Register(port))
    case Write(port, value, accepts) => IOWrite(u, Register(port), value, accepts)
    case Arrive(buf) => Receive(u, buf)
    case Break => ReceiveBreak(u)
    case TimeoutFires => FifoTimeoutInterrupt(u)
    case PollFires => UpdateMsl(u)
  }

  predicate RunAllowed(u: Uart, ops: seq<Op>)
    decreases |ops|
  {
    ops != [] ==> Allowed(u, ops[0]) && RunAllowed(Step(u, ops[0]), ops[1..])
  }

  function Run(u: Uart, ops: seq<Op>): Uart
    requires RunAllowed(u, ops)
    decreases |ops|
  {
    if ops == [] then u else Run(Step(u, ops[0]), ops[1..])
  }
}
