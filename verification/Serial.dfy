/**
The Serial class (serial.cpp). `line` is what HandleIRQ was last called with and
`wire` records the bytes passed to the driver's Write, whose answer is the
parameter `accepts` of the methods that may call it.
*/
module SerialDevice {
  import opened RingFifo
  import opened Uart
  import Spec = Uart

  class Serial {
    var rbr: bv8
    var thr: bv8
    var tsr: bv8
    var ier: bv8
    var iir: bv8
    var lcr: bv8
    var mcr: bv8
    var lsr: bv8
    var msr: bv8
    var scr: bv8
    var fcr: bv8
    var divider: bv16
    var thrPending: bool
    var timeoutPending: bool
    var lastBreakEnable: bool
    var tsrRetry: int
    var pollMsl: int
    var recvFifoItl: nat
    const recvFifo: Fifo<bv8>
    const xmitFifo: Fifo<bv8>
    var line: Level
    var wire: seq<bv8>

    ghost function Repr(): set<object> {
      {this, recvFifo, recvFifo.data, xmitFifo, xmitFifo.data}
    }

    ghost predicate Valid()
      reads this, recvFifo, xmitFifo
    {
      && recvFifo.Valid() && recvFifo.capacity == FIFO_LENGTH
      && xmitFifo.Valid() && xmitFifo.capacity == FIFO_LENGTH
      && recvFifo != xmitFifo && recvFifo.data != xmitFifo.data
    }

    ghost function St(): Uart
      requires Valid()
      reads this, recvFifo, recvFifo.data, xmitFifo, xmitFifo.data
    {
      Uart(rbr, thr, tsr, ier, iir, lcr, mcr, lsr, msr, scr, fcr, divider, thrPending, timeoutPending, lastBreakEnable,
           tsrRetry, pollMsl, recvFifoItl, recvFifo.Contents(), xmitFifo.Contents(), line)
    }

    constructor ()
      ensures Valid() && fresh(Repr()) && St() == PowerOn() && wire == []
    {
      recvFifo := new Fifo(FIFO_LENGTH);
      xmitFifo := new Fifo(FIFO_LENGTH);
      thr, tsr, fcr, timeoutPending := 0, 0, 0, false;
      recvFifoItl := 14;
      line, wire := Untold, [];
      new;
      hide Spec.Reset, PowerOn;
      ghost var was := St();
      Reset();
      ResetForgets(was);
    }

    method Reset()
      requires Valid()
      modifies Repr()
      ensures Valid() && St() == Spec.Reset(old(St())) && wire == old(wire)
    {
      ResetRegisters();
      ClearFifos();
      thrPending, lastBreakEnable := false, false;
    }

    method ClearFifos()
      requires Valid()
      modifies recvFifo, xmitFifo
      ensures Valid() && St() == old(St()).(recv := [], xmit := [])
    {
      recvFifo.Clear();
      xmitFifo.Clear();
    }

    method ResetRegisters()
      requires Valid()
      modifies this`rbr, this`ier, this`iir, this`lcr, this`lsr, this`msr, this`divider, this`mcr, this`scr,
        this`tsrRetry, this`pollMsl
      ensures Valid()
      ensures rbr == 0 && ier == 0 && iir == IIR_NO_INT && lcr == 0 && lsr == LSR_TEMT | LSR_THRE && msr == 0xB0
      ensures divider == 0x0C && mcr == 0x08 && scr == 0 && tsrRetry == 0 && pollMsl == 0
      ensures St() == old(St()).(rbr := rbr, ier := ier, iir := iir, lcr := lcr, lsr := lsr, msr := msr,
                divider := divider, mcr := mcr, scr := scr, tsrRetry := tsrRetry, pollMsl := pollMsl)
    {
      SetRegisters();
    }

    method SetRegisters()
      modifies this`rbr, this`ier, this`iir, this`lcr, this`lsr, this`msr, this`divider, this`mcr, this`scr,
        this`tsrRetry, this`pollMsl
      ensures rbr == 0 && ier == 0 && iir == IIR_NO_INT && lcr == 0 && lsr == LSR_TEMT | LSR_THRE && msr == 0xB0
      ensures divider == 0x0C && mcr == 0x08 && scr == 0 && tsrRetry == 0 && pollMsl == 0
    {
      rbr, ier, iir, lcr, lsr := 0, 0, IIR_NO_INT, 0, LSR_TEMT | LSR_THRE;
      msr := 0xB0;
      divider := 0x0C;
      mcr, scr, tsrRetry := 0x08, 0, 0;
      pollMsl := 0;
    }

    method Identify() returns (id: bv8)
      requires Valid()
      ensures id == Pending(St())
    {
      hide Has;
      id := IIR_NO_INT;
      if Has(ier, IER_RLSI) && Has(lsr, LSR_INT_ANY) {
        id := IIR_RLSI;
      } else if Has(ier, IER_RDI) && timeoutPending {
        id := IIR_CTI;
      } else if Has(ier, IER_RDI) && Has(lsr, LSR_DR) && (!Has(fcr, FCR_FE) || recvFifo.num >= recvFifoItl) {
        id := IIR_RDI;
      } else if Has(ier, IER_THRI) && thrPending {
        id := IIR_THRI;
      } else if Has(ier, IER_MSI) && Has(msr, MSR_ANY_DELTA) {
        id := IIR_MSI;
      }
    }

    method UpdateIRQ()
      requires Valid()
      modifies this`iir, this`line
      ensures Valid() && St() == UpdateIrq(old(St()))
    {
      hide Pending, Identified;
      ghost var was := St();
      var id := Identify();
      iir := Identified(iir, id);
      if id != IIR_NO_INT {
        line := High;
      } else {
        line := Low;
      }
      assert recvFifo.Contents() == was.recv && xmitFifo.Contents() == was.xmit;
    }

    method RecvFifoPut(b: bv8)
      requires Valid()
      modifies this`lsr, recvFifo, recvFifo.data
      ensures Valid() && St() == Spec.RecvFifoPut(old(St()), b)
    {
      hide With;
      if recvFifo.num < recvFifo.capacity {
        var _ := recvFifo.Push(b);
      } else {
        lsr := With(lsr, LSR_OE);
      }
    }

    method CanReceive() returns (n: nat)
      requires Valid()
      ensures n == Spec.CanReceive(St())
    {
      if Has(fcr, FCR_FE) {
        if recvFifo.num < FIFO_LENGTH {
          n := if recvFifo.num <= recvFifoItl then recvFifoItl - recvFifo.num else 1;
        } else {
          n := 0;
        }
      } else {
        n := if Has(lsr, LSR_DR) then 0 else 1;
      }
    }

    method PutAllReceived(buf: seq<bv8>)
      requires Valid()
      modifies this`lsr, recvFifo, recvFifo.data
      ensures Valid() && St() == RecvFifoPutAll(old(St()), buf)
    {
      hide Spec.RecvFifoPut;
      for i := 0 to |buf|
        invariant Valid() && St() == RecvFifoPutAll(old(St()), buf[..i])
      {
        RecvFifoPut(buf[i]);
        assert buf[..i + 1][..i] == buf[..i];
      }
      assert buf[..|buf|] == buf;
    }

    method Queue(buf: seq<bv8>)
      requires Valid()
      modifies this`lsr, recvFifo, recvFifo.data
      ensures Valid() && St() == Queued(old(St()), buf)
    {
      hide With, RecvFifoPutAll;
      PutAllReceived(buf);
      lsr := With(lsr, LSR_DR);
    }

    method Latch(b: bv8)
      requires Valid()
      modifies this`rbr, this`lsr
      ensures Valid() && St() == Latched(old(St()), b)
    {
      hide Has, With;
      if Has(lsr, LSR_DR) {
        lsr := With(lsr, LSR_OE);
      }
      rbr := b;
      lsr := With(lsr, LSR_DR);
    }

    method Receive(buf: seq<bv8>)
      requires Valid()
      requires Has(fcr, FCR_FE) || buf != []
      modifies this`rbr, this`lsr, this`iir, this`line, recvFifo, recvFifo.data
      ensures Valid() && St() == Spec.Receive(old(St()), buf)
    {
      hide Has, UpdateIrq, Queued, Latched;
      if Has(fcr, FCR_FE) {
        Queue(buf);
      } else {
        Latch(buf[0]);
      }
      UpdateIRQ();
    }

    method ReceiveBreak()
      requires Valid()
      modifies this`rbr, this`lsr, this`iir, this`line, recvFifo, recvFifo.data
      ensures Valid() && St() == Spec.ReceiveBreak(old(St()))
    {
      hide UpdateIrq, Broken;
      PutBreak();
      UpdateIRQ();
    }

    method PutBreak()
      requires Valid()
      modifies this`rbr, this`lsr, recvFifo, recvFifo.data
      ensures Valid() && St() == Broken(old(St()))
    {
      hide With, Spec.RecvFifoPut;
      ghost var was := St();
      rbr := 0;
      assert St() == was.(rbr := 0);
      RecvFifoPut(0);
      ghost var mid := St();
      lsr := With(lsr, LSR_BI | LSR_DR);
      assert xmitFifo.Contents() == mid.xmit && recvFifo.Contents() == mid.recv;
    }

    method FifoTimeoutInterrupt()
      requires Valid()
      modifies this`timeoutPending, this`iir, this`line
      ensures Valid() && St() == Spec.FifoTimeoutInterrupt(old(St()))
    {
      hide UpdateIrq;
      if recvFifo.num != 0 {
        timeoutPending := true;
        UpdateIRQ();
      }
    }

    method UpdateMSL()
      requires Valid()
      modifies this`pollMsl
      ensures Valid() && St() == UpdateMsl(old(St()))
    {
      pollMsl := -1;
    }

    method PopReceived() returns (value: bv8)
      requires Valid()
      modifies recvFifo
      ensures Valid() && value == if old(St()).recv != [] then old(St()).recv[0] else 0
      ensures var u := old(St()); St() == u.(recv := if u.recv != [] then u.recv[1..] else [])
    {
      value := 0;
      if recvFifo.num != 0 {
        var ok, b := recvFifo.Pop();
        value := b;
      }
    }

    /** Reading the receive buffer up to the UpdateIRQ call. */
    method Drain() returns (value: bv8)
      requires Valid() && !Has(lcr, LCR_DLAB)
      modifies this`lsr, this`timeoutPending, recvFifo
      ensures Valid() && value == ReadValue(old(St()), 0) && St() == Drained(old(St()))
    {
      hide Has, Without;
      if Has(fcr, FCR_FE) {
        value := PopReceived();
        if recvFifo.num == 0 {
          lsr := Without(lsr, LSR_DR | LSR_BI);
        }
        timeoutPending := false;
      } else {
        value := rbr;
        lsr := Without(lsr, LSR_DR | LSR_BI);
      }
    }

    method ReadBuffer() returns (value: bv8)
      requires Valid() && !Has(lcr, LCR_DLAB)
      modifies this`lsr, this`timeoutPending, this`iir, this`line, recvFifo
      ensures Valid() && value == ReadValue(old(St()), 0) && St() == ReadRbr(old(St()))
    {
      hide Has, ReadValue, Drained, UpdateIrq;
      value := Drain();
      UpdateIRQ();
    }

    method ReadId() returns (value: bv8)
      requires Valid()
      modifies this`thrPending, this`iir, this`line
      ensures Valid() && value == old(iir) && St() == ReadIir(old(St()))
    {
      hide UpdateIrq;
      value := iir;
      if value & IIR_ID == IIR_THRI {
        thrPending := false;
        UpdateIRQ();
      }
    }

    method ReadLineStatus() returns (value: bv8)
      requires Valid()
      modifies this`lsr, this`iir, this`line
      ensures Valid() && value == old(lsr) && St() == ReadLsr(old(St()))
    {
      hide Has, Without, UpdateIrq;
      value := lsr;
      if Has(lsr, LSR_BI | LSR_OE) {
        lsr := Without(lsr, LSR_BI | LSR_OE);
        UpdateIRQ();
      }
    }

    method ReadModemStatus() returns (value: bv8)
      requires Valid()
      modifies this`pollMsl, this`msr, this`iir, this`line
      ensures Valid() && value == ReadValue(old(St()), 6) && St() == ReadMsr(old(St()))
    {
      hide Has, DeltasRead;
      if Has(mcr, MCR_LOOP) {
        value := ((mcr & 0x0C) << 4) | ((mcr & 0x02) << 3) | ((mcr & 0x01) << 5);
      } else {
        if pollMsl >= 0 {
          UpdateMSL();
        }
        value := ReadDeltas();
      }
    }

    method ReadDeltas() returns (value: bv8)
      requires Valid()
      modifies this`msr, this`iir, this`line
      ensures Valid() && value == old(msr) && St() == DeltasRead(old(St()))
    {
      hide Has, Without, UpdateIrq;
      value := msr;
      if Has(msr, MSR_ANY_DELTA) {
        msr := Without(msr, MSR_ANY_DELTA);
        UpdateIRQ();
      }
    }

    method IORead(port: bv32) returns (value: bv8)
      requires Valid()
      modifies Repr()
      ensures Valid() && wire == old(wire)
      ensures value == ReadValue(old(St()), Register(port)) && St() == Spec.IORead(old(St()), Register(port))
    {
      hide Has, ReadRbr, ReadIir, ReadLsr, ReadMsr, Register;
      var i := Register(port);
      match i
      case 0 =>
        if Has(lcr, LCR_DLAB) {
          value := (divider & 0xFF) as bv8;
        } else {
          value := ReadBuffer();
        }
      case 1 => value := if Has(lcr, LCR_DLAB) then ((divider >> 8) & 0xFF) as bv8 else ier;
      case 2 => value := ReadId();
      case 3 => value := lcr;
      case 4 => value := mcr;
      case 5 => value := ReadLineStatus();
      case 6 => value := ReadModemStatus();
      case 7 => value := scr;
    }

    /** Transmit's taking of the next byte. */
    method Load()
      requires Valid()
      modifies this`tsr, this`lsr, xmitFifo
      ensures Valid() && St() == LoadTsr(old(St()))
    {
      hide Has, LoadedLsr;
      ghost var was := St();
      if Has(fcr, FCR_FE) {
        LoadFromFifo();
      } else {
        tsr := thr;
        lsr := Without(With(lsr, LSR_THRE), LSR_TEMT);
        assert xmitFifo.Contents() == was.xmit && recvFifo.Contents() == was.recv;
        LoadedLsrIs(was.lsr);
      }
    }

    method LoadFromFifo()
      requires Valid() && Has(fcr, FCR_FE)
      modifies this`tsr, this`lsr, xmitFifo
      ensures Valid() && St() == LoadTsr(old(St()))
    {
      hide Has, Shifted, LoadTsr, LoadedLsr, With;
      ghost var was := St();
      PopSend();
      ghost var mid := St();
      assert mid.lsr == was.lsr by { ShiftedKeepsLsr(was); }
      LoadTsrByShift(was, mid);
      LoadedLsrIs(was.lsr);
      if xmitFifo.num == 0 {
        lsr := With(lsr, LSR_THRE);
      }
      assert St() == mid.(lsr := lsr);
    }

    static lemma ShiftedKeepsLsr(u: Uart)
      ensures Shifted(u).lsr == u.lsr
    {
    }

    static lemma LoadedLsrIs(lsr: bv8)
      ensures LoadedLsr(lsr, false, true) == Without(With(lsr, LSR_THRE), LSR_TEMT) == LoadedLsr(lsr, false, false)
      ensures LoadedLsr(lsr, true, true) == With(lsr, LSR_THRE) && LoadedLsr(lsr, true, false) == lsr
    {
    }

    method PopSend()
      requires Valid()
      modifies this`tsr, xmitFifo
      ensures Valid() && St() == Shifted(old(St()))
    {
      if xmitFifo.num == xmitFifo.capacity {
        tsr := 0;
      } else {
        var ok, b := xmitFifo.Pop();
        if ok {
          tsr := b;
        }
      }
    }

    method Finish()
      requires Valid()
      modifies this`lsr, this`thrPending, this`iir, this`line
      ensures Valid() && St() == FinishTransmit(old(St()))
    {
      hide Has, With, UpdateIrq;
      if Has(lsr, LSR_THRE) {
        lsr := With(lsr, LSR_TEMT);
        thrPending := true;
        UpdateIRQ();
      }
    }

    method Transmit(accepts: bool)
      requires Valid()
      modifies Repr()
      ensures Valid() && St() == Spec.Transmit(old(St()), accepts)
      ensures wire == old(wire) + Offer(old(St()))
    {
      hide Has, LoadTsr, FinishTransmit, Spec.Receive, Delivered;
      if tsrRetry <= 0 {
        if !Has(fcr, FCR_FE) && Has(lsr, LSR_THRE) {
          return;
        }
        Load();
      }
      Deliver(accepts);
    }

    /** The rest of Transmit, with the byte in the shift register. */
    method Deliver(accepts: bool)
      requires Valid()
      modifies Repr()
      ensures Valid() && St() == Delivered(old(St()), accepts)
      ensures wire == old(wire) + if Has(old(mcr), MCR_LOOP) then [] else [old(tsr)]
    {
      hide Has, FinishTransmit, Offering, TriesAgain;
      var again := OfferByte(accepts);
      if again {
        return;
      }
      Finish();
    }

    method OfferByte(accepts: bool) returns (again: bool)
      requires Valid()
      modifies Repr()
      ensures Valid() && St() == Offering(old(St()), accepts) && again == TriesAgain(old(St()), accepts)
      ensures wire == old(wire) + if Has(old(mcr), MCR_LOOP) then [] else [old(tsr)]
    {
      hide Has, Spec.Receive;
      again := false;
      if Has(mcr, MCR_LOOP) {
        Receive([tsr]);
      } else {
        wire := wire + [tsr];
        if !accepts && 0 <= tsrRetry < MAX_XMIT_RETRY {
          tsrRetry := tsrRetry + 1;
          again := true;
        } else {
          tsrRetry := 0;
        }
      }
    }

    /** Writing the transmit holding register up to the Transmit call. */
    method Fill(b: bv8)
      requires Valid()
      modifies this`thr, this`lsr, this`thrPending, this`iir, this`line, xmitFifo, xmitFifo.data
      ensures Valid() && St() == Hold(old(St()), b)
    {
      hide UpdateIrq, Held;
      FillRegister(b);
      UpdateIRQ();
    }

    method FillRegister(b: bv8)
      requires Valid()
      modifies this`thr, this`lsr, this`thrPending, xmitFifo, xmitFifo.data
      ensures Valid() && St() == Held(old(St()), b)
    {
      hide Has, Without, Stored;
      Store(b);
      ghost var mid := St();
      lsr := if Has(fcr, FCR_FE) then Without(lsr, LSR_TEMT | LSR_THRE) else Without(lsr, LSR_THRE);
      thrPending := false;
      assert xmitFifo.Contents() == mid.xmit && recvFifo.Contents() == mid.recv;
    }

    method Store(b: bv8)
      requires Valid()
      modifies this`thr, xmitFifo, xmitFifo.data
      ensures Valid() && St() == Stored(old(St()), b)
    {
      hide Has;
      if Has(fcr, FCR_FE) {
        PushSend(b);
      }
      thr := b;
    }

    method PushSend(b: bv8)
      requires Valid()
      modifies xmitFifo, xmitFifo.data
      ensures Valid()
      ensures var u := old(St());
        St() == u.(xmit := (if |u.xmit| == FIFO_LENGTH then u.xmit[1..] else u.xmit) + [b])
    {
      if xmitFifo.num == xmitFifo.capacity {
        var _ := xmitFifo.Discard();
      }
      var _ := xmitFifo.Push(b);
    }

    method SetEnables(b: bv8)
      requires Valid()
      modifies this`ier, this`pollMsl, this`thrPending, this`iir, this`line
      ensures Valid() && St() == WriteIer(old(St()), b)
    {
      hide Has, EnablesSet, UpdateIrq;
      SetEnablesAndPoll(b);
      if Has(lsr, LSR_THRE) {
        thrPending := true;
        UpdateIRQ();
      }
    }

    method SetEnablesAndPoll(b: bv8)
      requires Valid()
      modifies this`ier, this`pollMsl
      ensures Valid() && St() == EnablesSet(old(St()), b)
    {
      hide Has, Without;
      ghost var was := St();
      ier := Without(b, 0xF0);
      if pollMsl >= 0 {
        if Has(ier, IER_MSI) {
          pollMsl := 1;
          UpdateMSL();
        } else {
          pollMsl := 0;
        }
      }
      assert xmitFifo.Contents() == was.xmit && recvFifo.Contents() == was.recv;
    }

    method SetFifoControl(b: bv8)
      requires Valid()
      modifies Repr()
      ensures Valid() && St() == WriteFcr(old(St()), b) && wire == old(wire)
    {
      hide Has, With, UpdateIrq, FcrWritten;
      if fcr == b {
        return;
      }
      var value := b;
      if Has(value ^ fcr, FCR_FE) {
        value := With(value, FCR_XFR | FCR_RFR);
      }
      ApplyFifoControl(value);
      UpdateIRQ();
    }

    method ApplyFifoControl(value: bv8)
      requires Valid()
      modifies this`timeoutPending, this`iir, this`recvFifoItl, this`fcr, recvFifo, xmitFifo
      ensures Valid() && St() == FcrWritten(old(St()), value)
    {
      hide Has, Flushed;
      Flush(value);
      SetFcr(value);
    }

    method SetFcr(value: bv8)
      requires Valid()
      modifies this`iir, this`recvFifoItl, this`fcr
      ensures Valid()
      ensures var u := old(St());
        St() == u.(iir := if Has(value, FCR_FE) then With(u.iir, IIR_FE) else Without(u.iir, IIR_FE),
                   itl := if Has(value, FCR_FE) then TriggerLevel(value) else u.itl,
                   fcr := Without(value, 0x36))
    {
      hide Has, With, Without, TriggerLevel;
      if Has(value, FCR_FE) {
        iir := With(iir, IIR_FE);
        recvFifoItl := TriggerLevel(value);
      } else {
        iir := Without(iir, IIR_FE);
      }
      fcr := Without(value, 0x36);
    }

    method Flush(value: bv8)
      requires Valid()
      modifies this`timeoutPending, recvFifo, xmitFifo
      ensures Valid() && St() == Flushed(old(St()), value)
    {
      hide Has;
      if Has(value, FCR_RFR) {
        timeoutPending := false;
        recvFifo.Clear();
      }
      if Has(value, FCR_XFR) {
        xmitFifo.Clear();
      }
    }

    method SetLineControl(b: bv8)
      requires Valid()
      modifies this`lcr, this`lastBreakEnable
      ensures Valid() && St() == WriteLcr(old(St()), b)
    {
      hide Has;
      lcr := b;
      var breakEnable := Has(b, 0x40);
      if breakEnable != lastBreakEnable {
        lastBreakEnable := breakEnable;
      }
    }

    method SetModemControl(b: bv8)
      requires Valid()
      modifies this`mcr
      ensures Valid() && St() == WriteMcr(old(St()), b)
    {
      mcr := Without(b, 0xE0);
    }

    method IOWrite(port: bv32, value: bv32, accepts: bool)
      requires Valid()
      modifies Repr()
      ensures Valid() && St() == Spec.IOWrite(old(St()), Register(port), value, accepts)
      ensures wire == old(wire) + Offered(old(St()), Register(port), value)
    {
      hide Has, Hold, Spec.Transmit, Offer, WriteIer, WriteFcr, WriteLcr, Register, WriteMcr,
        LowByte, WithLowByte, WithHighByte;
      var b := LowByte(value);
      match Register(port)
      case 0 =>
        if Has(lcr, LCR_DLAB) {
          divider := WithLowByte(divider, value);
        } else {
          Fill(b);
          Transmit(accepts);
        }
      case 1 =>
        if Has(lcr, LCR_DLAB) {
          divider := WithHighByte(divider, value);
        } else {
          SetEnables(b);
        }
      case 2 => SetFifoControl(b);
      case 3 => SetLineControl(b);
      case 4 => SetModemControl(b);
      case 5 =>
      case 6 =>
      case 7 => scr := b;
    }
  }
}
