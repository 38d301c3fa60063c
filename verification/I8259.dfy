/**
The i8259 class of i8259.cpp: two interrupt controllers whose registers are
updated in place by mutually recursive methods. Every method is proved to do what
the functions of PicCascade say; `hist` records what they need for their history.
*/
module I8259Device {
  import opened PicChip
  import opened PicCascade

  class I8259 {
    /** The registers of PIC_MASTER at index 0 and of PIC_SLAVE at index 1. */
    const pics: array<Chip>
    ghost var hist: History

    ghost predicate Allocated()
      reads this
    {
      pics.Length == 2
    }

    /** The registers are left unset, as in the source: Reset brings them to their state after power-on. */
    constructor ()
      ensures Allocated() && fresh(pics) && hist == History([], [], [], [], [])
    {
      pics := new Chip[2];
      hist := History([], [], [], [], []);
    }

    ghost function St(): State
      requires Allocated()
      reads this, pics
    {
      State(pics[0], pics[1], hist)
    }

    function Index(id: Id): nat {
      if id == Master then 0 else 1
    }

    /** GetPriority: the loop over the rotated priorities. */
    method GetPriority(id: Id, mask: Mask) returns (priority: nat)
      requires Allocated()
      ensures priority == Priority(mask, pics[Index(id)].priorityAdd)
    {
      if mask == {} {
        PriorityIsMinimum(mask, pics[Index(id)].priorityAdd);
        return 8;
      }
      PriorityIsMinimum(mask, pics[Index(id)].priorityAdd);
      priority := 0;
      while Wrap(priority + pics[Index(id)].priorityAdd) !in mask
        invariant priority < 8
        invariant FirstFrom(mask, pics[Index(id)].priorityAdd, priority) == Priority(mask, pics[Index(id)].priorityAdd)
        decreases 8 - priority
      {
        priority := priority + 1;
      }
    }

    method GetIRQ(id: Id) returns (irq: int)
      requires Allocated()
      ensures irq == GetIrq(pics[Index(id)], id)
    {
      var mask := pics[Index(id)].irr - pics[Index(id)].imr;
      var priority := GetPriority(id, mask);
      if priority == 8 {
        return -1;
      }
      mask := pics[Index(id)].isr;
      if pics[Index(id)].specialMask {
        mask := mask - pics[Index(id)].imr;
      }
      if pics[Index(id)].specialFullyNested && id == Master {
        mask := mask - {CASCADE};
      }
      var currentPriority := GetPriority(id, mask);
      if priority < currentPriority {
        return Wrap(priority + pics[Index(id)].priorityAdd);
      }
      return -1;
    }

    method SetIRQ(id: Id, index: nat, asserted: bool)
      requires Allocated() && Terminates(Entry(Latch(St(), id, index, asserted), id))
      modifies this`hist, pics
      ensures St() == Settle(Entry(Latch(old(St()), id, index, asserted), id))
      decreases Depth(Entry(Latch(St(), id, index, asserted), id)), if id == Slave then 5 else 3
    {
      ghost var s := St();
      if index < 8 {
        LatchRegisters(id, index, asserted);
      }
      hide LatchLine, Halts, Settle, Cascade;
      UpdateIRQ(id);
    }

    /** The register changes of SetIRQ. */
    method LatchRegisters(id: Id, line: Line, asserted: bool)
      requires Allocated()
      modifies this`hist, pics
      ensures St() == LatchLine(old(St()), id, line, asserted)
    {
      ghost var s := St();
      var c := pics[Index(id)];
      var irr, prevIrr := c.irr, c.prevIrr;
      if line in c.elcr {
        if asserted {
          irr, prevIrr := irr + {line}, prevIrr + {line};
        } else {
          irr, prevIrr := irr - {line}, prevIrr - {line};
        }
      } else if asserted {
        if line !in prevIrr {
          irr := irr + {line};
        }
        prevIrr := prevIrr + {line};
      } else {
        irr, prevIrr := irr - {line}, prevIrr - {line};
      }
      pics[Index(id)] := c.(irr := irr, prevIrr := prevIrr);
      hist := LatchLine(s, id, line, asserted).hist;
    }

    method UpdateIRQ(id: Id)
      requires Allocated() && Terminates(Entry(St(), id))
      modifies this`hist, pics
      ensures St() == Settle(Entry(old(St()), id))
      decreases Depth(Entry(St(), id)), if id == Slave then 4 else 2
    {
      ghost var s := St();
      var irq := GetIRQ(id);
      hide GetIrq, LatchLine, Delivery, Terminates, Settle, CurrentIrq;
      if irq >= 0 {
        pics[Index(id)] := pics[Index(id)].(output := true);
      } else {
        pics[Index(id)] := pics[Index(id)].(output := false);
      }
      if id == Slave {
        assert St() == s.(slave := s.slave.(output := irq >= 0));
        SetIRQ(Master, CASCADE, pics[1].output);
      } else {
        assert St() == SetOutput(s, irq >= 0);
        SettleUnfolds(s);
      }
      if id == Master && pics[0].output {
        var vector := GetCurrentIRQ();
        hist := hist.(vectors := hist.vectors + [vector]);
      }
    }

    /**
    Acknowledges the best request; UpdateIRQ, which raises the output before it
    calls this, hands the vector to the processor.
    */
    method GetCurrentIRQ() returns (vector: int)
      requires Allocated() && Terminates(St()) && pics[0].output
      modifies this`hist, pics
      ensures GetIrq(old(St()).master, Master) >= 0 ==>
                St() == CurrentIrq(old(St())).0 && vector == CurrentIrq(old(St())).1
      ensures GetIrq(old(St()).master, Master) < 0 ==> St() == old(St()) && vector == pics[0].base + 7
      decreases Depth(St()), 1
    {
      ghost var s := St();
      hide Acknowledge, Cascade, GetIrq, CurrentIrq, Settle, Terminates, Halts, Delivery, Depth;
      var masterIrq := GetIRQ(Master);
      if masterIrq < 0 {
        return pics[0].base + 7;
      }
      if masterIrq != CASCADE {
        MasterUnfolds(s, masterIrq);
        vector := Serve(Master, masterIrq);
        return;
      }
      vector := GetSlaveIRQ();
    }

    /** GetCurrentIRQ when the master's request came from the slave. */
    method GetSlaveIRQ() returns (vector: int)
      requires Allocated() && Terminates(St()) && pics[0].output && GetIrq(pics[0], Master) == CASCADE
      modifies this`hist, pics
      ensures St() == CurrentIrq(old(St())).0 && vector == CurrentIrq(old(St())).1
      decreases Depth(St()), 0
    {
      ghost var s := St();
      assert Index(Slave) == 1 && s.slave == pics[1] && s.master == pics[0];
      hide *;
      var slaveIrq := GetIRQ(Slave);
      if slaveIrq < 0 {
        SpuriousUnfolds(s);
        return pics[1].base + 7;
      }
      SlaveUnfolds(s, slaveIrq);
      vector := Serve(Slave, slaveIrq);
    }

    method Serve(id: Id, irq: Line) returns (vector: int)
      requires Allocated() && Terminates(Entry(Acknowledge(St(), id, irq), id))
      modifies this`hist, pics
      ensures St() == Settle(Entry(Acknowledge(old(St()), id, irq), id))
      ensures vector == St().Get(id).base + irq
      decreases Depth(Entry(Acknowledge(St(), id, irq), id)), 7
    {
      AcknowledgeIRQ(id, irq);
      vector := pics[Index(id)].base + irq;
    }

    method AcknowledgeIRQ(id: Id, index: Line)
      requires Allocated() && Terminates(Entry(Acknowledge(St(), id, index), id))
      modifies this`hist, pics
      ensures St() == Settle(Entry(Acknowledge(old(St()), id, index), id))
      decreases Depth(Entry(Acknowledge(St(), id, index), id)), 6
    {
      ghost var s := St();
      AckRegisters(id, index);
      hide Acknowledge, Halts, Settle, Cascade;
      UpdateIRQ(id);
    }

    /** The register changes of AcknowledgeIRQ. */
    method AckRegisters(id: Id, index: Line)
      requires Allocated()
      modifies this`hist, pics
      ensures St() == Acknowledge(old(St()), id, index)
    {
      ghost var s := St();
      var c := pics[Index(id)];
      var priorityAdd, isr, irr := c.priorityAdd, c.isr, c.irr;
      if c.autoEoi {
        if c.rotateOnAutoEoi {
          priorityAdd := Wrap(index + 1);
        }
      } else {
        isr := isr + {index};
      }
      if index !in c.elcr {
        irr := irr - {index};
      }
      hide Without;
      pics[Index(id)] := c.(priorityAdd := priorityAdd, isr := isr, irr := irr);
      hist := Acknowledge(s, id, index).hist;
    }

    /** Reset(pic): clears one controller. */
    method ResetPic(id: Id)
      requires Allocated() && Terminates(Entry(ClearRegisters(St(), id), id))
      modifies this`hist, pics
      ensures St() == Settle(Entry(ClearRegisters(old(St()), id), id))
    {
      ghost var s := St();
      pics[Index(id)] := ResetChip(pics[Index(id)]);
      hist := s.WithServed(id, []).hist;
      UpdateIRQ(id);
    }

    /** Reset(): the state after power-on, whatever the registers held. */
    method Reset()
      requires Allocated()
      modifies this`hist, pics
      ensures St() == PowerOn(old(St()))
    {
      ghost var s := St();
      ClearedIsQuiet(s);
      ResetPic(Master);
      ResetPic(Slave);
      pics[0] := pics[0].(elcr := {}, elcrMask := Bits(MASTER_ELCR_MASK));
      pics[1] := pics[1].(elcr := {}, elcrMask := Bits(SLAVE_ELCR_MASK));
    }

    /** HandleIRQ. A line number above 39 would be a shift by more than 31 bits, which C++ leaves undefined. */
    method HandleIRQ(irqNum: nat, level: bool)
      requires Allocated() && irqNum < 40
      requires Legal(St(), Irq(irqNum, level))
      modifies this`hist, pics
      ensures St() == Step(old(St()), Irq(irqNum, level))
    {
      hide Latch, Terminates, Settle;
      if irqNum <= 7 {
        SetIRQ(Master, irqNum, level);
      } else {
        SetIRQ(Slave, irqNum - 8, level);
      }
    }

    method Poll(id: Id) returns (value: nat)
      requires Allocated()
      requires var p := PreparePoll(St(), id); p.Raise? ==> Terminates(Entry(p.s, id))
      modifies this`hist, pics
      ensures value == PollValue(old(St()).Get(id), id)
      ensures var p := PreparePoll(old(St()), id);
              St() == if p.Raise? then Settle(Entry(p.s, id)) else p.s
    {
      ghost var s := St();
      pics[Index(id)] := pics[Index(id)].(poll := false);
      assert St() == EndPoll(s, id);
      PollFlagIsNoInput(s.Get(id), id);
      hide GetIrq, Acknowledge, Terminates, Settle, Cascade;
      var irq := GetIRQ(id);
      if irq >= 0 {
        AcknowledgeIRQ(id, irq);
        return irq + 0x80;
      }
      return 0;
    }

    method CommandRead(id: Id) returns (value: nat)
      requires Allocated()
      requires var p := PrepareRead(St(), id); p.Raise? ==> Terminates(Entry(p.s, id))
      modifies this`hist, pics
      ensures var c := old(St()).Get(id); value == if c.poll then PollValue(c, id) else ByteOf(c.isr)
      ensures var p := PrepareRead(old(St()), id);
              St() == if p.Raise? then Settle(Entry(p.s, id)) else p.s
    {
      hide PreparePoll, PollValue, Terminates, Settle, Cascade;
      if pics[Index(id)].poll {
        value := Poll(id);
      } else {
        value := ByteOf(pics[Index(id)].isr);
      }
    }

    method DataRead(id: Id) returns (value: nat)
      requires Allocated()
      requires var p := PrepareRead(St(), id); p.Raise? ==> Terminates(Entry(p.s, id))
      modifies this`hist, pics
      ensures var c := old(St()).Get(id); value == if c.poll then PollValue(c, id) else ByteOf(c.imr)
      ensures var p := PrepareRead(old(St()), id);
              St() == if p.Raise? then Settle(Entry(p.s, id)) else p.s
    {
      hide PreparePoll, PollValue, Terminates, Settle, Cascade;
      if pics[Index(id)].poll {
        value := Poll(id);
      } else {
        value := ByteOf(pics[Index(id)].imr);
      }
    }

    method CommandWrite(id: Id, value: nat)
      requires Allocated()
      requires var p := PrepareCommand(St(), id, value); p.Raise? ==> Terminates(Entry(p.s, id))
      modifies this`hist, pics
      ensures var p := PrepareCommand(old(St()), id, value);
              var t := if p.Raise? then Settle(Entry(p.s, id)) else p.s;
              St() == if IsIcw1(value) then StartInit(t, id, value) else t
    {
      hide Terminates, Settle, Cascade, Without, Bit;
      if IsIcw1(value) {
        ResetPic(id);
        pics[Index(id)] := pics[Index(id)].(initState := 1, is4ByteInit := Bit(value, 0));
        return;
      }
      if IsOcw3(value) {
        WriteOperation3(id, value);
        return;
      }
      WriteOperation2(id, value);
    }

    method WriteOperation3(id: Id, value: nat)
      requires Allocated()
      modifies pics
      ensures St() == old(St()).With(id, WriteOcw3(old(St()).Get(id), value))
    {
      hide Bit;
      var c := pics[Index(id)];
      var poll, readSelect, specialMask := c.poll, c.readSelect, c.specialMask;
      if Bit(value, 2) {
        poll := true;
      }
      if Bit(value, 1) {
        readSelect := Bit(value, 0);
      }
      if Bit(value, 6) {
        specialMask := Bit(value, 5);
      }
      pics[Index(id)] := c.(poll := poll, readSelect := readSelect, specialMask := specialMask);
    }

    method WriteOperation2(id: Id, value: nat)
      requires Allocated()
      requires var p := PrepareOcw2(St(), id, DecodeOcw2(St().Get(id), value));
               p.Raise? ==> Terminates(Entry(p.s, id))
      modifies this`hist, pics
      ensures var p := PrepareOcw2(old(St()), id, DecodeOcw2(old(St()).Get(id), value));
              St() == if p.Raise? then Settle(Entry(p.s, id)) else p.s
    {
      hide Terminates, Settle, Cascade, Without, Priority;
      var command := value / 32;
      var line: Line := value % 8;
      var add := pics[Index(id)].priorityAdd;
      if command == 0 || command == 4 {
        pics[Index(id)] := pics[Index(id)].(rotateOnAutoEoi := command == 4);
      } else if command == 1 || command == 5 {
        var priority := GetPriority(id, pics[Index(id)].isr);
        if priority == 8 {
          return;
        }
        var irq: Line := Wrap(priority + add);
        Retire(id, irq, if command == 5 then Wrap(irq + 1) else add);
        UpdateIRQ(id);
      } else if command == 3 {
        Retire(id, line, add);
        UpdateIRQ(id);
      } else if command == 6 {
        pics[Index(id)] := pics[Index(id)].(priorityAdd := Wrap(line + 1));
        UpdateIRQ(id);
      } else if command == 7 {
        Retire(id, line, Wrap(line + 1));
        UpdateIRQ(id);
      }
    }

    /** Takes a line out of service, and makes `add` the lowest priority. */
    method Retire(id: Id, line: Line, add: Line)
      requires Allocated()
      modifies this`hist, pics
      ensures St() == PrepareOcw2(old(St()), id, Ocw2.Retire(line, add)).s
    {
      hide Without;
      ghost var s := St();
      pics[Index(id)] := pics[Index(id)].(isr := pics[Index(id)].isr - {line});
      pics[Index(id)] := pics[Index(id)].(priorityAdd := add);
      hist := s.WithServed(id, Without(s.Served(id), line)).hist;
    }

    method DataWrite(id: Id, value: nat)
      requires Allocated()
      requires var p := PrepareData(St(), id, value); p.Raise? ==> Terminates(Entry(p.s, id))
      modifies this`hist, pics
      ensures var p := PrepareData(old(St()), id, value);
              St() == if p.Raise? then Settle(Entry(p.s, id)) else p.s
    {
      hide Terminates, Settle, Cascade, Bits, Bit, VectorBase;
      var c := pics[Index(id)];
      match c.initState {
        case 0 =>
          pics[Index(id)] := c.(imr := Bits(value));
          UpdateIRQ(id);
        case 1 =>
          pics[Index(id)] := c.(base := VectorBase(value), initState := 2);
        case 2 =>
          if c.is4ByteInit {
            pics[Index(id)] := c.(initState := 3);
          } else {
            pics[Index(id)] := c.(initState := 0);
          }
        case 3 =>
          pics[Index(id)] := c.(specialFullyNested := Bit(value, 4), autoEoi := Bit(value, 1), initState := 0);
        case _ =>
      }
    }

    method IORead(port: nat) returns (ok: bool, value: nat)
      requires Allocated() && Legal(St(), In(port))
      modifies this`hist, pics
      ensures St() == Step(old(St()), In(port))
      ensures ok == ReadValue(old(St()), port).Some?
      ensures ok ==> value == ReadValue(old(St()), port).value
    {
      hide Terminates, Settle, Cascade, PrepareRead, PollValue;
      ok, value := true, 0;
      if port == MASTER_COMMAND {
        value := CommandRead(Master);
      } else if port == SLAVE_COMMAND {
        value := CommandRead(Slave);
      } else if port == MASTER_DATA {
        value := DataRead(Master);
      } else if port == SLAVE_DATA {
        value := DataRead(Slave);
      } else if port == MASTER_ELCR {
        value := ByteOf(pics[0].elcr);
      } else if port == SLAVE_ELCR {
        value := ByteOf(pics[1].elcr);
      } else {
        ok := false;
      }
    }

    method IOWrite(port: nat, value: nat) returns (ok: bool)
      requires Allocated() && Legal(St(), Out(port, value))
      modifies this`hist, pics
      ensures St() == Step(old(St()), Out(port, value))
      ensures ok == ReadValue(old(St()), port).Some?
    {
      hide Terminates, Settle, Cascade, PrepareCommand, PrepareData, IsIcw1, Bits;
      ok := true;
      if port == MASTER_COMMAND {
        CommandWrite(Master, value);
      } else if port == SLAVE_COMMAND {
        CommandWrite(Slave, value);
      } else if port == MASTER_DATA {
        DataWrite(Master, value);
      } else if port == SLAVE_DATA {
        DataWrite(Slave, value);
      } else if port == MASTER_ELCR {
        pics[0] := pics[0].(elcr := Bits(value) * pics[0].elcrMask);
      } else if port == SLAVE_ELCR {
        pics[1] := pics[1].(elcr := Bits(value) * pics[1].elcrMask);
      } else {
        ok := false;
      }
    }
  }

  lemma PollFlagIsNoInput(c: Chip, id: Id)
    ensures GetIrq(c.(poll := false), id) == GetIrq(c, id)
  {
  }

  /** With both request registers cleared there is nothing to deliver. */
  lemma ClearedIsQuiet(s: State)
    ensures var m := ClearRegisters(s, Master);
            && Delivery(m).None? && Halts(m, 0) && GetIrq(m.master, Master) == -1
            && Settle(m) == m
            && var e := Cascade(ClearRegisters(m, Slave));
               && e == ClearRegisters(m, Slave)
               && Halts(e, 0)
               && Settle(e) == e
  {
    var m := ClearRegisters(s, Master);
    var b := ClearRegisters(m, Slave);
    assert Requests(m.master) == {} && Requests(b.slave) == {};
    GetIrqPicksBest(m.master, Master);
    GetIrqPicksBest(b.slave, Slave);
    assert Cascade(b) == b;
    assert Halts(m, 0);
    assert Halts(b, 0);
  }

  lemma RaisedIsSame(s: State)
    requires s.master.output
    ensures SetOutput(s, true) == s
  {
  }

  lemma MasterUnfolds(s: State, irq: Line)
    requires Terminates(s) && s.master.output && GetIrq(s.master, Master) == irq && irq != CASCADE
    ensures var e := Entry(Acknowledge(s, Master, irq), Master);
            && Terminates(e) && Depth(e) < Depth(s)
            && CurrentIrq(s) == (Settle(e), Settle(e).master.base + irq)
  {
    hide Acknowledge, GetIrq, Halts, Terminates, Settle, Depth;
    RaisedIsSame(s);
    NextRound(s);
  }

  lemma SlaveUnfolds(s: State, irq: Line)
    requires Terminates(s) && s.master.output && GetIrq(s.master, Master) == CASCADE
    requires GetIrq(s.slave, Slave) == irq
    ensures var e := Entry(Acknowledge(s, Slave, irq), Slave);
            && Terminates(e) && Depth(e) < Depth(s)
            && CurrentIrq(s) == (Settle(e), Settle(e).slave.base + irq)
  {
    hide Acknowledge, Cascade, GetIrq, Halts, Terminates, Settle, Depth;
    RaisedIsSame(s);
    NextRound(s);
  }

  lemma SpuriousUnfolds(s: State)
    requires Terminates(s) && s.master.output && GetIrq(s.master, Master) == CASCADE
    requires GetIrq(s.slave, Slave) < 0
    ensures CurrentIrq(s) == (s, s.slave.base + 7)
  {
    RaisedIsSame(s);
    hide GetIrq;
  }

  /** Raising the master's output changes nothing that the recursion reads. */
  lemma RaisedOutput(s: State)
    ensures var raised := SetOutput(s, true);
            && SetOutput(raised, true) == raised
            && GetIrq(raised.master, Master) == GetIrq(s.master, Master)
            && Delivery(raised) == Delivery(s)
  {
    assert SetOutput(SetOutput(s, true), true) == SetOutput(s, true);
  }

  lemma SettleUnfolds(s: State)
    requires Terminates(s)
    ensures GetIrq(s.master, Master) < 0 ==> Settle(s) == SetOutput(s, false)
    ensures GetIrq(s.master, Master) >= 0 ==>
              var raised := SetOutput(s, true);
              && Terminates(raised) && Depth(raised) == Depth(s)
              && GetIrq(raised.master, Master) == GetIrq(s.master, Master)
              && Settle(s) == Send(CurrentIrq(raised).0, CurrentIrq(raised).1)
  {
    hide GetIrq, Delivery;
    RaisedOutput(s);
    SameRounds(s, SetOutput(s, true));
  }
}
