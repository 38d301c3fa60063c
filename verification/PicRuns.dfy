/**
What holds over whole runs of port accesses and device interrupts.
*/
module PicRuns {
  import opened PicChip
  import opened PicCascade
  import opened PicDelivery

  /** An invariant of rounds and of ICW1's last step that an operation's own changes establish holds after it. */
  lemma StepKeeps(s: State, op: Op, inv: State -> bool)
    requires Legal(s, op)
    requires var p := Prepare(s, op); inv(if p.Quiet? then p.s else Entry(p.s, p.id))
    requires forall t :: inv(t) && Delivery(t).Some? ==> inv(Delivery(t).value)
    requires forall t, out :: inv(t) ==> inv(SetOutput(t, out))
    requires forall t, v :: inv(t) ==> inv(Send(t, v))
    requires forall t, id, v :: inv(t) ==> inv(StartInit(t, id, v))
    ensures inv(Step(s, op))
  {
    hide Delivery, Prepare, SetOutput, Send, StartInit, Entry;
    var p := Prepare(s, op);
    if p.Raise? {
      SettleKeeps(Entry(p.s, p.id), inv);
    }
  }

  // ----- Registers stay in range -----

  /** Requests are lines that were seen high, the cascade line is edge triggered, vectors fit a byte. */
  ghost predicate ValidChip(c: Chip, id: Id) {
    && c.irr <= c.prevIrr
    && c.elcr <= c.elcrMask
    && (id == Master ==> CASCADE !in c.elcrMask)
    && c.base % 8 == 0 && c.base <= 248
  }

  ghost predicate Valid(s: State) {
    ValidChip(s.master, Master) && ValidChip(s.slave, Slave)
  }

  lemma PowerOnIsValid(s: State)
    ensures Valid(PowerOn(s))
  {
    assert Bit(MASTER_ELCR_MASK, 2) == Bit(0x7C, 1) == Bit(0x3E, 0) == false;
  }

  lemma WritesKeepValidChip(c: Chip, id: Id, value: nat)
    requires ValidChip(c, id)
    ensures ValidChip(ResetChip(c), id)
    ensures ValidChip(WriteOcw2(c, DecodeOcw2(c, value)), id)
    ensures ValidChip(WriteOcw3(c, value), id)
    ensures ValidChip(WriteData(c, value), id)
    ensures ValidChip(c.(elcr := Bits(value) * c.elcrMask), id)
  {
    hide Bit, Bits, DecodeOcw2, VectorBase;
  }

  lemma WritesKeepValid(s: State, id: Id, value: nat)
    requires Valid(s)
    ensures Valid(PrepareCommand(s, id, value).s)
    ensures Valid(PrepareData(s, id, value).s)
    ensures Valid(PrepareElcr(s, id, value).s)
  {
    WritesKeepValidChip(s.Get(id), id, value);
    hide Bit, Bits, DecodeOcw2, Without, ResetChip, WriteOcw2, WriteOcw3, WriteData, ValidChip, IsIcw1, IsOcw3;
  }

  lemma ReadKeepsValid(s: State, id: Id)
    requires Valid(s)
    ensures Valid(PrepareRead(s, id).s)
  {
    hide GetIrq, Without;
  }

  lemma LatchKeepsValid(s: State, id: Id, index: nat, level: bool)
    requires Valid(s)
    ensures Valid(Latch(s, id, index, level))
  {
  }

  lemma PrepareKeepsValid(s: State, op: Op)
    requires Valid(s)
    ensures Valid(Prepare(s, op).s)
  {
    hide PrepareCommand, PrepareData, PrepareElcr, PrepareRead, Latch, Valid;
    match op
    case Irq(n, level) =>
      LatchKeepsValid(s, Master, n, level);
      LatchKeepsValid(s, Slave, if n <= 7 then 0 else n - 8, level);
    case Out(port, value) =>
      forall id ensures Valid(PrepareCommand(s, id, value).s)
        ensures Valid(PrepareData(s, id, value).s) ensures Valid(PrepareElcr(s, id, value).s)
      {
        WritesKeepValid(s, id, value);
      }
    case In(port) =>
      ReadKeepsValid(s, Master);
      ReadKeepsValid(s, Slave);
  }

  lemma CascadeKeepsValid(s: State)
    requires Valid(s)
    ensures Valid(Cascade(s))
  {
    hide GetIrq;
  }

  lemma RoundKeepsValid(s: State)
    requires Valid(s) && Delivery(s).Some?
    ensures Valid(Delivery(s).value)
  {
    RoundShape(s);
    hide GetIrq, Delivery;
  }

  lemma StepKeepsValid(s: State, op: Op)
    requires Valid(s) && Legal(s, op)
    ensures Valid(Step(s, op))
  {
    forall t | Valid(t) && Delivery(t).Some? ensures Valid(Delivery(t).value) {
      RoundKeepsValid(t);
    }
    PrepareKeepsValid(s, op);
    CascadeKeepsValid(Prepare(s, op).s);
    hide Delivery, Prepare, Cascade;
    StepKeeps(s, op, t => Valid(t));
  }

  /** Registers stay in range over every run. */
  lemma RunKeepsValid(s: State, ops: seq<Op>)
    requires CanRun(s, ops) && Valid(s)
    ensures Valid(Run(s, ops))
  {
    forall t, op | Valid(t) && Legal(t, op) ensures Valid(Step(t, op)) {
      StepKeepsValid(t, op);
    }
    hide Valid, Step, Legal;
    AlwaysTrue(s, ops);
    RunKeeps(s, ops, t => Valid(t), (t, op) => true);
  }

  lemma {:induction false} AlwaysTrue(s: State, ops: seq<Op>)
    requires CanRun(s, ops)
    ensures Always(s, ops, (t, op) => true)
    decreases |ops|
  {
    hide Step, Legal;
    if ops != [] {
      AlwaysTrue(Step(s, ops[0]), ops[1..]);
    }
  }

  // ----- No spurious vectors -----

  /** The master's cascade request, and the level it remembers, stand for something the slave has to serve. */
  predicate Backed(s: State) {
    && s.slave.output == (GetIrq(s.slave, Slave) >= 0)
    && (CASCADE in s.master.irr ==> s.slave.output)
    && (CASCADE in s.master.prevIrr ==> s.slave.output)
  }

  /** No device drives line 2, and the guest does not change the slave's special mask. */
  predicate Disciplined(s: State, op: Op) {
    && (op.Irq? ==> op.irqNum != CASCADE)
    && (op.Out? && op.port == SLAVE_COMMAND && IsOcw3(op.value) && Bit(op.value, 6) ==>
          Bit(op.value, 5) == s.slave.specialMask)
  }

  lemma CascadeBacks(s: State)
    ensures Backed(Cascade(s))
  {
    OutputIsNoInput(s.slave, Slave, GetIrq(s.slave, Slave) >= 0);
    hide GetIrq;
  }

  lemma RoundKeepsBacked(s: State)
    requires Backed(s) && Delivery(s).Some?
    ensures Backed(Delivery(s).value)
  {
    RoundShape(s);
    var (id, line) := NextAck(s);
    var t := AckChip(s.slave, line);
    OutputIsNoInput(t, Slave, GetIrq(t, Slave) >= 0);
    hide GetIrq, Delivery;
  }

  // The selection does not read what these writes change.

  lemma Ocw2KeepsChoice(c: Chip, o: Ocw2)
    requires !o.Retire? && !o.SetPriority?
    ensures GetIrq(WriteOcw2(c, o), Slave) == GetIrq(c, Slave)
  {
    hide Priority;
  }

  lemma Ocw3KeepsChoice(c: Chip, value: nat)
    requires WriteOcw3(c, value).specialMask == c.specialMask
    ensures GetIrq(WriteOcw3(c, value), Slave) == GetIrq(c, Slave)
  {
    hide Priority, Bit;
  }

  lemma InitWordKeepsChoice(c: Chip, value: nat)
    requires c.initState != 0
    ensures GetIrq(WriteData(c, value), Slave) == GetIrq(c, Slave)
  {
    hide Priority, Bits, Bit;
  }

  lemma ElcrKeepsChoice(c: Chip, elcr: Mask)
    ensures GetIrq(c.(elcr := elcr), Slave) == GetIrq(c, Slave)
  {
    hide Priority;
  }

  lemma PollIsNoInput(c: Chip, id: Id)
    ensures GetIrq(c.(poll := false), id) == GetIrq(c, id)
  {
    hide Priority;
  }

  lemma Ocw2KeepsBacked(s: State, id: Id, value: nat)
    requires Backed(s)
    ensures var p := PrepareOcw2(s, id, DecodeOcw2(s.Get(id), value));
            Backed(if p.Quiet? then p.s else Entry(p.s, p.id))
  {
    var o := DecodeOcw2(s.Get(id), value);
    if !o.Retire? && !o.SetPriority? {
      Ocw2KeepsChoice(s.Get(id), o);
    }
    CascadeBacks(PrepareOcw2(s, id, o).s);
    hide GetIrq, DecodeOcw2, Without, Cascade;
  }

  lemma CommandKeepsBacked(s: State, id: Id, value: nat)
    requires Backed(s)
    requires id == Slave && IsOcw3(value) && Bit(value, 6) ==> Bit(value, 5) == s.slave.specialMask
    ensures var p := PrepareCommand(s, id, value);
            Backed(if p.Quiet? then p.s else Entry(p.s, p.id))
  {
    Ocw2KeepsBacked(s, id, value);
    if !IsIcw1(value) && IsOcw3(value) {
      Ocw3KeepsBacked(s, id, value);
    }
    CascadeBacks(ClearRegisters(s, id));
    hide GetIrq, Bit, DecodeOcw2, PrepareOcw2, Cascade, IsIcw1, Backed, WriteOcw3;
  }

  lemma Ocw3KeepsBacked(s: State, id: Id, value: nat)
    requires Backed(s)
    requires id == Slave && Bit(value, 6) ==> Bit(value, 5) == s.slave.specialMask
    ensures Backed(s.With(id, WriteOcw3(s.Get(id), value)))
  {
    if WriteOcw3(s.Get(id), value).specialMask == s.Get(id).specialMask {
      Ocw3KeepsChoice(s.Get(id), value);
    }
    hide GetIrq, Bit;
  }

  lemma DataKeepsBacked(s: State, id: Id, value: nat)
    requires Backed(s)
    ensures var p := PrepareData(s, id, value);
            Backed(if p.Quiet? then p.s else Entry(p.s, p.id))
    ensures Backed(PrepareElcr(s, id, value).s)
  {
    var c := s.Get(id);
    if c.initState != 0 {
      InitWordKeepsChoice(c, value);
    }
    ElcrKeepsChoice(c, Bits(value) * c.elcrMask);
    CascadeBacks(PrepareData(s, id, value).s);
    hide GetIrq, Bit, Bits, Cascade, VectorBase;
  }

  lemma ReadKeepsBacked(s: State, id: Id)
    requires Backed(s)
    ensures var p := PrepareRead(s, id);
            Backed(if p.Quiet? then p.s else Entry(p.s, p.id))
  {
    PollIsNoInput(s.Get(id), Slave);
    CascadeBacks(PrepareRead(s, id).s);
    hide GetIrq, Cascade, Without;
  }

  lemma LatchKeepsBacked(s: State, level: bool, n: nat)
    requires Backed(s) && n != CASCADE
    ensures Backed(Latch(s, Master, n, level))
  {
    hide GetIrq;
  }

  lemma PrepareKeepsBacked(s: State, op: Op)
    requires Backed(s) && Disciplined(s, op)
    ensures var p := Prepare(s, op); Backed(if p.Quiet? then p.s else Entry(p.s, p.id))
  {
    hide Backed, PrepareCommand, PrepareData, PrepareRead, Latch, Cascade, Bit, IsOcw3;
    match op
    case Irq(n, level) =>
      if n <= 7 {
        LatchKeepsBacked(s, level, n);
      } else {
        CascadeBacks(Latch(s, Slave, n - 8, level));
      }
    case Out(port, value) =>
      if port == MASTER_COMMAND {
        CommandKeepsBacked(s, Master, value);
      } else if port == SLAVE_COMMAND {
        CommandKeepsBacked(s, Slave, value);
      } else {
        DataKeepsBacked(s, Master, value);
        DataKeepsBacked(s, Slave, value);
      }
    case In(port) =>
      ReadKeepsBacked(s, Master);
      ReadKeepsBacked(s, Slave);
  }

  lemma StartInitKeepsBacked(s: State, id: Id, value: nat)
    requires Backed(s)
    ensures Backed(StartInit(s, id, value))
  {
    hide Priority, Bit;
  }

  lemma StepKeepsBacked(s: State, op: Op)
    requires Backed(s) && Disciplined(s, op) && Legal(s, op)
    ensures Backed(Step(s, op))
  {
    forall t | Backed(t) && Delivery(t).Some? ensures Backed(Delivery(t).value) {
      RoundKeepsBacked(t);
    }
    forall t, id, v | Backed(t) ensures Backed(StartInit(t, id, v)) {
      StartInitKeepsBacked(t, id, v);
    }
    PrepareKeepsBacked(s, op);
    hide Delivery, Prepare, GetIrq, StartInit, Cascade;
    StepKeeps(s, op, t => Backed(t));
  }

  /** In a disciplined run the master's cascade request is backed after every operation. */
  lemma RunKeepsBacked(s: State, ops: seq<Op>)
    requires CanRun(s, ops) && Backed(s) && Always(s, ops, (t, op) => Disciplined(t, op))
    ensures Backed(Run(s, ops))
  {
    forall t, op | Backed(t) && Disciplined(t, op) && Legal(t, op) ensures Backed(Step(t, op)) {
      StepKeepsBacked(t, op);
    }
    hide Backed, Step, Legal, Disciplined;
    RunKeeps(s, ops, t => Backed(t), (t, op) => Disciplined(t, op));
  }

  lemma SettleKeepsBacked(s: State)
    requires Backed(s) && Terminates(s)
    ensures Backed(Settle(s))
  {
    forall t | Backed(t) && Delivery(t).Some? ensures Backed(Delivery(t).value) {
      RoundKeepsBacked(t);
    }
    hide Delivery, GetIrq;
    SettleKeeps(s, t => Backed(t));
  }

  lemma NoneLeftMeansNoneSpurious(t: State)
    requires GetIrq(t.master, Master) == -1
    ensures SpuriousVectors(t) == []
  {
  }

  lemma BackedMeansNoCascadeLeft(s: State)
    requires Backed(s) && GetIrq(s.slave, Slave) < 0
    ensures GetIrq(s.master, Master) != CASCADE
  {
    GetIrqPicksBest(s.master, Master);
  }

  /**
  From a backed state UpdateIRQ takes neither spurious-vector branch: it serves
  every deliverable request and sends the vectors of those and no others.
  */
  lemma BackedSettleIsExact(s: State)
    requires Backed(s) && Terminates(s)
    ensures var t := Settle(s);
            && Backed(t)
            && GetIrq(t.master, Master) == -1
            && s.hist.acks <= t.hist.acks
            && t.hist.vectors == s.hist.vectors
                 + VectorsFor(t.hist.acks[|s.hist.acks|..], s.master.base, s.slave.base)
  {
    hide Settle, GetIrq, Backed, SpuriousVectors;
    SettleKeepsBacked(s);
    SettleDrains(s);
    SettleAccounts(s);
    if GetIrq(Settle(s).slave, Slave) < 0 {
      BackedMeansNoCascadeLeft(Settle(s));
    }
    NoneLeftMeansNoneSpurious(Settle(s));
  }

  // ----- Accounts of a run -----

  function PortChip(port: nat): Option<Id> {
    if port == MASTER_COMMAND || port == MASTER_DATA then Some(Master)
    else if port == SLAVE_COMMAND || port == SLAVE_DATA then Some(Slave)
    else None
  }

  /** The acknowledgement that an operation reports to the guest as the result of a poll. */
  function Polled(s: State, op: Op): seq<Ack> {
    if !op.In? || PortChip(op.port).None? then []
    else PolledOn(s, PortChip(op.port).value)
  }

  lemma WritesKeepAccounts(s: State, id: Id, value: nat)
    ensures PrepareCommand(s, id, value).s.hist.acks == s.hist.acks
    ensures PrepareCommand(s, id, value).s.hist.vectors == s.hist.vectors
    ensures PrepareData(s, id, value).s.hist == s.hist
    ensures PrepareElcr(s, id, value).s.hist == s.hist
  {
    hide Bits, Bit, DecodeOcw2, WriteOcw2, WriteOcw3, WriteData, Without, ResetChip;
  }

  lemma PrepareAccounts(s: State, op: Op)
    ensures Prepare(s, op).s.hist.acks == s.hist.acks + Polled(s, op)
    ensures Prepare(s, op).s.hist.vectors == s.hist.vectors
  {
    hide LatchChip, PrepareCommand, PrepareData, PrepareElcr, PrepareRead;
    match op
    case Irq(n, level) =>
    case Out(port, value) =>
      WritesKeepAccounts(s, Master, value);
      WritesKeepAccounts(s, Slave, value);
    case In(port) =>
      ReadAccounts(s, Master);
      ReadAccounts(s, Slave);
  }

  /** The acknowledgement that reading a controller makes. */
  function PolledOn(s: State, id: Id): seq<Ack> {
    var c := s.Get(id);
    var irq := GetIrq(c, id);
    if c.poll && irq >= 0 then [Ack(id, irq, c.isr)] else []
  }

  lemma ReadAccounts(s: State, id: Id)
    ensures PrepareRead(s, id).s.hist.acks == s.hist.acks + PolledOn(s, id)
    ensures PrepareRead(s, id).s.hist.vectors == s.hist.vectors
  {
    PollIsNoInput(s.Get(id), id);
    hide GetIrq, AckChip, Without;
  }

  /**
  One operation of a disciplined run: its acknowledgements are the polled line,
  if any, and then those whose vectors are sent, in reverse order.
  */
  lemma StepAccounts(s: State, op: Op)
    requires Backed(s) && Disciplined(s, op) && Legal(s, op)
    ensures var t := Step(s, op);
            var r := Prepare(s, op).s;
            var before := |s.hist.acks| + |Polled(s, op)|;
            && s.hist.acks + Polled(s, op) <= t.hist.acks
            && t.hist.vectors == s.hist.vectors
                 + VectorsFor(t.hist.acks[before..], r.master.base, r.slave.base)
  {
    hide Prepare, Entry, Settle, Polled, GetIrq, Backed, Disciplined, Terminates;
    PrepareAccounts(s, op);
    PrepareKeepsBacked(s, op);
    var p := Prepare(s, op);
    var t := Step(s, op);
    if p.Raise? {
      var e := Entry(p.s, p.id);
      EntryKeepsAccounts(p.s, p.id);
      SettleAccounts(e);
      BackedSettleIsExact(e);
      assert t.hist == Settle(e).hist;
    } else {
      assert t.hist.acks[|t.hist.acks|..] == [];
    }
  }

  lemma EntryKeepsAccounts(s: State, id: Id)
    ensures var e := Entry(s, id);
            && e.hist.acks == s.hist.acks && e.hist.vectors == s.hist.vectors
            && e.master.base == s.master.base && e.slave.base == s.slave.base
  {
    hide GetIrq;
  }

  ghost function Polls(s: State, ops: seq<Op>): nat
    requires CanRun(s, ops)
    decreases |ops|
  {
    if ops == [] then 0 else |Polled(s, ops[0])| + Polls(Step(s, ops[0]), ops[1..])
  }

  /** Over a disciplined run no interrupt is lost or invented: each acknowledgement is one vector or one poll result. */
  lemma {:induction false} RunConserves(s: State, ops: seq<Op>)
    requires CanRun(s, ops) && Backed(s) && Always(s, ops, (t, op) => Disciplined(t, op))
    ensures var t := Run(s, ops);
            |t.hist.acks| - |s.hist.acks| == |t.hist.vectors| - |s.hist.vectors| + Polls(s, ops)
    decreases |ops|
  {
    if ops != [] {
      hide Backed, Step, Legal, Disciplined, Polled, Prepare;
      StepAccounts(s, ops[0]);
      StepKeepsBacked(s, ops[0]);
      RunConserves(Step(s, ops[0]), ops[1..]);
    }
  }
}
