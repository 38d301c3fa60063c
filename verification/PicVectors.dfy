/**
From the guest's initialisation of a controller to the vector that the processor
gets when a device raises a line.
*/
module PicVectors {
  import opened PicChip
  import opened PicCascade
  import opened PicDelivery
  import opened PicRuns
  import opened PicEffects
  import opened PicRegisters
  import opened PicCommands

  // ----- Initialisation -----

  lemma NobodyAcked(acks: seq<Ack>, id: Id)
    requires Acked(acks, id) == {}
    ensures LastAcked(acks, id).None?
    decreases |acks|
  {
    if acks != [] {
      var a := acks[|acks| - 1];
      assert a.id != id by { assert a.id == id ==> a.line in Acked(acks, id); }
      assert Acked(acks[..|acks| - 1], id) <= Acked(acks, id);
      NobodyAcked(acks[..|acks| - 1], id);
    }
  }

  /** A controller without requests has nothing served, but for the master's cascade line. */
  lemma NothingToServe(c: Chip, d: Chip, id: Id, acks: seq<Ack>)
    requires Served(c, d, id, acks) && c.irr == {} && (id == Master ==> CASCADE !in Acked(acks, id))
    ensures d.isr == c.isr && d.priorityAdd == c.priorityAdd
    ensures forall k: Line :: id == Slave || k != 2 ==> k !in d.irr && (k in d.prevIrr <==> k in c.prevIrr)
    ensures Setup(d) == Setup(c)
  {
    assert Acked(acks, id) == {};
    NobodyAcked(acks, id);
    hide Acked, LastAcked, Setup;
  }

  lemma CommandWrites(s: State, id: Id, value: nat)
    ensures IsSet(value, 4) ==> PrepareCommand(s, id, value) == Raise(ClearRegisters(s, id), id)
  {
    WordKinds(value);
    hide IsIcw1, IsSet, ClearRegisters;
  }

  lemma CompletesInit(t: State, id: Id, value: nat)
    requires IsSet(value, 4)
    ensures Complete(t, Out(CommandPort(id), value))
         == t.With(id, t.Get(id).(initState := 1, is4ByteInit := IsSet(value, 0)))
  {
    WordKinds(value);
    hide IsIcw1, IsSet, Bit;
  }

  /** A controller whose registers have just been cleared and that awaits the second command word. */
  predicate Cleared(c: Chip, d: Chip, id: Id, value: nat) {
    && d.isr == {} && d.imr == {} && d.priorityAdd == 0 && d.elcr == c.elcr && d.base == 0
    && (forall k: Line :: id == Slave || k != 2 ==> k !in d.irr && k !in d.prevIrr)
    && d.initState == 1 && d.is4ByteInit == IsSet(value, 0)
    && !d.poll && !d.specialMask && !d.specialFullyNested && !d.autoEoi && !d.rotateOnAutoEoi
  }

  lemma ResetIsCleared(c: Chip, d: Chip, e: Chip, id: Id, acks: seq<Ack>, value: nat)
    requires Served(ResetChip(c), d, id, acks) && (id == Master ==> CASCADE !in Acked(acks, id))
    requires e == d.(initState := 1, is4ByteInit := IsSet(value, 0))
    ensures Cleared(c, e, id, value)
  {
    NothingToServe(ResetChip(c), d, id, acks);
    SetupParts(ResetChip(c), d);
    hide Setup, Served, IsSet, Acked;
  }

  lemma ClearedMasterRests(s: State)
    requires Terminates(ClearRegisters(s, Master))
    ensures Settle(ClearRegisters(s, Master)).hist.acks == s.hist.acks
  {
    var e := ClearRegisters(s, Master);
    GetIrqPicksBest(e.master, Master);
    assert Delivery(e).None? by { hide Priority; }
    SettleStops(e);
    hide Settle, GetIrq;
  }

  lemma StepOfRaise(s: State, op: Op, e: State, id: Id)
    requires Legal(s, op) && Prepare(s, op) == Raise(e, id)
    ensures Terminates(Entry(e, id)) && Step(s, op) == Complete(Settle(Entry(e, id)), op)
  {
    hide Prepare, Terminates, Settle, Entry, Complete;
  }

  lemma ClearedServes(s: State, id: Id)
    requires Terminates(Entry(ClearRegisters(s, id), id))
    ensures var e := ClearRegisters(s, id);
      var u := Settle(Entry(e, id));
      && e.hist.acks <= u.hist.acks
      && Served(ResetChip(s.Get(id)), u.Get(id), id, Since(e, u))
      && (id == Master ==> CASCADE !in Acked(Since(e, u), id))
  {
    var e := ClearRegisters(s, id);
    SettleServes(e, id);
    assert e.Get(id) == ResetChip(s.Get(id));
    hide Settle, Served, ResetChip, Cascade, Terminates;
    if id == Master {
      ClearedMasterRests(s);
      assert Since(e, Settle(e)) == [];
    }
  }

  /** The first initialisation word clears the registers, whatever the other controller then delivers. */
  lemma FirstWord(s: State, id: Id, value: nat)
    requires IsSet(value, 4) && Legal(s, Out(CommandPort(id), value))
    ensures Cleared(s.Get(id), Step(s, Out(CommandPort(id), value)).Get(id), id, value)
  {
    hide *;
    var op := Out(CommandPort(id), value);
    var e := ClearRegisters(s, id);
    CommandIsPrepared(s, id, value);
    CommandWrites(s, id, value);
    StepOfRaise(s, op, e, id);
    ClearedServes(s, id);
    var u := Settle(Entry(e, id));
    CompletesInit(u, id, value);
    WithIsGet(u, id, u.Get(id).(initState := 1, is4ByteInit := IsSet(value, 0)));
    ResetIsCleared(s.Get(id), u.Get(id), Step(s, op).Get(id), id, Since(e, u), value);
  }

  lemma WithIsGet(s: State, id: Id, c: Chip)
    ensures s.With(id, c).Get(id) == c && s.With(id, c).Get(Other(id)) == s.Get(Other(id))
  {
  }

  lemma LaterWord(s: State, id: Id, value: nat)
    requires s.Get(id).initState in {1, 2, 3}
    ensures var op := Out(DataPort(id), value);
      var c := s.Get(id);
      && Legal(s, op)
      && Step(s, op) == s.With(id, Step(s, op).Get(id))
      && Step(s, op).Get(id) == c.(
           base := if c.initState == 1 then value % 256 - value % 8 else c.base,
           specialFullyNested := if c.initState == 3 then IsSet(value, 4) else c.specialFullyNested,
           autoEoi := if c.initState == 3 then IsSet(value, 1) else c.autoEoi,
           initState := if c.initState == 1 then 2 else if c.initState == 2 && c.is4ByteInit then 3 else 0)
  {
    CommandIsPrepared(s, id, value);
    WordKinds(value);
    BaseIsHigh(value);
    hide Prepare, VectorBase, Bits, Bit, IsSet;
  }

  lemma BaseIsHigh(value: nat)
    ensures VectorBase(value) == value % 256 - value % 8
  {
    assert value / 8 % 32 == value / 8 - 32 * (value / 256);
  }

  /** The writes of an initialisation: the fourth word is there only if the first one says so. */
  function Words(id: Id, icw1: nat, icw2: nat, icw3: nat, icw4: nat): seq<Op> {
    [Out(CommandPort(id), icw1), Out(DataPort(id), icw2), Out(DataPort(id), icw3)]
      + if IsSet(icw1, 0) then [Out(DataPort(id), icw4)] else []
  }

  /**
  After its three or four initialisation words a controller has no masks, requests
  or lines in service, line 0 is first, the vectors start at the second word without
  its low digits, and automatic end of interrupt and special fully nested mode are
  as the fourth word says.
  */
  lemma Initialises(s: State, id: Id, icw1: nat, icw2: nat, icw3: nat, icw4: nat)
    requires IsSet(icw1, 4) && Legal(s, Out(CommandPort(id), icw1))
    ensures var ops := Words(id, icw1, icw2, icw3, icw4);
      && CanRun(s, ops)
      && var d := Run(s, ops).Get(id);
         && d.isr == {} && d.imr == {} && d.priorityAdd == 0 && d.elcr == s.Get(id).elcr
         && (forall k: Line :: id == Slave || k != 2 ==> k !in d.irr && k !in d.prevIrr)
         && d.base == icw2 % 256 - icw2 % 8
         && d.initState == 0 && !d.poll && !d.specialMask && !d.rotateOnAutoEoi
         && (d.autoEoi <==> IsSet(icw1, 0) && IsSet(icw4, 1))
         && (d.specialFullyNested <==> IsSet(icw1, 0) && IsSet(icw4, 4))
  {
    hide IsSet, Legal, Step;
    var ops := Words(id, icw1, icw2, icw3, icw4);
    FirstWord(s, id, icw1);
    var s1 := Step(s, ops[0]);
    LaterWord(s1, id, icw2);
    var s2 := Step(s1, ops[1]);
    LaterWord(s2, id, icw3);
    var s3 := Step(s2, ops[2]);
    if IsSet(icw1, 0) {
      LaterWord(s3, id, icw4);
      RunOfFour(s, ops);
    } else {
      RunOfThree(s, ops);
    }
  }

  lemma RunOfThree(s: State, ops: seq<Op>)
    requires |ops| == 3 && Legal(s, ops[0]) && Legal(Step(s, ops[0]), ops[1])
    requires Legal(Step(Step(s, ops[0]), ops[1]), ops[2])
    ensures CanRun(s, ops) && Run(s, ops) == Step(Step(Step(s, ops[0]), ops[1]), ops[2])
  {
    hide Legal, Step;
    var a, b, c := ops[1..], ops[1..][1..], ops[1..][1..][1..];
    assert a[0] == ops[1] && b[0] == ops[2] && c == [];
    var t := Step(Step(s, ops[0]), ops[1]);
    assert CanRun(Step(t, ops[2]), c) && Run(Step(t, ops[2]), c) == Step(t, ops[2]);
    assert CanRun(t, b) && Run(t, b) == Step(t, ops[2]);
    assert CanRun(Step(s, ops[0]), a);
  }

  lemma RunOfFour(s: State, ops: seq<Op>)
    requires |ops| == 4 && Legal(s, ops[0]) && Legal(Step(s, ops[0]), ops[1])
    requires Legal(Step(Step(s, ops[0]), ops[1]), ops[2])
    requires Legal(Step(Step(Step(s, ops[0]), ops[1]), ops[2]), ops[3])
    ensures CanRun(s, ops) && Run(s, ops) == Step(Step(Step(Step(s, ops[0]), ops[1]), ops[2]), ops[3])
  {
    hide Legal, Step;
    RunOfThree(Step(s, ops[0]), ops[1..]);
  }

  // ----- The vector of a device -----

  /** Nothing is requested or in service. */
  predicate Idle(s: State) {
    s.master.irr == {} && s.master.isr == {} && s.slave.irr == {} && s.slave.isr == {}
  }

  /** The only request, with nothing in service, is the chosen one. */
  lemma OnlyRequest(c: Chip, id: Id, line: Line)
    requires c.irr == {line} && c.isr == {} && line !in c.imr
    ensures GetIrq(c, id) == line
  {
    GetIrqIsChosen(c, id, line);
    hide GetIrq, Place;
  }

  lemma NoRequest(c: Chip, id: Id)
    requires c.irr == {}
    ensures GetIrq(c, id) == -1
  {
    GetIrqIsChosen(c, id, 0);
    hide GetIrq, Place;
  }

  /** A line that is served keeps its request if it is level triggered, but being in service holds that back. */
  lemma ServedHoldsBack(c: Chip, id: Id, line: Line, out: bool)
    requires c.irr == {line} && c.isr == {} && line !in c.imr && !(id == Master && line == 2)
    requires line !in c.elcr || !c.autoEoi
    ensures GetIrq(AckChip(c, line).(output := out), id) == -1
  {
    var d := AckChip(c, line).(output := out);
    assert line in d.irr ==> line in d.isr;
    GetIrqIsChosen(d, id, 0);
    forall k: nat ensures !Chosen(d, id, k) {
      assert k in d.irr ==> k == line;
    }
    hide GetIrq;
  }

  /** One round, and then the master has nothing left to serve. */
  lemma OneRoundDelivers(e: State)
    requires Terminates(e) && Delivery(e).Some? && GetIrq(Delivery(e).value.master, Master) == -1
    ensures var (id, line) := NextAck(e);
      && Settle(e).hist.vectors == e.hist.vectors + [e.Get(id).base + line]
      && Settle(e).hist.acks == e.hist.acks + [Ack(id, line, e.Get(id).isr)]
  {
    var n := Delivery(e).value;
    assert Delivery(n).None?;
    PicDelivery.SettleUnfolds(e);
    SettleStops(n);
    hide GetIrq, Delivery, Settle, NextAck;
    assert GetIrq(Settle(n).master, Master) == -1 by { SettledOutput(n); }
    NoneLeftMeansNoneSpurious(Settle(n));
  }

  lemma SettledOutput(n: State)
    requires Terminates(n) && GetIrq(n.master, Master) == -1
    ensures GetIrq(Settle(n).master, Master) == -1
  {
    OutputIsNoInput(n.master, Master, false);
  }

  lemma MasterDelivers(s: State, line: Line)
    requires Idle(s) && line != 2 && line !in s.master.imr
    requires line in s.master.elcr || line !in s.master.prevIrr
    requires line !in s.master.elcr || !s.master.autoEoi
    requires Terminates(Latch(s, Master, line, true))
    ensures var e := Latch(s, Master, line, true);
      && Settle(e).hist.vectors == s.hist.vectors + [s.master.base + line]
      && Settle(e).hist.acks == s.hist.acks + [Ack(Master, line, {})]
  {
    var e := Latch(s, Master, line, true);
    assert e.master.irr == {line} && e.master.isr == {};
    OnlyRequest(e.master, Master, line);
    ServedHoldsBack(e.master, Master, line, true);
    hide GetIrq, Latch, AckChip;
    assert Delivery(e).Some? && NextAck(e) == (Master, line);
    RoundShape(e);
    OneRoundDelivers(e);
  }

  /** The slave's line reaches the master as a request on line 2. */
  lemma SlaveRaised(s: State, line: Line)
    requires Idle(s) && 2 !in s.master.prevIrr && line !in s.slave.imr
    requires line in s.slave.elcr || line !in s.slave.prevIrr
    ensures var e := Cascade(Latch(s, Slave, line, true));
      && e.master.irr == {2} && e.master.isr == {} && e.master.imr == s.master.imr
      && e.slave.irr == {line} && e.slave.isr == {} && e.slave.imr == s.slave.imr
      && e.slave.elcr == s.slave.elcr && e.slave.autoEoi == s.slave.autoEoi && e.slave.base == s.slave.base
      && e.hist.acks == s.hist.acks && e.hist.vectors == s.hist.vectors
  {
    var t := Latch(s, Slave, line, true);
    assert t.slave.irr == {line} && t.slave.isr == {};
    OnlyRequest(t.slave, Slave, line);
    hide GetIrq;
  }

  /** Once the slave has nothing left, the request on line 2 is taken back. */
  lemma CascadeFalls(c: Chip)
    requires c.irr == {2}
    ensures GetIrq(LatchChip(c, CASCADE, false).(output := true), Master) == -1
  {
    NoRequest(LatchChip(c, CASCADE, false).(output := true), Master);
    hide GetIrq;
  }

  lemma SlaveDelivers(s: State, line: Line)
    requires Idle(s) && 2 !in s.master.prevIrr && line !in s.slave.imr && 2 !in s.master.imr
    requires line in s.slave.elcr || line !in s.slave.prevIrr
    requires line !in s.slave.elcr || !s.slave.autoEoi
    requires Terminates(Cascade(Latch(s, Slave, line, true)))
    ensures var e := Cascade(Latch(s, Slave, line, true));
      && Settle(e).hist.vectors == s.hist.vectors + [s.slave.base + line]
      && Settle(e).hist.acks == s.hist.acks + [Ack(Slave, line, {})]
  {
    hide Latch, Cascade, Delivery, NextAck, GetIrq, Settle;
    var e := Cascade(Latch(s, Slave, line, true));
    SlaveRaised(s, line);
    SlaveRoundEnds(e, line);
    OneRoundDelivers(e);
  }

  lemma SlaveRoundEnds(e: State, line: Line)
    requires e.master.irr == {2} && e.master.isr == {} && 2 !in e.master.imr
    requires e.slave.irr == {line} && e.slave.isr == {} && line !in e.slave.imr
    requires line !in e.slave.elcr || !e.slave.autoEoi
    ensures Delivery(e).Some? && NextAck(e) == (Slave, line) && GetIrq(Delivery(e).value.master, Master) == -1
  {
    OnlyRequest(e.master, Master, 2);
    OnlyRequest(e.slave, Slave, line);
    ServedHoldsBack(e.slave, Slave, line, e.slave.output);
    CascadeFalls(e.master);
    RoundHappens(e, line);
    RoundShape(e);
    SameAck(e.slave, line);
    hide GetIrq, AckChip, LatchChip, Delivery, NextAck;
  }

  lemma RoundHappens(e: State, line: Line)
    requires GetIrq(e.master, Master) == 2 && GetIrq(e.slave, Slave) == line
    ensures Delivery(e).Some? && NextAck(e) == (Slave, line)
  {
    hide GetIrq, Cascade, Acknowledge;
  }

  lemma SameAck(c: Chip, line: Line)
    ensures GetIrq(AckChip(c, line), Slave) == GetIrq(AckChip(c, line).(output := c.output), Slave)
  {
  }

  /** Device line n is low or level triggered, unmasked, and not retired by itself while it stays requested. */
  predicate Ready(s: State, n: nat)
    requires n < 16
  {
    var c := s.Get(Controller(n));
    && n % 8 !in c.imr && (n >= 8 ==> 2 !in s.master.imr)
    && (n % 8 in c.elcr || n % 8 !in c.prevIrr)
    && (n % 8 !in c.elcr || !c.autoEoi)
  }

  lemma IdleIsLow(s: State)
    requires Backed(s) && Idle(s)
    ensures 2 !in s.master.prevIrr
  {
    NoRequest(s.slave, Slave);
    hide GetIrq;
  }

  lemma DeviceDelivers(s: State, n: nat)
    requires n < 16 && n != 2 && Backed(s) && Idle(s) && Ready(s, n) && Legal(s, Irq(n, true))
    ensures var id := Controller(n);
      var t := Step(s, Irq(n, true));
      && t.hist.vectors == s.hist.vectors + [s.Get(id).base + n % 8]
      && t.hist.acks == s.hist.acks + [Ack(id, n % 8, {})]
  {
    hide *;
    var id := Controller(n);
    LineIsPrepared(s, n, true);
    IdleIsLow(s);
    LowRanges(s, n);
    StepOfRaise(s, Irq(n, true), Latch(s, id, n % 8, true), id);
    var e := Entry(Latch(s, id, n % 8, true), id);
    IrqCompletes(Settle(e), n);
    if n < 8 {
      MasterDelivers(s, n);
    } else {
      SlaveDelivers(s, n - 8);
    }
  }

  lemma LowRanges(s: State, n: nat)
    requires n < 16 && n != 2 && Ready(s, n)
    ensures n < 8 ==>
      && Controller(n) == Master && n % 8 == n && s.Get(Master) == s.master
      && Entry(Latch(s, Master, n, true), Master) == Latch(s, Master, n, true)
      && n !in s.master.imr && (n in s.master.elcr || n !in s.master.prevIrr)
      && (n !in s.master.elcr || !s.master.autoEoi)
    ensures n >= 8 ==>
      && Controller(n) == Slave && n % 8 == n - 8 && s.Get(Slave) == s.slave
      && Entry(Latch(s, Slave, n - 8, true), Slave) == Cascade(Latch(s, Slave, n - 8, true))
      && n - 8 !in s.slave.imr && 2 !in s.master.imr && (n - 8 in s.slave.elcr || n - 8 !in s.slave.prevIrr)
      && (n - 8 !in s.slave.elcr || !s.slave.autoEoi)
  {
    hide Latch, Cascade;
  }

  lemma IrqCompletes(t: State, n: nat)
    ensures Complete(t, Irq(n, true)) == t
  {
  }

  // ----- The base stays -----

  /** The operation does not begin another initialisation of the controller. */
  predicate NoRestart(id: Id, op: Op) {
    !(op.Out? && op.port == CommandPort(id) && IsSet(op.value, 4))
  }

  ghost predicate Based(s: State, id: Id, base: nat) {
    s.Get(id).base == base && s.Get(id).initState != 1
  }

  lemma CommandKeepsBase(s: State, at: Id, value: nat, id: Id, base: nat)
    requires Based(s, id, base) && (at == id ==> !IsSet(value, 4))
    ensures Based(PrepareCommand(s, at, value).s, id, base)
  {
    WordKinds(value);
    hide Bit, IsSet, DecodeOcw2, Without;
  }

  lemma DataKeepsBase(s: State, at: Id, value: nat, id: Id, base: nat)
    requires Based(s, id, base)
    ensures Based(PrepareData(s, at, value).s, id, base) && Based(PrepareElcr(s, at, value).s, id, base)
  {
    hide Bit, Bits, VectorBase;
  }

  lemma InputsKeepBase(s: State, at: Id, index: nat, level: bool, id: Id, base: nat)
    requires Based(s, id, base)
    ensures Based(PrepareRead(s, at).s, id, base) && Based(Latch(s, at, index, level), id, base)
  {
    hide GetIrq, Without;
  }

  lemma PrepareKeepsBase(s: State, op: Op, id: Id, base: nat)
    requires Based(s, id, base) && NoRestart(id, op)
    ensures Based(Prepare(s, op).s, id, base)
  {
    hide PrepareCommand, PrepareData, PrepareElcr, PrepareRead, Latch, Based, IsSet;
    match op
    case Irq(n, level) =>
      InputsKeepBase(s, Master, n, level, id, base);
      InputsKeepBase(s, Slave, if n <= 7 then 0 else n - 8, level, id, base);
    case Out(port, value) =>
      if port == MASTER_COMMAND {
        CommandKeepsBase(s, Master, value, id, base);
      } else if port == SLAVE_COMMAND {
        CommandKeepsBase(s, Slave, value, id, base);
      } else {
        DataKeepsBase(s, Master, value, id, base);
        DataKeepsBase(s, Slave, value, id, base);
      }
    case In(_) =>
      InputsKeepBase(s, Master, 0, false, id, base);
      InputsKeepBase(s, Slave, 0, false, id, base);
  }

  lemma CompleteKeepsBase(s: State, op: Op, id: Id, base: nat)
    requires Based(s, id, base) && NoRestart(id, op)
    ensures Based(Complete(s, op), id, base)
  {
    if op.Out? {
      WordKinds(op.value);
    }
    hide IsIcw1, IsSet, Bit;
  }

  lemma StepKeepsBase(s: State, op: Op, id: Id, base: nat)
    requires Based(s, id, base) && NoRestart(id, op) && Legal(s, op)
    ensures Based(Step(s, op), id, base)
  {
    PrepareKeepsBase(s, op, id, base);
    var p := Prepare(s, op);
    hide Prepare, Settle, Terminates, Cascade, Served, Complete, NoRestart;
    if p.Raise? {
      SettleServes(p.s, p.id);
      var u := Settle(Entry(p.s, p.id));
      ServedKeepsSetup(p.s.Get(id), u.Get(id), id, Since(p.s, u));
      CompleteKeepsBase(u, op, id, base);
    }
  }

  lemma {:induction false} RunKeepsBase(s: State, ops: seq<Op>, id: Id, base: nat)
    requires CanRun(s, ops) && Based(s, id, base) && forall op :: op in ops ==> NoRestart(id, op)
    ensures Based(Run(s, ops), id, base)
    decreases |ops|
  {
    hide Based, NoRestart, Legal, Step;
    if ops != [] {
      StepKeepsBase(s, ops[0], id, base);
      RunKeepsBase(Step(s, ops[0]), ops[1..], id, base);
    }
  }

  /**
  A guest starts the initialisation of a controller and writes the second word, and
  whatever happens then short of another initialisation of that controller: when
  everything is idle and the controllers agree about the cascade line, a rising
  device line is acknowledged once and gives the processor exactly one vector, the
  second word with its low digits replaced by the line's number.
  */
  lemma EdgeDeliversVector(s: State, n: nat, icw1: nat, icw2: nat, ops: seq<Op>)
    requires n < 16 && n != 2 && IsSet(icw1, 4)
    requires forall op :: op in ops ==> NoRestart(Controller(n), op)
    requires var id := Controller(n);
      CanRun(s, [Out(CommandPort(id), icw1), Out(DataPort(id), icw2)] + ops)
    requires var id := Controller(n);
      var t := Run(s, [Out(CommandPort(id), icw1), Out(DataPort(id), icw2)] + ops);
      Backed(t) && Idle(t) && Ready(t, n) && Legal(t, Irq(n, true))
    ensures var id := Controller(n);
      var t := Run(s, [Out(CommandPort(id), icw1), Out(DataPort(id), icw2)] + ops);
      var u := Step(t, Irq(n, true));
      && u.hist.vectors == t.hist.vectors + [icw2 % 256 - icw2 % 8 + n % 8]
      && u.hist.acks == t.hist.acks + [Ack(id, n % 8, {})]
  {
    hide Legal, Step, Backed, Idle, Ready, IsSet, NoRestart;
    var id := Controller(n);
    var all := [Out(CommandPort(id), icw1), Out(DataPort(id), icw2)] + ops;
    assert all[1..] == [Out(DataPort(id), icw2)] + ops && all[1..][1..] == ops;
    FirstWord(s, id, icw1);
    var s1 := Step(s, all[0]);
    LaterWord(s1, id, icw2);
    var s2 := Step(s1, all[1]);
    assert Run(s, all) == Run(s2, ops) && CanRun(s2, ops);
    RunKeepsBase(s2, ops, id, icw2 % 256 - icw2 % 8);
    DeviceDelivers(Run(s2, ops), n);
  }
}
