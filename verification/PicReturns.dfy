/**
Which operations of a run return, and what happens when the cascade line is
driven by something other than the slave.
*/
module PicReturns {
  import opened PicChip
  import opened PicCascade
  import opened PicDelivery
  import opened PicRuns
  import opened PicTermination

  lemma PreparedIsWellFormed(s: State, op: Op)
    requires Valid(s)
    ensures var p := Prepare(s, op); p.Raise? ==> WellFormed(Entry(p.s, p.id))
  {
    PrepareKeepsValid(s, op);
    CascadeKeepsValid(Prepare(s, op).s);
    hide Prepare, Cascade, GetIrq;
  }

  /**
  An operation returns if and only if the update that it triggers meets no storm:
  no level-triggered request that auto-EOI would acknowledge for ever. It then
  makes at most 16 acknowledgements beside a poll's own.
  */
  lemma ReturnsIffNoStorm(s: State, op: Op)
    requires Valid(s)
    ensures var p := Prepare(s, op);
            Legal(s, op) <==> (p.Raise? ==> !Storm(Entry(p.s, p.id)))
    ensures Legal(s, op) ==>
              |Step(s, op).hist.acks| <= |s.hist.acks| + |Polled(s, op)| + 16
  {
    PreparedIsWellFormed(s, op);
    PrepareAccounts(s, op);
    var p := Prepare(s, op);
    if p.Raise? {
      var e := Entry(p.s, p.id);
      EntryKeepsAccounts(p.s, p.id);
      ReturnsUnlessStorm(e);
      if Legal(s, op) {
        RoundsAreAcks(e);
        assert Depth(e) <= 16;
      }
    }
    hide Prepare, Cascade, Storm, WellFormed, Polled, Halts;
  }

  predicate Tame(c: Chip) {
    c.autoEoi ==> c.elcr == {}
  }

  lemma TameHasNoStorm(s: State)
    requires Tame(s.master) && Tame(s.slave)
    ensures !Storm(s) && !Storm(Cascade(s))
  {
    var t := Cascade(s);
    assert t.master.elcr == s.master.elcr && t.slave.elcr == s.slave.elcr;
    hide GetIrq, Eligible, Cascade;
  }

  /** A guest that gives no level-triggered line to an auto-EOI controller never sees an operation hang. */
  lemma NoLevelLinesNoStorm(s: State, op: Op)
    requires Valid(s)
    requires Tame(Prepare(s, op).s.master) && Tame(Prepare(s, op).s.slave)
    ensures Legal(s, op)
  {
    hide Prepare, Cascade, Storm, Tame, Valid, Legal;
    ReturnsIffNoStorm(s, op);
    TameHasNoStorm(Prepare(s, op).s);
  }

  // ----- Runs that return -----

  /** The operation gives no level-triggered line to an auto-EOI controller. */
  predicate Careful(s: State, op: Op) {
    op.Out? ==>
      && (op.port == MASTER_DATA ==> CarefulData(s.master, op.value))
      && (op.port == SLAVE_DATA ==> CarefulData(s.slave, op.value))
      && (op.port == MASTER_ELCR ==> CarefulElcr(s.master, op.value))
      && (op.port == SLAVE_ELCR ==> CarefulElcr(s.slave, op.value))
  }

  /** ICW4 turns auto-EOI on only where no line is level triggered. */
  predicate CarefulData(c: Chip, value: nat) {
    c.initState == 3 && Bit(value, 1) ==> c.elcr == {}
  }

  predicate CarefulElcr(c: Chip, value: nat) {
    c.autoEoi ==> Bits(value) * c.elcrMask == {}
  }

  /** The guest is careful for as long as its operations return. */
  ghost predicate StaysCareful(s: State, ops: seq<Op>)
    decreases |ops|
  {
    ops == [] ||
    (Careful(s, ops[0]) && (Legal(s, ops[0]) ==> StaysCareful(Step(s, ops[0]), ops[1..])))
  }

  ghost predicate TameState(s: State) {
    Tame(s.master) && Tame(s.slave)
  }

  lemma DataKeepsTame(s: State, id: Id, value: nat)
    requires TameState(s) && CarefulData(s.Get(id), value)
    ensures TameState(PrepareData(s, id, value).s)
  {
    hide Bit, Bits, VectorBase;
  }

  lemma ElcrKeepsTame(s: State, id: Id, value: nat)
    requires TameState(s) && CarefulElcr(s.Get(id), value)
    ensures TameState(PrepareElcr(s, id, value).s)
  {
    hide Bits;
  }

  lemma CommandKeepsTame(s: State, id: Id, value: nat)
    requires TameState(s)
    ensures TameState(PrepareCommand(s, id, value).s)
  {
    hide Bit, DecodeOcw2, Without;
  }

  lemma ReadKeepsTame(s: State, id: Id)
    requires TameState(s)
    ensures TameState(PrepareRead(s, id).s)
  {
    hide GetIrq, Without;
  }

  lemma LatchKeepsTame(s: State, id: Id, index: nat, level: bool)
    requires TameState(s)
    ensures TameState(Latch(s, id, index, level))
  {
  }

  lemma PrepareKeepsTame(s: State, op: Op)
    requires TameState(s) && Careful(s, op)
    ensures TameState(Prepare(s, op).s)
  {
    hide PrepareCommand, PrepareData, PrepareElcr, PrepareRead, Latch, TameState, CarefulData, CarefulElcr;
    match op
    case Irq(n, level) =>
      LatchKeepsTame(s, Master, n, level);
      LatchKeepsTame(s, Slave, if n <= 7 then 0 else n - 8, level);
    case Out(port, value) =>
      CommandKeepsTame(s, Master, value);
      CommandKeepsTame(s, Slave, value);
      if port == MASTER_DATA {
        DataKeepsTame(s, Master, value);
      } else if port == SLAVE_DATA {
        DataKeepsTame(s, Slave, value);
      } else if port == MASTER_ELCR {
        ElcrKeepsTame(s, Master, value);
      } else if port == SLAVE_ELCR {
        ElcrKeepsTame(s, Slave, value);
      }
    case In(port) =>
      ReadKeepsTame(s, Master);
      ReadKeepsTame(s, Slave);
  }

  lemma CascadeKeepsTame(s: State)
    requires TameState(s)
    ensures TameState(Cascade(s))
  {
    hide GetIrq;
  }

  lemma RoundKeepsTame(s: State)
    requires TameState(s) && Delivery(s).Some?
    ensures TameState(Delivery(s).value)
  {
    RoundShape(s);
    hide GetIrq, Delivery;
  }

  lemma StepKeepsTame(s: State, op: Op)
    requires TameState(s) && Careful(s, op) && Legal(s, op)
    ensures TameState(Step(s, op))
  {
    forall t | TameState(t) && Delivery(t).Some? ensures TameState(Delivery(t).value) {
      RoundKeepsTame(t);
    }
    PrepareKeepsTame(s, op);
    CascadeKeepsTame(Prepare(s, op).s);
    hide Delivery, Prepare, Cascade;
    StepKeeps(s, op, t => TameState(t));
  }

  /** Every operation of a careful guest returns, over whole runs and whatever the devices do. */
  lemma {:induction false} CarefulRunsReturn(s: State, ops: seq<Op>)
    requires Valid(s) && TameState(s) && StaysCareful(s, ops)
    ensures CanRun(s, ops)
    decreases |ops|
  {
    hide Valid, TameState, Careful, Legal, Step;
    if ops != [] {
      var op := ops[0];
      PrepareKeepsTame(s, op);
      assert Legal(s, op) by { TameStepReturns(s, op); }
      StepKeepsValid(s, op);
      StepKeepsTame(s, op);
      CarefulRunsReturn(Step(s, op), ops[1..]);
    }
  }

  lemma TameStepReturns(s: State, op: Op)
    requires Valid(s) && TameState(Prepare(s, op).s)
    ensures Legal(s, op)
  {
    hide Valid, Tame, Legal, Prepare;
    NoLevelLinesNoStorm(s, op);
  }

  /** The operation makes no line level triggered. */
  predicate EdgeOnly(op: Op) {
    op.Out? && (op.port == MASTER_ELCR || op.port == SLAVE_ELCR) ==> Bits(op.value) == {}
  }

  ghost predicate NoLevelLines(s: State) {
    s.master.elcr == {} && s.slave.elcr == {}
  }

  lemma EdgeOnlyKeepsElcr(s: State, op: Op)
    requires NoLevelLines(s) && EdgeOnly(op) && Legal(s, op)
    ensures NoLevelLines(Step(s, op))
  {
    forall t | NoLevelLines(t) && Delivery(t).Some? ensures NoLevelLines(Delivery(t).value) {
      RoundKeepsElcr(t);
    }
    PrepareKeepsElcr(s, op);
    CascadeKeepsElcr(Prepare(s, op).s);
    hide Delivery, Prepare, Cascade;
    StepKeeps(s, op, t => NoLevelLines(t));
  }

  lemma RoundKeepsElcr(s: State)
    requires NoLevelLines(s) && Delivery(s).Some?
    ensures NoLevelLines(Delivery(s).value)
  {
    RoundShape(s);
    hide GetIrq, Delivery;
  }

  lemma CascadeKeepsElcr(s: State)
    requires NoLevelLines(s)
    ensures NoLevelLines(Cascade(s))
  {
    hide GetIrq;
  }

  lemma WritesKeepElcr(s: State, id: Id, value: nat)
    requires NoLevelLines(s)
    ensures NoLevelLines(PrepareCommand(s, id, value).s) && NoLevelLines(PrepareData(s, id, value).s)
    ensures Bits(value) == {} ==> NoLevelLines(PrepareElcr(s, id, value).s)
  {
    hide Bit, Bits, DecodeOcw2, Without, VectorBase;
  }

  lemma InputsKeepElcr(s: State, id: Id, index: nat, level: bool)
    requires NoLevelLines(s)
    ensures NoLevelLines(PrepareRead(s, id).s) && NoLevelLines(Latch(s, id, index, level))
  {
    hide GetIrq, Without;
  }

  lemma PrepareKeepsElcr(s: State, op: Op)
    requires NoLevelLines(s) && EdgeOnly(op)
    ensures NoLevelLines(Prepare(s, op).s)
  {
    hide PrepareCommand, PrepareData, PrepareElcr, PrepareRead, Latch, NoLevelLines;
    match op
    case Irq(n, level) =>
      InputsKeepElcr(s, Master, n, level);
      InputsKeepElcr(s, Slave, if n <= 7 then 0 else n - 8, level);
    case Out(_, value) =>
      WritesKeepElcr(s, Master, value);
      WritesKeepElcr(s, Slave, value);
    case In(_) =>
      InputsKeepElcr(s, Master, 0, false);
      InputsKeepElcr(s, Slave, 0, false);
  }

  lemma {:induction false} EdgeOnlyIsCareful(s: State, ops: seq<Op>)
    requires NoLevelLines(s) && forall op :: op in ops ==> EdgeOnly(op)
    ensures StaysCareful(s, ops)
    decreases |ops|
  {
    hide NoLevelLines, Legal, Step, EdgeOnly, Careful;
    if ops != [] {
      assert ops[0] in ops;
      assert Careful(s, ops[0]) by { EdgeOnlyStep(s, ops[0]); }
      if Legal(s, ops[0]) {
        EdgeOnlyKeepsElcr(s, ops[0]);
        EdgeOnlyIsCareful(Step(s, ops[0]), ops[1..]);
      }
    }
  }

  lemma EdgeOnlyStep(s: State, op: Op)
    requires NoLevelLines(s) && EdgeOnly(op)
    ensures Careful(s, op)
  {
    hide Bit, Bits;
  }

  /** In particular every run from power-on of a guest that makes no line level triggered, whatever its modes. */
  lemma EdgeOnlyRunsReturn(s: State, ops: seq<Op>)
    requires forall op :: op in ops ==> EdgeOnly(op)
    ensures CanRun(PowerOn(s), ops)
  {
    hide EdgeOnly;
    PowerOnIsValid(s);
    EdgeOnlyIsCareful(PowerOn(s), ops);
    CarefulRunsReturn(PowerOn(s), ops);
  }

  // ----- A run that does not -----

  /** Auto-EOI for the master, and line 3 level triggered. */
  function StormSetup(): seq<Op> {
    [Out(MASTER_COMMAND, 0x11), Out(MASTER_DATA, 0x20), Out(MASTER_DATA, 0x04), Out(MASTER_DATA, 0x03),
     Out(MASTER_ELCR, 0x08)]
  }

  /** The state that those writes lead to. */
  predicate StormReady(c: Chip) {
    c.autoEoi && !c.rotateOnAutoEoi && c.elcr == {3} && c.irr == {} && c.imr == {} && c.isr == {} && 3 !in c.prevIrr
  }

  lemma InitStart(s: State)
    ensures var start := PowerOn(s); var op := Out(MASTER_COMMAND, 0x11);
            && Legal(start, op)
            && Step(start, op).master == start.master.(initState := 1, is4ByteInit := true)
            && Step(start, op).slave == start.slave
  {
    var start := PowerOn(s);
    var op := Out(MASTER_COMMAND, 0x11);
    assert IsIcw1(0x11) && Bit(0x11, 0) by { SetupBits(); }
    var e := ClearRegisters(start, Master);
    assert Prepare(start, op) == Raise(e, Master);
    GetIrqPicksBest(e.master, Master);
    assert GetIrq(e.master, Master) < 0;
    assert Halts(e, 0);
    assert Settle(e) == SetOutput(e, false);
  }

  lemma SetupBits()
    ensures Bit(0x11, 4) && Bit(0x11, 0) && Bit(0x03, 1)
    ensures Bits(0x08) * Bits(MASTER_ELCR_MASK) == {3}
  {
    assert Bit(0x11, 4) by { assert Bit(0x08, 3) == Bit(0x04, 2) == Bit(0x02, 1) == Bit(0x01, 0); }
    assert Bit(0x03, 1) by { assert Bit(0x01, 0); }
    forall i: Line ensures Bit(0x08, i) <==> i == 3 {
      OnlyBitThree(i);
    }
    assert Bit(MASTER_ELCR_MASK, 3) by { assert Bit(0x7C, 2) == Bit(0x3E, 1) == Bit(0x1F, 0); }
    assert Bits(0x08) == {3};
    assert 3 in Bits(MASTER_ELCR_MASK);
  }

  lemma OnlyBitThree(i: Line)
    ensures Bit(0x08, i) <==> i == 3
  {
    if i > 0 {
      assert Bit(0x08, i) == Bit(0x04, i - 1);
      if i > 1 {
        assert Bit(0x04, i - 1) == Bit(0x02, i - 2);
        if i > 2 {
          assert Bit(0x02, i - 2) == Bit(0x01, i - 3);
          if i > 3 {
            ZeroHasNoBits(i - 4);
          }
        }
      }
    }
  }

  lemma ZeroHasNoBits(i: nat)
    ensures !Bit(0, i)
  {
  }

  lemma InitWords(c: Chip, d: Chip)
    requires c.initState == 1 && c.is4ByteInit && d == WriteData(WriteData(WriteData(c, 0x20), 0x04), 0x03)
    ensures d.autoEoi && d.irr == c.irr && d.imr == c.imr && d.isr == c.isr && d.prevIrr == c.prevIrr
    ensures d.rotateOnAutoEoi == c.rotateOnAutoEoi && d.elcrMask == c.elcrMask
  {
    SetupBits();
    hide Bits, VectorBase;
  }

  lemma SetupLeadsThere(s: State)
    ensures CanRun(PowerOn(s), StormSetup())
    ensures var t := Run(PowerOn(s), StormSetup()); WellFormed(t) && StormReady(t.master)
  {
    var s0 := PowerOn(s);
    var ops := StormSetup();
    InitStart(s);
    SetupBits();
    PowerOnIsValid(s);
    var s1 := Step(s0, ops[0]);
    hide Bit, Bits, VectorBase, GetIrq, Settle, Terminates;
    var s2 := s1.(master := WriteData(s1.master, 0x20));
    var s3 := s2.(master := WriteData(s2.master, 0x04));
    var s4 := s3.(master := WriteData(s3.master, 0x03));
    var s5 := s4.(master := s4.master.(elcr := Bits(0x08) * s4.master.elcrMask));
    InitWords(s1.master, s4.master);
    assert Step(s1, ops[1]) == s2 && Step(s2, ops[2]) == s3 && Step(s3, ops[3]) == s4 && Step(s4, ops[4]) == s5;
    RunOfFive(s0, ops, s1, s2, s3, s4, s5);
  }

  lemma RunOfFive(s0: State, ops: seq<Op>, s1: State, s2: State, s3: State, s4: State, s5: State)
    requires |ops| == 5
    requires Legal(s0, ops[0]) && Step(s0, ops[0]) == s1 && Legal(s1, ops[1]) && Step(s1, ops[1]) == s2
    requires Legal(s2, ops[2]) && Step(s2, ops[2]) == s3 && Legal(s3, ops[3]) && Step(s3, ops[3]) == s4
    requires Legal(s4, ops[4]) && Step(s4, ops[4]) == s5
    ensures CanRun(s0, ops) && Run(s0, ops) == s5
  {
    hide Legal, Step;
    var a, b, c, d := ops[1..], ops[1..][1..], ops[1..][1..][1..], ops[1..][1..][1..][1..];
    assert a[0] == ops[1] && b[0] == ops[2] && c[0] == ops[3] && d[0] == ops[4] && d[1..] == [];
    assert CanRun(s5, []) && Run(s5, []) == s5;
    assert CanRun(s4, d) && Run(s4, d) == s5;
    assert CanRun(s3, c) && Run(s3, c) == s5;
    assert CanRun(s2, b) && Run(s2, b) == s5;
    assert CanRun(s1, a) && Run(s1, a) == s5;
  }

  lemma RaisedLineIsStuck(c: Chip)
    requires StormReady(c)
    ensures var d := LatchChip(c, 3, true); HasStuckLine(d, Master) && CASCADE !in d.irr
  {
    var d := LatchChip(c, 3, true);
    assert d.irr == {3} && Requests(d) == {3};
    assert InService(d, Master) == {};
    PriorityIsMinimum({}, d.priorityAdd);
    hide Priority, PriorityOf;
    assert Eligible(d, Master, 3);
  }

  lemma RaisingStorms(s: State)
    requires WellFormed(s) && StormReady(s.master)
    ensures !Legal(s, Irq(3, true))
  {
    hide HasStuckLine, GetIrq, Eligible, StormReady;
    RaisedLineIsStuck(s.master);
    var t := Latch(s, Master, 3, true);
    assert t.master == LatchChip(s.master, 3, true);
    assert WellFormed(t) by { LatchKeepsWellFormed(s, 3); }
    ReturnsUnlessStorm(t);
  }

  lemma LatchKeepsWellFormed(s: State, line: Line)
    requires WellFormed(s)
    ensures WellFormed(Latch(s, Master, line, true))
  {
  }

  /** Five writes that any guest can make after power-on, and then the rise of line 3 never returns. */
  lemma StormHappens(s: State)
    ensures CanRun(PowerOn(s), StormSetup())
    ensures !Legal(Run(PowerOn(s), StormSetup()), Irq(3, true))
  {
    hide Legal, StormSetup;
    SetupLeadsThere(s);
    RaisingStorms(Run(PowerOn(s), StormSetup()));
  }

  /** Why devices must stay off line 2: right after power-on, raising it delivers the slave's spurious vector. */
  lemma DeviceOnCascadeLineIsSpurious(s: State)
    ensures var start := PowerOn(s);
            && Legal(start, Irq(2, true))
            && Step(start, Irq(2, true)).hist.vectors == start.hist.vectors + [7]
            && Step(start, Irq(2, true)).hist.acks == start.hist.acks
  {
    var start := PowerOn(s);
    var r := Latch(start, Master, 2, true);
    assert Requests(r.master) == {CASCADE} && Requests(r.slave) == {};
    PriorityIsMinimum({CASCADE}, 0);
    PriorityIsMinimum({}, 0);
    GetIrqPicksBest(r.master, Master);
    GetIrqPicksBest(r.slave, Slave);
    assert Eligible(r.master, Master, CASCADE);
    assert GetIrq(r.master, Master) == CASCADE && GetIrq(r.slave, Slave) < 0;
    assert Halts(r, 0);
    assert Settle(r) == Send(SetOutput(r, true), 7);
  }
}
