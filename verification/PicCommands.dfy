/**
Every port write and every change of a device line in terms of its port number and
of the binary digits of its value, from the access to the state it leads to.
*/
module PicCommands {
  import opened PicChip
  import opened PicCascade
  import opened PicDelivery
  import opened PicRuns
  import opened PicEffects
  import opened PicRegisters

  function CommandPort(id: Id): nat {
    if id == Master then 0x20 else 0xA0
  }

  function DataPort(id: Id): nat {
    if id == Master then 0x21 else 0xA1
  }

  function ElcrPort(id: Id): nat {
    if id == Master then 0x4D0 else 0x4D1
  }

  function Other(id: Id): Id {
    if id == Master then Slave else Master
  }

  // ----- Device lines -----

  /** The controller of a device line. */
  function Controller(n: nat): Id {
    if n < 8 then Master else Slave
  }

  /**
  A device line that rises is requested, unless it was high before and is edge
  triggered; one that falls takes its request back. From there on only
  acknowledgements take requests away. No other line's request changes otherwise.
  */
  lemma LineChanges(s: State, n: nat, level: bool)
    requires n < 16 && n != 2 && Legal(s, Irq(n, level))
    ensures var id := Controller(n);
      var line: Line := n % 8;
      var t := Step(s, Irq(n, level));
      var c, d := s.Get(id), t.Get(id);
      && s.hist.acks <= t.hist.acks
      && (line in d.prevIrr <==> level)
      && (line in d.irr <==>
           && level
           && (line in c.irr || line in c.elcr || line !in c.prevIrr)
           && (line in Acked(Since(s, t), id) ==> line in c.elcr))
      && (forall k: Line :: k != line && !(id == Master && k == 2) ==>
           && (k in d.prevIrr <==> k in c.prevIrr)
           && (k in d.irr <==> k in c.irr && (k in Acked(Since(s, t), id) ==> k in c.elcr)))
      && Served(s.Get(Other(id)), t.Get(Other(id)), Other(id), Since(s, t))
  {
    hide Latch, Settle, Terminates, Cascade, Served;
    var id := Controller(n);
    var p := Latch(s, id, n % 8, level);
    LatchedRegisters(s, id, n % 8, level);
    LineIsPrepared(s, n, level);
    SettleServes(p, id);
    var t := Step(s, Irq(n, level));
    assert Since(p, t) == Since(s, t);
    LineServed(p.Get(id), t.Get(id), id, Since(s, t));
  }

  lemma LineIsPrepared(s: State, n: nat, level: bool)
    requires n < 16
    ensures Prepare(s, Irq(n, level)) == Raise(Latch(s, Controller(n), n % 8, level), Controller(n))
  {
    hide Latch;
  }

  lemma LineServed(c: Chip, d: Chip, id: Id, acks: seq<Ack>)
    requires Served(c, d, id, acks)
    ensures forall k: Line :: !(id == Master && k == 2) ==>
              && (k in d.prevIrr <==> k in c.prevIrr)
              && (k in d.irr <==> k in c.irr && (k in Acked(acks, id) ==> k in c.elcr))
  {
    hide Setup, Acked, LastAcked;
  }

  lemma LatchedRegisters(s: State, id: Id, line: Line, level: bool)
    ensures var p := Latch(s, id, line, level);
      var c, d := s.Get(id), p.Get(id);
      && p.hist.acks == s.hist.acks && p.Get(Other(id)) == s.Get(Other(id)) && d.elcr == c.elcr
      && d.prevIrr == (if level then c.prevIrr + {line} else c.prevIrr - {line})
      && d.irr == (if !level then c.irr - {line}
                   else if line in c.elcr || line !in c.prevIrr then c.irr + {line} else c.irr)
  {
  }

  // ----- Operation command word 2 -----

  /**
  The line that a command takes out of service: a specific one names it, a
  non-specific one takes the line in service that is first in the rotated order.
  */
  predicate Retires(c: Chip, value: nat, line: Line) {
    || (value / 32 in {3, 7} && line == value % 8)
    || (value / 32 in {1, 5} && line in c.isr
        && forall b: Line :: b in c.isr ==> Place(line, c.priorityAdd) <= Place(b, c.priorityAdd))
  }

  /** What the command writes into the registers, before the update that follows. */
  predicate Commanded(c: Chip, d: Chip, value: nat) {
    && (forall k: Line :: k in d.isr <==> k in c.isr && !Retires(c, value, k))
    && (value / 32 == 6 || value / 32 == 7 ==> Place(value % 8, d.priorityAdd) == 7)
    && (value / 32 == 5 ==> forall k: Line :: Retires(c, value, k) ==> Place(k, d.priorityAdd) == 7)
    && (value / 32 !in {5, 6, 7} || (value / 32 == 5 && c.isr == {}) ==> d.priorityAdd == c.priorityAdd)
    && d.rotateOnAutoEoi == (if value / 32 in {0, 4} then value / 32 == 4 else c.rotateOnAutoEoi)
    && d == c.(isr := d.isr, priorityAdd := d.priorityAdd, rotateOnAutoEoi := d.rotateOnAutoEoi)
  }

  lemma FirstInService(c: Chip, value: nat, line: Line)
    requires value / 32 == 1 || value / 32 == 5
    ensures Retires(c, value, line) <==>
      Priority(c.isr, c.priorityAdd) < 8 && line == LineAt(Priority(c.isr, c.priorityAdd), c.priorityAdd)
  {
    var add := c.priorityAdd;
    var p := Priority(c.isr, add);
    PriorityIsMinimum(c.isr, add);
    forall b: Line ensures PriorityOf(b, add) == Place(b, add) {
      PlaceIsPriority(b, add);
    }
    if p < 8 {
      PriorityInverse(line, p, add);
      hide Priority, PriorityOf, LineAt, Place;
      assert Place(LineAt(p, add), add) == p;
      if Retires(c, value, line) {
        assert LineAt(p, add) in c.isr;
        assert LineAt(Place(line, add), add) == line;
      }
    }
  }

  lemma NextIsLast(line: Line)
    ensures Place(line, Wrap(line + 1)) == 7
  {
  }

  lemma RetireIsCommanded(c: Chip, value: nat, line: Line)
    requires value / 32 == 1 || value / 32 == 5
    requires forall k: Line :: Retires(c, value, k) <==> k == line
    requires c.isr != {}
    ensures Commanded(c, WriteOcw2(c, Retire(line, if value / 32 == 5 then Wrap(line + 1) else c.priorityAdd)), value)
  {
    NextIsLast(line);
    hide Retires, Place, Wrap;
  }

  lemma NothingIsCommanded(c: Chip, value: nat)
    requires value / 32 == 1 || value / 32 == 5
    requires forall k: Line :: !Retires(c, value, k)
    ensures Commanded(c, WriteOcw2(c, Nothing), value)
  {
    hide Retires, Place;
  }

  lemma NonSpecificIsDecoded(c: Chip, value: nat)
    requires value / 32 == 1 || value / 32 == 5
    ensures Commanded(c, WriteOcw2(c, DecodeOcw2(c, value)), value)
  {
    hide Retires, Commanded, Priority, LineAt, WriteOcw2;
    forall k: Line ensures Retires(c, value, k) <==>
        Priority(c.isr, c.priorityAdd) < 8 && k == LineAt(Priority(c.isr, c.priorityAdd), c.priorityAdd)
    {
      FirstInService(c, value, k);
    }
    PriorityIsMinimum(c.isr, c.priorityAdd);
    if Priority(c.isr, c.priorityAdd) == 8 {
      NothingIsCommanded(c, value);
    } else {
      var line := LineAt(Priority(c.isr, c.priorityAdd), c.priorityAdd);
      RetireIsCommanded(c, value, line);
    }
  }

  lemma SpecificIsDecoded(c: Chip, value: nat)
    requires value / 32 != 1 && value / 32 != 5
    ensures Commanded(c, WriteOcw2(c, DecodeOcw2(c, value)), value)
  {
    NextIsLast(value % 8);
    hide Place, Wrap;
  }

  lemma WordKinds(value: nat)
    ensures IsIcw1(value) <==> IsSet(value, 4)
    ensures IsOcw3(value) <==> !IsSet(value, 4) && IsSet(value, 3)
    ensures Bit(value, 0) == IsSet(value, 0) && Bit(value, 1) == IsSet(value, 1) && Bit(value, 2) == IsSet(value, 2)
    ensures Bit(value, 5) == IsSet(value, 5) && Bit(value, 6) == IsSet(value, 6) && Bit(value, 4) == IsSet(value, 4)
  {
    BitIsDigit(value, 0);
    BitIsDigit(value, 1);
    BitIsDigit(value, 2);
    BitIsDigit(value, 3);
    BitIsDigit(value, 4);
    BitIsDigit(value, 5);
    BitIsDigit(value, 6);
    hide Bit, IsSet;
  }

  lemma CommandIsPrepared(s: State, id: Id, value: nat)
    ensures Prepare(s, Out(CommandPort(id), value)) == PrepareCommand(s, id, value)
    ensures Prepare(s, Out(DataPort(id), value)) == PrepareData(s, id, value)
    ensures Prepare(s, Out(ElcrPort(id), value)) == PrepareElcr(s, id, value)
    ensures Prepare(s, In(CommandPort(id))) == PrepareRead(s, id)
    ensures Prepare(s, In(DataPort(id))) == PrepareRead(s, id)
  {
    hide PrepareCommand, PrepareData, PrepareElcr, PrepareRead;
  }

  lemma Ocw2Registers(s: State, id: Id, value: nat)
    ensures var p := PrepareOcw2(s, id, DecodeOcw2(s.Get(id), value)).s;
      && Commanded(s.Get(id), p.Get(id), value)
      && p.Get(Other(id)) == s.Get(Other(id)) && p.hist.acks == s.hist.acks
  {
    if value / 32 == 1 || value / 32 == 5 {
      NonSpecificIsDecoded(s.Get(id), value);
    } else {
      SpecificIsDecoded(s.Get(id), value);
    }
    hide DecodeOcw2, WriteOcw2, Commanded, Without;
  }

  /**
  A command word 2 retires exactly the line it is for, rotates exactly as it says,
  and from there on lines enter service only by being acknowledged.
  */
  lemma EndOfInterrupt(s: State, id: Id, value: nat)
    requires !IsSet(value, 4) && !IsSet(value, 3) && Legal(s, Out(CommandPort(id), value))
    ensures var t := Step(s, Out(CommandPort(id), value));
      && s.hist.acks <= t.hist.acks
      && (exists d: Chip :: Commanded(s.Get(id), d, value) && Served(d, t.Get(id), id, Since(s, t)))
      && Served(s.Get(Other(id)), t.Get(Other(id)), Other(id), Since(s, t))
  {
    hide *;
    var op := Out(CommandPort(id), value);
    WordKinds(value);
    CommandIsPrepared(s, id, value);
    Ocw2Registers(s, id, value);
    var p := Prepare(s, op);
    assert p == PrepareOcw2(s, id, DecodeOcw2(s.Get(id), value)) by { NotInitialising(s, id, value); }
    CommandIsNotIcw1(id, value);
    PreparedServes(s, op, p.s.Get(id), id);
  }

  lemma CommandIsNotIcw1(id: Id, value: nat)
    requires !IsSet(value, 4)
    ensures NotIcw1(Out(CommandPort(id), value))
  {
  }

  lemma NotInitialising(s: State, id: Id, value: nat)
    requires !IsIcw1(value) && !IsOcw3(value)
    ensures PrepareCommand(s, id, value) == PrepareOcw2(s, id, DecodeOcw2(s.Get(id), value))
  {
    hide IsIcw1, IsOcw3, PrepareOcw2, DecodeOcw2;
  }

  predicate NotIcw1(op: Op) {
    op.Out? && op.port in {0x20, 0xA0} ==> !IsSet(op.value, 4)
  }

  /** After an operation's own changes only acknowledgements change the registers. */
  lemma PreparedServes(s: State, op: Op, d: Chip, id: Id)
    requires Legal(s, op) && Prepare(s, op).s.Get(id) == d && Prepare(s, op).s.hist.acks == s.hist.acks
    requires Prepare(s, op).s.Get(Other(id)) == s.Get(Other(id)) && NotIcw1(op)
    ensures var t := Step(s, op);
      && s.hist.acks <= t.hist.acks
      && Served(d, t.Get(id), id, Since(s, t))
      && Served(s.Get(Other(id)), t.Get(Other(id)), Other(id), Since(s, t))
  {
    if op.Out? {
      WordKinds(op.value);
    }
    hide Prepare, Settle, Terminates, Cascade, Served, IsIcw1, IsSet;
    var p := Prepare(s, op);
    var t := Step(s, op);
    if p.Raise? {
      SettleServes(p.s, p.id);
    } else {
      ServingItself(p.s);
    }
    assert Since(p.s, t) == Since(s, t);
  }

  // ----- The mask register, the level register and what reads give -----

  lemma DataRegisters(s: State, id: Id, value: nat)
    ensures var c := s.Get(id);
      var p := PrepareData(s, id, value).s;
      && p.Get(Other(id)) == s.Get(Other(id)) && p.hist == s.hist
      && (c.initState == 0 ==> p.Get(id) == c.(imr := Bits(value)))
  {
    hide Bits, Bit, VectorBase;
  }

  /** A mask that is written reads back, and masks exactly the lines whose digit is 1. */
  lemma MaskReadsBack(s: State, id: Id, value: nat)
    requires s.Get(id).initState == 0 && !s.Get(id).poll && Legal(s, Out(DataPort(id), value))
    ensures var t := Step(s, Out(DataPort(id), value));
      && ReadValue(t, DataPort(id)) == Some(value % 256)
      && (forall k: Line :: k in t.Get(id).imr <==> IsSet(value, k))
      && s.hist.acks <= t.hist.acks
      && Served(s.Get(id).(imr := t.Get(id).imr), t.Get(id), id, Since(s, t))
  {
    hide *;
    MaskBits(value);
    var op := Out(DataPort(id), value);
    DataRegisters(s, id, value);
    CommandIsPrepared(s, id, value);
    DataIsNoCommand(id, value);
    var c := s.Get(id).(imr := Bits(value));
    PreparedServes(s, op, c, id);
    var t := Step(s, op);
    ServedKeepsSetup(c, t.Get(id), id, Since(s, t));
    DataReads(t, id);
  }

  lemma MaskBits(value: nat)
    ensures ByteOf(Bits(value)) == value % 256
    ensures forall k: Line :: k in Bits(value) <==> IsSet(value, k)
  {
    var all: Mask := {0, 1, 2, 3, 4, 5, 6, 7};
    assert Bits(value) * all == Bits(value);
    forall k: Line ensures k in Bits(value) <==> IsSet(value, k) {
      KeptBits(value, all, k);
    }
    hide Bits, ByteOf, IsSet;
    ByteUnderMask(value, all);
  }

  lemma DataIsNoCommand(id: Id, value: nat)
    ensures NotIcw1(Out(DataPort(id), value))
  {
  }

  lemma ServedKeepsSetup(c: Chip, d: Chip, id: Id, acks: seq<Ack>)
    requires Served(c, d, id, acks)
    ensures d.imr == c.imr && d.base == c.base && d.initState == c.initState && d.poll == c.poll
    ensures d.elcr == c.elcr && d.elcrMask == c.elcrMask
  {
    SetupParts(c, d);
    hide Setup, Acked, LastAcked;
  }

  lemma DataReads(s: State, id: Id)
    requires !s.Get(id).poll
    ensures ReadValue(s, DataPort(id)) == Some(ByteOf(s.Get(id).imr))
  {
    hide ByteOf, PollValue;
  }

  /** Without a poll, the command port gives the lines in service as binary digits. */
  lemma ServiceReads(s: State, id: Id)
    requires !s.Get(id).poll
    ensures var m := s.Get(id).isr;
      ReadValue(s, CommandPort(id)) == Some(
        Digit(m, 0) + Digit(m, 1) + Digit(m, 2) + Digit(m, 3) + Digit(m, 4) + Digit(m, 5) + Digit(m, 6) + Digit(m, 7))
  {
    ByteIsSum(s.Get(id).isr);
    hide ByteOf, PollValue, Digit;
  }

  /** A command word 3 changes the poll flag, the read selection and the special mask mode, and nothing else. */
  lemma Ocw3Written(s: State, id: Id, value: nat)
    requires !IsSet(value, 4) && IsSet(value, 3)
    ensures var op := Out(CommandPort(id), value);
      var c := s.Get(id);
      && Legal(s, op)
      && Step(s, op) == s.With(id, c.(
           poll := c.poll || IsSet(value, 2),
           readSelect := if IsSet(value, 1) then IsSet(value, 0) else c.readSelect,
           specialMask := if IsSet(value, 6) then IsSet(value, 5) else c.specialMask))
  {
    WordKinds(value);
    CommandIsPrepared(s, id, value);
    hide Prepare, IsIcw1, IsOcw3, Bit, IsSet;
  }

  /** A polled controller names the chosen line with bit 7 set on either port, or answers 0 if there is none. */
  lemma PollReads(s: State, id: Id, port: nat, line: Line)
    requires s.Get(id).poll && (port == CommandPort(id) || port == DataPort(id))
    ensures ReadValue(s, port) == Some(0x80 + line) <==> Chosen(s.Get(id), id, line)
    ensures ReadValue(s, port) == Some(0) <==> forall k: Line :: !Chosen(s.Get(id), id, k)
  {
    var c := s.Get(id);
    assert ReadValue(s, port) == Some(PollValue(c, id)) by { hide GetIrq; }
    GetIrqIsChosen(c, id, line);
    BestIsChosen(c, id);
    hide GetIrq, Chosen, ReadValue;
  }

  /**
  A polled read ends the poll. If a line is chosen it is acknowledged before anything
  else, and what it leaves to do is done; if none is, nothing else changes.
  */
  lemma PollServes(s: State, id: Id, port: nat)
    requires s.Get(id).poll && (port == CommandPort(id) || port == DataPort(id)) && Legal(s, In(port))
    ensures var t := Step(s, In(port));
      && s.hist.acks <= t.hist.acks
      && Served(s.Get(id).(poll := false), t.Get(id), id, Since(s, t))
      && Served(s.Get(Other(id)), t.Get(Other(id)), Other(id), Since(s, t))
      && !t.Get(id).poll
      && (forall line: Line :: Chosen(s.Get(id), id, line) ==>
            Since(s, t) != [] && Since(s, t)[0] == Ack(id, line, s.Get(id).isr))
      && ((forall line: Line :: !Chosen(s.Get(id), id, line)) ==> t == s.With(id, s.Get(id).(poll := false)))
  {
    hide *;
    var e := EndPoll(s, id);
    PollEnded(s, id);
    PollIsPrepared(s, id, port);
    var irq := GetIrq(s.Get(id), id);
    ChoiceIsGetIrq(s.Get(id), id);
    var t := Step(s, In(port));
    if irq >= 0 {
      var line: Line := irq;
      var p := Acknowledge(e, id, line);
      assert Chosen(s.Get(id), id, line);
      AcknowledgeServes(e, id, line);
      SettleKeepsServing(e, p, id);
      SettleServes(p, id);
      ServingParts(e, p, id);
      ServingParts(p, t, id);
      AckIsFirst(e, p, t, id);
    } else {
      ServingItself(e);
    }
    ServingParts(e, t, id);
    SinceSame(s, e, t);
    ServedKeepsSetup(e.Get(id), t.Get(id), id, Since(s, t));
  }

  lemma ChoiceIsGetIrq(c: Chip, id: Id)
    ensures -1 <= GetIrq(c, id) < 8 && (GetIrq(c, id) >= 0 ==> GetIrq(c, id) in c.irr)
    ensures forall line: Line :: Chosen(c, id, line) <==> GetIrq(c, id) == line
  {
    forall line: Line ensures Chosen(c, id, line) <==> GetIrq(c, id) == line {
      GetIrqIsChosen(c, id, line);
    }
    BestIsChosen(c, id);
    hide GetIrq;
  }

  lemma PollEnded(s: State, id: Id)
    ensures var e := EndPoll(s, id);
      && e.Get(id) == s.Get(id).(poll := false) && e.Get(Other(id)) == s.Get(Other(id)) && e.hist == s.hist
      && e.Get(id).irr == s.Get(id).irr && e.Get(id).isr == s.Get(id).isr
      && e == s.With(id, s.Get(id).(poll := false))
  {
  }

  lemma PollIsPrepared(s: State, id: Id, port: nat)
    requires s.Get(id).poll && (port == CommandPort(id) || port == DataPort(id)) && Legal(s, In(port))
    ensures var e := EndPoll(s, id);
      var irq := GetIrq(s.Get(id), id);
      && (irq < 0 ==> Step(s, In(port)) == e)
      && (irq >= 0 ==>
           var p := Acknowledge(e, id, irq);
           Terminates(Entry(p, id)) && Step(s, In(port)) == Settle(Entry(p, id)))
  {
    PollIsNoInput(s.Get(id), id);
    CommandIsPrepared(s, id, 0);
    hide GetIrq, Acknowledge, Settle, Terminates, Cascade, Prepare;
  }

  lemma AckIsFirst(e: State, p: State, t: State, id: Id)
    requires e.hist.acks <= p.hist.acks <= t.hist.acks && |Since(e, p)| == 1
    ensures Since(e, t) != [] && Since(e, t)[0] == Since(e, p)[0]
  {
  }

  lemma ServingParts(e: State, t: State, id: Id)
    requires Serving(e, t)
    ensures e.hist.acks <= t.hist.acks
    ensures Served(e.Get(id), t.Get(id), id, Since(e, t))
    ensures Served(e.Get(Other(id)), t.Get(Other(id)), Other(id), Since(e, t))
  {
    hide Served;
  }

  lemma SinceSame(s: State, e: State, t: State)
    requires e.hist == s.hist && e.hist.acks <= t.hist.acks
    ensures Since(s, t) == Since(e, t)
  {
  }

  // ----- The level registers -----

  predicate LevelMasks(s: State) {
    s.master.elcrMask == {3, 4, 5, 6, 7} && s.slave.elcrMask == {1, 2, 3, 4, 6, 7}
  }

  /** 0xF8 and 0xDE. */
  lemma PowerOnLevelMasks(s: State)
    ensures LevelMasks(PowerOn(s))
  {
    forall i: Line
      ensures i in Bits(MASTER_ELCR_MASK) <==> IsSet(0xF8, i)
      ensures i in Bits(SLAVE_ELCR_MASK) <==> IsSet(0xDE, i)
    {
      BitIsDigit(0xF8, i);
      BitIsDigit(0xDE, i);
    }
    hide Bits, Bit;
    assert Bits(MASTER_ELCR_MASK) == {3, 4, 5, 6, 7};
    assert Bits(SLAVE_ELCR_MASK) == {1, 2, 3, 4, 6, 7};
  }

  lemma WritesKeepLevelMasks(s: State, id: Id, value: nat)
    requires LevelMasks(s)
    ensures LevelMasks(PrepareCommand(s, id, value).s)
    ensures LevelMasks(PrepareData(s, id, value).s)
    ensures LevelMasks(PrepareElcr(s, id, value).s)
  {
    hide Bit, Bits, DecodeOcw2, Without, VectorBase;
  }

  lemma InputsKeepLevelMasks(s: State, id: Id, index: nat, level: bool)
    requires LevelMasks(s)
    ensures LevelMasks(PrepareRead(s, id).s) && LevelMasks(Latch(s, id, index, level))
  {
    hide GetIrq, Without;
  }

  lemma PrepareKeepsLevelMasks(s: State, op: Op)
    requires LevelMasks(s)
    ensures LevelMasks(Prepare(s, op).s)
  {
    hide PrepareCommand, PrepareData, PrepareElcr, PrepareRead, Latch, LevelMasks;
    match op
    case Irq(n, level) =>
      InputsKeepLevelMasks(s, Master, n, level);
      InputsKeepLevelMasks(s, Slave, if n <= 7 then 0 else n - 8, level);
    case Out(_, value) =>
      WritesKeepLevelMasks(s, Master, value);
      WritesKeepLevelMasks(s, Slave, value);
    case In(_) =>
      InputsKeepLevelMasks(s, Master, 0, false);
      InputsKeepLevelMasks(s, Slave, 0, false);
  }

  lemma StepKeepsLevelMasks(s: State, op: Op)
    requires LevelMasks(s) && Legal(s, op)
    ensures LevelMasks(Step(s, op))
  {
    PrepareKeepsLevelMasks(s, op);
    var p := Prepare(s, op);
    var t := Step(s, op);
    hide Prepare, Settle, Terminates, Cascade, Served, IsIcw1;
    if p.Raise? {
      SettleServes(p.s, p.id);
      var u := Settle(Entry(p.s, p.id));
      ServedKeepsSetup(p.s.master, u.master, Master, Since(p.s, u));
      ServedKeepsSetup(p.s.slave, u.slave, Slave, Since(p.s, u));
    }
  }

  /**
  In every run from power-on, a level register reads back what was written to it
  without the lines that cannot be level triggered.
  */
  lemma LevelReadsBack(r: State, ops: seq<Op>, value: nat)
    requires CanRun(PowerOn(r), ops)
    ensures var s := Run(PowerOn(r), ops);
      && Legal(s, Out(0x4D0, value)) && Legal(s, Out(0x4D1, value))
      && ReadValue(Step(s, Out(0x4D0, value)), 0x4D0) == Some(value % 256 - value % 8)
      && ReadValue(Step(s, Out(0x4D1, value)), 0x4D1)
           == Some(value % 256 - value % 2 - 32 * (value / 32 % 2))
      && (forall k: Line :: k in Step(s, Out(0x4D0, value)).master.elcr <==> IsSet(value, k) && k > 2)
      && (forall k: Line :: k in Step(s, Out(0x4D1, value)).slave.elcr <==> IsSet(value, k) && k != 0 && k != 5)
  {
    hide *;
    var s := Run(PowerOn(r), ops);
    RunKeepsLevelMasks(r, ops);
    LevelWritten(s, Master, value);
    LevelWritten(s, Slave, value);
    LevelPorts();
  }

  lemma LevelPorts()
    ensures ElcrPort(Master) == 0x4D0 && ElcrPort(Slave) == 0x4D1
  {
  }

  lemma LevelWritten(s: State, id: Id, value: nat)
    requires LevelMasks(s)
    ensures var op := Out(ElcrPort(id), value);
      && Legal(s, op)
      && (id == Master ==>
           && ReadValue(Step(s, op), ElcrPort(id)) == Some(value % 256 - value % 8)
           && forall k: Line :: k in Step(s, op).master.elcr <==> IsSet(value, k) && k > 2)
      && (id == Slave ==>
           && ReadValue(Step(s, op), ElcrPort(id)) == Some(value % 256 - value % 2 - 32 * (value / 32 % 2))
           && forall k: Line :: k in Step(s, op).slave.elcr <==> IsSet(value, k) && k != 0 && k != 5)
  {
    var mask := s.Get(id).elcrMask;
    ByteUnderMask(value, mask);
    forall k: Line ensures k in Bits(value) * mask <==> IsSet(value, k) && k in mask {
      KeptBits(value, mask, k);
    }
    hide Bits, ByteOf, IsSet, Step, Legal;
    LevelStep(s, id, value);
  }

  lemma LevelStep(s: State, id: Id, value: nat)
    ensures var op := Out(ElcrPort(id), value);
      var kept := Bits(value) * s.Get(id).elcrMask;
      && Legal(s, op) && Step(s, op).Get(id).elcr == kept
      && ReadValue(Step(s, op), ElcrPort(id)) == Some(ByteOf(kept))
  {
    CommandIsPrepared(s, id, value);
    hide Bits, ByteOf, Prepare;
  }

  lemma RunKeepsLevelMasks(r: State, ops: seq<Op>)
    requires CanRun(PowerOn(r), ops)
    ensures LevelMasks(Run(PowerOn(r), ops))
  {
    PowerOnLevelMasks(r);
    forall t, op | LevelMasks(t) && Legal(t, op) ensures LevelMasks(Step(t, op)) {
      StepKeepsLevelMasks(t, op);
    }
    hide LevelMasks, Step, Legal, PowerOn;
    AlwaysTrue(PowerOn(r), ops);
    RunKeeps(PowerOn(r), ops, t => LevelMasks(t), (t, op) => true);
  }

  /** Any other port is not of these controllers. */
  lemma OtherPorts(s: State, port: nat, value: nat)
    requires port !in {0x20, 0x21, 0xA0, 0xA1, 0x4D0, 0x4D1}
    ensures ReadValue(s, port) == None
    ensures Legal(s, In(port)) && Step(s, In(port)) == s && Legal(s, Out(port, value)) && Step(s, Out(port, value)) == s
  {
  }

  /** After power-on a controller has nothing requested, masked or in service, line 0 first and no mode turned on. */
  lemma PowerOnIsBlank(s: State, id: Id)
    ensures var c := PowerOn(s).Get(id);
      && c.irr == {} && c.prevIrr == {} && c.imr == {} && c.isr == {} && c.elcr == {} && c.base == 0
      && c.initState == 0 && c.priorityAdd == 0 && !c.poll && !c.specialMask && !c.specialFullyNested
      && !c.autoEoi && !c.rotateOnAutoEoi && !c.output
  {
  }
}
