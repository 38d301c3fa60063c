/**
No request is left waiting: whatever a guest or a device does, a request that may
interrupt has been handed to the processor when the operation returns.
*/
module PicWaiting {
  import opened PicChip
  import opened PicCascade
  import opened PicDelivery
  import opened PicRuns
  import opened PicRegisters
  import opened PicCommands

  /** Nothing that the master has to serve is left. */
  predicate NoneWaits(s: State) {
    forall line: Line :: !Chosen(s.master, Master, line)
  }

  /**
  The two writes that change what may interrupt without looking for it: a command word
  3 that changes the master's special mask mode, and a fourth initialisation word that
  changes its special fully nested mode.
  */
  predicate Unnoticed(s: State, op: Op) {
    match op
    case Out(port, value) =>
      || (port == 0x20 && !IsSet(value, 4) && IsSet(value, 3)
          && IsSet(value, 6) && IsSet(value, 5) != s.master.specialMask)
      || (port == 0x21 && s.master.initState == 3 && IsSet(value, 4) != s.master.specialFullyNested)
    case _ => false
  }

  predicate SameChoice(c: Chip, d: Chip) {
    && d.irr == c.irr && d.imr == c.imr && d.isr == c.isr && d.priorityAdd == c.priorityAdd
    && d.specialMask == c.specialMask && d.specialFullyNested == c.specialFullyNested
  }

  lemma SameChoiceWaits(s: State, t: State)
    requires NoneWaits(s) && SameChoice(s.master, t.master)
    ensures NoneWaits(t)
  {
    forall line: Line ensures !Chosen(t.master, Master, line) {
      assert !Chosen(s.master, Master, line);
    }
    hide Place;
  }

  lemma NoneMeansNoneWaits(s: State)
    ensures GetIrq(s.master, Master) == -1 <==> NoneWaits(s)
  {
    ChoiceIsGetIrq(s.master, Master);
    hide GetIrq, Chosen;
    if GetIrq(s.master, Master) != -1 {
      var line: Line := GetIrq(s.master, Master);
      assert Chosen(s.master, Master, line);
    }
  }

  lemma CommandIsQuiet(s: State, id: Id, value: nat)
    requires PrepareCommand(s, id, value).Quiet? && !Unnoticed(s, Out(CommandPort(id), value))
    ensures SameChoice(s.master, PrepareCommand(s, id, value).s.master)
  {
    WordKinds(value);
    hide IsIcw1, IsOcw3, Bit, IsSet, DecodeOcw2;
  }

  lemma DataIsQuiet(s: State, id: Id, value: nat)
    requires PrepareData(s, id, value).Quiet? && !Unnoticed(s, Out(DataPort(id), value))
    ensures SameChoice(s.master, PrepareData(s, id, value).s.master)
  {
    WordKinds(value);
    hide Bit, Bits, IsSet, VectorBase;
  }

  lemma RestIsQuiet(s: State, id: Id, value: nat)
    ensures SameChoice(s.master, PrepareElcr(s, id, value).s.master)
    ensures PrepareRead(s, id).Quiet? ==> SameChoice(s.master, PrepareRead(s, id).s.master)
  {
    hide Bits, GetIrq, Acknowledge;
  }

  lemma PrepareIsQuiet(s: State, op: Op)
    requires Prepare(s, op).Quiet? && !Unnoticed(s, op)
    ensures SameChoice(s.master, Prepare(s, op).s.master)
  {
    hide PrepareCommand, PrepareData, PrepareElcr, PrepareRead, Latch, IsSet, SameChoice;
    assert SameChoice(s.master, s.master) by { ItselfIsSame(s.master); }
    match op
    case Irq(_, _) =>
    case Out(port, value) =>
      if port == 0x20 {
        CommandIsQuiet(s, Master, value);
      } else if port == 0xA0 {
        CommandIsQuiet(s, Slave, value);
      } else if port == 0x21 {
        DataIsQuiet(s, Master, value);
      } else if port == 0xA1 {
        DataIsQuiet(s, Slave, value);
      } else {
        RestIsQuiet(s, Master, value);
        RestIsQuiet(s, Slave, value);
      }
    case In(_) =>
      RestIsQuiet(s, Master, 0);
      RestIsQuiet(s, Slave, 0);
  }

  lemma ItselfIsSame(c: Chip)
    ensures SameChoice(c, c)
  {
  }

  lemma CompleteIsSame(t: State, op: Op)
    ensures SameChoice(t.master, Complete(t, op).master)
  {
    hide IsIcw1, Bit;
  }

  lemma StepLeavesNoneWaiting(s: State, op: Op)
    requires Backed(s) && Disciplined(s, op) && Legal(s, op) && NoneWaits(s) && !Unnoticed(s, op)
    ensures NoneWaits(Step(s, op))
  {
    hide Prepare, Entry, Settle, Terminates, NoneWaits, Backed, Disciplined, Unnoticed, Complete, GetIrq, SameChoice;
    PrepareKeepsBacked(s, op);
    var p := Prepare(s, op);
    if p.Raise? {
      var e := Entry(p.s, p.id);
      BackedSettleIsExact(e);
      var u := Settle(e);
      NoneMeansNoneWaits(u);
      CompleteIsSame(u, op);
      SameChoiceWaits(u, Complete(u, op));
    } else {
      PrepareIsQuiet(s, op);
      SameChoiceWaits(s, p.s);
    }
  }

  /**
  Over every disciplined run without those two writes, no request that the master has
  to serve is left waiting after any operation: unmasking a line, ending or rotating an
  interrupt and polling deliver what they make deliverable.
  */
  lemma RunLeavesNoneWaiting(s: State, ops: seq<Op>)
    requires CanRun(s, ops) && Backed(s) && NoneWaits(s)
    requires Always(s, ops, (t, op) => Disciplined(t, op) && !Unnoticed(t, op))
    ensures NoneWaits(Run(s, ops))
  {
    forall t, op | Backed(t) && NoneWaits(t) && Disciplined(t, op) && !Unnoticed(t, op) && Legal(t, op)
      ensures Backed(Step(t, op)) && NoneWaits(Step(t, op))
    {
      StepKeepsBacked(t, op);
      StepLeavesNoneWaiting(t, op);
    }
    hide Backed, NoneWaits, Step, Legal, Disciplined, Unnoticed;
    RunKeeps(s, ops, t => Backed(t) && NoneWaits(t), (t, op) => Disciplined(t, op) && !Unnoticed(t, op));
  }

  /** Nothing waits after power-on. */
  lemma PowerOnLeavesNoneWaiting(s: State)
    ensures NoneWaits(PowerOn(s))
  {
  }

  lemma SpecialMaskDigits()
    ensures !IsSet(0x68, 4) && IsSet(0x68, 3) && IsSet(0x68, 5) && IsSet(0x68, 6)
  {
    assert 0x68 / 16 % 2 == 0 && 0x68 / 8 % 2 == 1 && 0x68 / 32 % 2 == 1 && 0x68 / 64 % 2 == 1;
  }

  /** With line 4 in service and masked and line 6 requested, turning special mask mode on leaves line 6 waiting. */
  lemma SpecialMaskLeavesWaiting(s: State)
    requires s.master.irr == {6} && s.master.isr == {4} && s.master.imr == {4} && s.master.priorityAdd == 0
    requires !s.master.specialMask && !s.master.specialFullyNested
    ensures NoneWaits(s)
    ensures Legal(s, Out(0x20, 0x68))
    ensures var t := Step(s, Out(0x20, 0x68)); Chosen(t.master, Master, 6) && t.hist.vectors == s.hist.vectors
  {
    SpecialMaskDigits();
    Ocw3Written(s, Master, 0x68);
    hide IsSet, Step, Legal;
  }
}
