/**
What one call of UpdateIRQ does as a whole: it drains every deliverable request,
accounts for each acknowledgement with one vector, and touches nothing but the
request, in-service, priority and output registers.
*/
module PicDelivery {
  import opened PicChip
  import opened PicCascade

  /** An invariant of the recursion's rounds holds when the recursion has returned. */
  lemma {:induction false} SettleKeeps(s: State, inv: State -> bool)
    requires Terminates(s) && inv(s)
    requires forall t :: inv(t) && Delivery(t).Some? ==> inv(Delivery(t).value)
    requires forall t, out :: inv(t) ==> inv(SetOutput(t, out))
    requires forall t, v :: inv(t) ==> inv(Send(t, v))
    ensures inv(Settle(s))
    decreases Depth(s)
  {
    hide GetIrq, Delivery, SetOutput, Send;
    if Delivery(s).Some? {
      NextRound(s);
      SettleKeeps(Delivery(s).value, inv);
    }
  }

  // ----- Drain -----

  /**
  When UpdateIRQ(PIC_MASTER) returns, nothing deliverable is left: the master has
  nothing to serve, or only a cascade request that the slave no longer backs.
  */
  lemma {:induction false} SettleDrains(s: State)
    requires Terminates(s)
    ensures var t := Settle(s);
            || GetIrq(t.master, Master) == -1
            || (GetIrq(t.master, Master) == CASCADE && GetIrq(t.slave, Slave) == -1)
    decreases Depth(s)
  {
    if Delivery(s).Some? {
      NextRound(s);
      hide GetIrq, Delivery;
      SettleDrains(Delivery(s).value);
    } else {
      OutputIsNoInput(s.master, Master, GetIrq(s.master, Master) >= 0);
    }
  }

  lemma OutputIsNoInput(c: Chip, id: Id, out: bool)
    ensures GetIrq(c.(output := out), id) == GetIrq(c, id)
  {
  }

  // ----- Frame -----

  /** The registers of a controller that only the guest's own writes change. */
  function Setup(c: Chip): Chip {
    c.(prevIrr := {}, irr := {}, isr := {}, priorityAdd := 0, output := false)
  }

  lemma SettleKeepsSetup(s: State)
    requires Terminates(s)
    ensures Setup(Settle(s).master) == Setup(s.master) && Setup(Settle(s).slave) == Setup(s.slave)
  {
    var inv := (t: State) => Setup(t.master) == Setup(s.master) && Setup(t.slave) == Setup(s.slave);
    forall t | inv(t) && Delivery(t).Some?
      ensures inv(Delivery(t).value)
    {
      RoundKeepsSetup(t);
    }
    hide Delivery;
    SettleKeeps(s, inv);
  }

  lemma RoundKeepsSetup(s: State)
    requires Delivery(s).Some?
    ensures Setup(Delivery(s).value.master) == Setup(s.master)
    ensures Setup(Delivery(s).value.slave) == Setup(s.slave)
  {
    RoundShape(s);
    hide GetIrq, Delivery;
  }

  // ----- Accounts -----

  function VectorFor(a: Ack, masterBase: int, slaveBase: int): int {
    (if a.id == Master then masterBase else slaveBase) + a.line
  }

  /** The vectors of a list of acknowledgements, the last acknowledged first. */
  function VectorsFor(acks: seq<Ack>, masterBase: int, slaveBase: int): (v: seq<int>)
    ensures |v| == |acks|
  {
    if acks == [] then []
    else VectorsFor(acks[1..], masterBase, slaveBase) + [VectorFor(acks[0], masterBase, slaveBase)]
  }

  /** The vector that GetCurrentIRQ reports when the slave has nothing for the cascade line. */
  function SpuriousVectors(t: State): (v: seq<int>) {
    if GetIrq(t.master, Master) < 0 then [] else [t.slave.base + 7]
  }

  /** A round's vector is sent after everything the inner rounds send. */
  lemma SettleUnfolds(s: State)
    requires Terminates(s) && Delivery(s).Some?
    ensures var (id, line) := NextAck(s);
            var next := Delivery(s).value;
            && Terminates(next) && 0 <= line < 8
            && next.hist.acks == s.hist.acks + [Ack(id, line, s.Get(id).isr)]
            && next.hist.vectors == s.hist.vectors
            && next.master.base == s.master.base && next.slave.base == s.slave.base
            && Settle(s) == Send(Settle(next), s.Get(id).base + line)
  {
    hide Delivery, Settle, Terminates, GetIrq;
    NextRound(s);
    RoundShape(s);
    RoundKeepsBases(s);
    SettleEquation(s);
  }

  lemma SettleEquation(s: State)
    requires Terminates(s) && Delivery(s).Some?
    ensures var (id, line) := NextAck(s);
            && Terminates(Delivery(s).value)
            && Settle(s) == Send(Settle(Delivery(s).value), s.Get(id).base + line)
  {
    hide GetIrq, Acknowledge, Cascade, Terminates;
    NextRound(s);
    RoundKeepsBases(s);
    SettleKeepsBases(Delivery(s).value);
  }

  lemma RoundKeepsBases(s: State)
    requires Delivery(s).Some?
    ensures Delivery(s).value.master.base == s.master.base && Delivery(s).value.slave.base == s.slave.base
  {
    RoundKeepsSetup(s);
    hide Delivery;
    assert Setup(s.master).base == s.master.base;
    assert Setup(s.slave).base == s.slave.base;
  }

  lemma SettleKeepsBases(s: State)
    requires Terminates(s)
    ensures Settle(s).master.base == s.master.base && Settle(s).slave.base == s.slave.base
  {
    SettleKeepsSetup(s);
    hide Settle, Terminates;
    assert Setup(s.master).base == s.master.base;
    assert Setup(s.slave).base == s.slave.base;
  }

  lemma SettleStops(s: State)
    requires Terminates(s) && Delivery(s).None?
    ensures var t := Settle(s);
            && t.hist.acks == s.hist.acks
            && t.hist.vectors == s.hist.vectors + SpuriousVectors(t)
            && t.slave.base == s.slave.base
  {
    OutputIsNoInput(s.master, Master, GetIrq(s.master, Master) >= 0);
  }

  lemma SpuriousIsNoHistory(t: State, vector: int)
    ensures SpuriousVectors(Send(t, vector)) == SpuriousVectors(t)
  {
  }

  /**
  Every acknowledgement sends exactly one vector, Base + line, and since each
  vector is handed over after the inner deliveries, the processor gets them in
  the reverse order of the acknowledgements. Beyond those there is only a
  spurious slave vector, and only if a cascade request is left unbacked.
  */
  lemma {:induction false} SettleAccounts(s: State)
    requires Terminates(s)
    ensures var t := Settle(s);
            && s.hist.acks <= t.hist.acks
            && t.hist.vectors == s.hist.vectors + SpuriousVectors(t)
                 + VectorsFor(t.hist.acks[|s.hist.acks|..], s.master.base, s.slave.base)
    decreases Depth(s)
  {
    hide GetIrq, Delivery, Settle, SpuriousVectors;
    var t := Settle(s);
    if Delivery(s).Some? {
      SettleUnfolds(s);
      NextRound(s);
      var next := Delivery(s).value;
      var (id, line) := NextAck(s);
      var u := Settle(next);
      SettleAccounts(next);
      SpuriousIsNoHistory(u, s.Get(id).base + line);
      var ack := Ack(id, line, s.Get(id).isr);
      assert u.hist.acks[|s.hist.acks|..] == [ack] + u.hist.acks[|next.hist.acks|..];
    } else {
      SettleStops(s);
      assert t.hist.acks[|s.hist.acks|..] == [];
    }
  }
}
