/**
What acknowledging interrupts does to the registers, over a whole operation: which
lines leave the request register, which enter service, and where the priorities are
rotated to.
*/
module PicEffects {
  import opened PicChip
  import opened PicCascade
  import opened PicDelivery
  import opened PicRuns

  /** The lines of a controller among a list of acknowledgements. */
  function Acked(acks: seq<Ack>, id: Id): set<Line> {
    set a <- acks | a.id == id :: a.line
  }

  /** The line of a controller that was acknowledged last. */
  function LastAcked(acks: seq<Ack>, id: Id): Option<Line> {
    if acks == [] then None
    else
      var a := acks[|acks| - 1];
      if a.id == id then Some(a.line) else LastAcked(acks[..|acks| - 1], id)
  }

  /** The acknowledgements of t that are not yet in s. */
  function Since(s: State, t: State): seq<Ack>
    requires s.hist.acks <= t.hist.acks
  {
    t.hist.acks[|s.hist.acks|..]
  }

  lemma OneMoreAcked(acks: seq<Ack>, a: Ack, id: Id)
    ensures Acked(acks + [a], id) == Acked(acks, id) + (if a.id == id then {a.line} else {})
    ensures LastAcked(acks + [a], id) == if a.id == id then Some(a.line) else LastAcked(acks, id)
  {
    assert (acks + [a])[..|acks|] == acks;
    assert forall b :: b in acks + [a] <==> b in acks || b == a;
  }

  /**
  From chip c to chip d by acknowledging the given lines, the last one last: they
  were requested, enter service unless the controller retires them by itself, leave
  the requests unless they are level triggered, and rotate the priorities if the controller is
  set up to do that. On the master nothing is said of the cascade line's request.
  */
  predicate Served(c: Chip, d: Chip, id: Id, acks: seq<Ack>) {
    && d.isr == (if c.autoEoi then c.isr else c.isr + Acked(acks, id))
    && (forall k: Line :: id == Slave || k != CASCADE ==>
          && (k in Acked(acks, id) ==> k in c.irr)
          && (k in d.irr <==> k in c.irr && (k in Acked(acks, id) ==> k in c.elcr))
          && (k in d.prevIrr <==> k in c.prevIrr))
    && d.priorityAdd ==
         (if c.autoEoi && c.rotateOnAutoEoi && LastAcked(acks, id).Some?
          then (LastAcked(acks, id).value + 1) % 8 else c.priorityAdd)
    && Setup(d) == Setup(c)
  }

  predicate Serving(s: State, t: State) {
    && s.hist.acks <= t.hist.acks
    && Served(s.master, t.master, Master, Since(s, t))
    && Served(s.slave, t.slave, Slave, Since(s, t))
  }

  lemma SetupParts(c: Chip, d: Chip)
    requires Setup(d) == Setup(c)
    ensures d.elcr == c.elcr && d.autoEoi == c.autoEoi && d.rotateOnAutoEoi == c.rotateOnAutoEoi
    ensures d.imr == c.imr && d.base == c.base && d.initState == c.initState && d.poll == c.poll
    ensures d.specialMask == c.specialMask && d.specialFullyNested == c.specialFullyNested
    ensures d.elcrMask == c.elcrMask && d.is4ByteInit == c.is4ByteInit && d.readSelect == c.readSelect
  {
    var x, y := Setup(c), Setup(d);
    assert x.elcr == y.elcr && x.autoEoi == y.autoEoi && x.rotateOnAutoEoi == y.rotateOnAutoEoi;
    assert x.imr == y.imr && x.base == y.base && x.initState == y.initState && x.poll == y.poll;
    assert x.specialMask == y.specialMask && x.specialFullyNested == y.specialFullyNested;
    assert x.elcrMask == y.elcrMask && x.is4ByteInit == y.is4ByteInit && x.readSelect == y.readSelect;
  }

  lemma NothingServed(c: Chip, d: Chip, id: Id)
    requires d.isr == c.isr && d.priorityAdd == c.priorityAdd && Setup(d) == Setup(c)
    requires forall k: Line :: id == Slave || k != CASCADE ==>
               (k in d.irr <==> k in c.irr) && (k in d.prevIrr <==> k in c.prevIrr)
    ensures Served(c, d, id, [])
  {
    hide Setup;
  }

  /** Another controller's acknowledgement, and changes of the output and of the cascade line, are not served here. */
  lemma OtherServed(c: Chip, d: Chip, e: Chip, id: Id, acks: seq<Ack>, a: Ack)
    requires Served(c, d, id, acks) && a.id != id
    requires e.isr == d.isr && e.priorityAdd == d.priorityAdd && Setup(e) == Setup(d)
    requires forall k: Line :: id == Slave || k != CASCADE ==>
               (k in e.irr <==> k in d.irr) && (k in e.prevIrr <==> k in d.prevIrr)
    ensures Served(c, e, id, acks + [a])
  {
    OneMoreAcked(acks, a, id);
    hide Setup, Acked, LastAcked;
  }

  lemma AckServed(c: Chip, d: Chip, e: Chip, id: Id, acks: seq<Ack>, a: Ack)
    requires Served(c, d, id, acks) && a.id == id && a.line in d.irr
    requires var f := AckChip(d, a.line);
             e.isr == f.isr && e.irr == f.irr && e.priorityAdd == f.priorityAdd && e.prevIrr == f.prevIrr
    requires Setup(e) == Setup(d)
    ensures Served(c, e, id, acks + [a])
  {
    OneMoreAcked(acks, a, id);
    SetupParts(c, d);
    hide Setup, Acked, LastAcked;
  }

  lemma AckKeepsSetup(c: Chip, line: Line, out: bool)
    ensures Setup(AckChip(c, line).(output := out)) == Setup(c)
  {
  }

  lemma CascadeKeepsSetup(c: Chip, out: bool)
    ensures Setup(LatchChip(c, CASCADE, out).(output := true)) == Setup(c)
  {
  }

  lemma SinceOneMore(s: State, t: State, u: State, a: Ack)
    requires s.hist.acks <= t.hist.acks && u.hist.acks == t.hist.acks + [a]
    ensures s.hist.acks <= u.hist.acks && Since(s, u) == Since(s, t) + [a]
  {
  }

  lemma MasterRoundServes(s: State, t: State, u: State, line: Line)
    requires Serving(s, t) && line in t.master.irr
    requires u.hist.acks == t.hist.acks + [Ack(Master, line, t.master.isr)]
    requires u.master == AckChip(t.master, line).(output := true) && u.slave == t.slave
    ensures Serving(s, u)
  {
    var a := Ack(Master, line, t.master.isr);
    SinceOneMore(s, t, u, a);
    AckKeepsSetup(t.master, line, true);
    hide Served, Setup;
    AckServed(s.master, t.master, u.master, Master, Since(s, t), a);
    OtherServed(s.slave, t.slave, u.slave, Slave, Since(s, t), a);
  }

  lemma SlaveRoundServes(s: State, t: State, u: State, line: Line, out: bool)
    requires Serving(s, t) && line in t.slave.irr
    requires u.hist.acks == t.hist.acks + [Ack(Slave, line, t.slave.isr)]
    requires u.master == LatchChip(t.master, CASCADE, out).(output := true)
    requires u.slave == AckChip(t.slave, line).(output := out)
    ensures Serving(s, u)
  {
    var a := Ack(Slave, line, t.slave.isr);
    SinceOneMore(s, t, u, a);
    AckKeepsSetup(t.slave, line, out);
    CascadeKeepsSetup(t.master, out);
    hide Served, Setup;
    AckServed(s.slave, t.slave, u.slave, Slave, Since(s, t), a);
    OtherServed(s.master, t.master, u.master, Master, Since(s, t), a);
  }

  lemma RoundKeepsServing(s: State, t: State)
    requires Serving(s, t) && Delivery(t).Some?
    ensures Serving(s, Delivery(t).value)
  {
    RoundShape(t);
    var (id, line) := NextAck(t);
    var u := Delivery(t).value;
    GetIrqPicksBest(t.Get(id), id);
    hide GetIrq, Delivery, Serving, NextAck, AckChip, LatchChip;
    if id == Master {
      MasterRoundServes(s, t, u, line);
    } else {
      SlaveRoundServes(s, t, u, line, u.slave.output);
    }
  }

  lemma ServingItself(s: State)
    ensures Serving(s, s)
  {
    assert Since(s, s) == [];
    NothingServed(s.master, s.master, Master);
    NothingServed(s.slave, s.slave, Slave);
    hide Served;
  }

  lemma OutputKeepsServing(s: State, t: State, out: bool, v: int)
    requires Serving(s, t)
    ensures Serving(s, SetOutput(t, out)) && Serving(s, Send(t, v))
  {
    var c := t.master.(output := out);
    assert Setup(c) == Setup(t.master);
    assert SetOutput(t, out).master == c;
    hide Setup, Acked, LastAcked;
  }

  /** The slave's output and the cascade line are not part of what is served. */
  lemma CascadeKeepsServing(s: State, t: State)
    requires Serving(s, t)
    ensures Serving(s, Cascade(t))
  {
    var u := Cascade(t);
    assert u.hist.acks == t.hist.acks by { hide GetIrq; }
    assert Since(s, u) == Since(s, t);
    SameServed(s.master, t.master, u.master, Master, Since(s, t));
    SameServed(s.slave, t.slave, u.slave, Slave, Since(s, t));
    hide GetIrq, Served, Setup;
  }

  /** Changes of the output and of the cascade line do not count. */
  lemma SameServed(c: Chip, d: Chip, e: Chip, id: Id, acks: seq<Ack>)
    ensures var same := e.isr == d.isr && e.priorityAdd == d.priorityAdd && Setup(e) == Setup(d)
              && forall k: Line :: id == Slave || k != CASCADE ==>
                   (k in e.irr <==> k in d.irr) && (k in e.prevIrr <==> k in d.prevIrr);
            Served(c, d, id, acks) && same ==> Served(c, e, id, acks)
  {
    hide Setup, Acked, LastAcked;
  }

  /** What has been served since s, when an update has returned that was called at t. */
  lemma SettleKeepsServing(s: State, t: State, id: Id)
    requires Serving(s, t) && Terminates(Entry(t, id))
    ensures Serving(s, Settle(Entry(t, id)))
  {
    hide Serving, Delivery, Settle, Terminates, SetOutput, Send, Cascade;
    CascadeKeepsServing(s, t);
    forall u | Serving(s, u) && Delivery(u).Some? ensures Serving(s, Delivery(u).value) {
      RoundKeepsServing(s, u);
    }
    forall u, out | Serving(s, u) ensures Serving(s, SetOutput(u, out)) {
      OutputKeepsServing(s, u, out, 0);
    }
    forall u, v: int | Serving(s, u) ensures Serving(s, Send(u, v)) {
      OutputKeepsServing(s, u, true, v);
    }
    SettleKeeps(Entry(t, id), u => Serving(s, u));
  }

  /** All that an update changes beside outputs, vectors and the cascade line. */
  lemma SettleServes(s: State, id: Id)
    requires Terminates(Entry(s, id))
    ensures Serving(s, Settle(Entry(s, id)))
  {
    hide *;
    ServingItself(s);
    SettleKeepsServing(s, s, id);
  }

  /** An acknowledgement outside an update, as a poll makes one. */
  lemma AcknowledgeServes(s: State, id: Id, line: Line)
    requires line in s.Get(id).irr
    ensures Serving(s, Acknowledge(s, id, line))
    ensures Since(s, Acknowledge(s, id, line)) == [Ack(id, line, s.Get(id).isr)]
  {
    var t := Acknowledge(s, id, line);
    var a := Ack(id, line, s.Get(id).isr);
    var other := if id == Master then Slave else Master;
    assert t.hist.acks == s.hist.acks + [a] && t.Get(id) == AckChip(s.Get(id), line) && t.Get(other) == s.Get(other);
    AckChipKeepsSetup(s.Get(id), line);
    NothingServed(s.Get(id), s.Get(id), id);
    NothingServed(s.Get(other), s.Get(other), other);
    AckServed(s.Get(id), s.Get(id), t.Get(id), id, [], a);
    OtherServed(s.Get(other), s.Get(other), t.Get(other), other, [], a);
    assert [] + [a] == [a] && Since(s, t) == [a];
    hide Acknowledge, Served, AckChip, Setup;
  }

  lemma AckChipKeepsSetup(c: Chip, line: Line)
    ensures Setup(AckChip(c, line)) == Setup(c)
  {
  }
}
