/**
Two properties of runs that speak about the past: a line is acknowledged at most
once per latched edge, and fully nested service with its end-of-interrupt order.
*/
module PicHistory {
  import opened PicChip
  import opened PicCascade
  import opened PicDelivery
  import opened PicRuns

  // ----- Conservation of edges -----

  function AckCount(acks: seq<Ack>, id: Id, line: Line): nat {
    if acks == [] then 0
    else
      var a := acks[|acks| - 1];
      AckCount(acks[..|acks| - 1], id, line) + (if a.id == id && a.line == line then 1 else 0)
  }

  function EdgeCount(edges: seq<Edge>, id: Id, line: Line): nat {
    if edges == [] then 0
    else
      EdgeCount(edges[..|edges| - 1], id, line) + (if edges[|edges| - 1] == Edge(id, line) then 1 else 0)
  }

  /** The edges latched so far cover the acknowledgements made and the request still pending. */
  ghost predicate Covered(s: State, id: Id, line: Line) {
    AckCount(s.hist.acks, id, line) + (if line in s.Get(id).irr then 1 else 0)
      <= EdgeCount(s.hist.edges, id, line)
  }

  lemma OneMoreAck(acks: seq<Ack>, a: Ack, id: Id, line: Line)
    ensures AckCount(acks + [a], id, line)
         == AckCount(acks, id, line) + (if a.id == id && a.line == line then 1 else 0)
  {
    assert (acks + [a])[..|acks|] == acks;
  }

  lemma OneMoreEdge(edges: seq<Edge>, e: Edge, id: Id, line: Line)
    ensures EdgeCount(edges + [e], id, line)
         == EdgeCount(edges, id, line) + (if e == Edge(id, line) then 1 else 0)
  {
    assert (edges + [e])[..|edges|] == edges;
  }

  lemma LatchKeepsCovered(s: State, at: Id, index: nat, level: bool, id: Id, line: Line)
    requires Covered(s, id, line) && line !in s.Get(id).elcr
    ensures Covered(Latch(s, at, index, level), id, line)
    ensures Latch(s, at, index, level).Get(id).elcr == s.Get(id).elcr
  {
    if index < 8 {
      OneMoreEdge(s.hist.edges, Edge(at, index), id, line);
    }
  }

  lemma AckKeepsCovered(s: State, at: Id, acked: Line, id: Id, line: Line)
    requires Covered(s, id, line) && line !in s.Get(id).elcr && acked in s.Get(at).irr
    ensures Covered(Acknowledge(s, at, acked), id, line)
    ensures Acknowledge(s, at, acked).Get(id).elcr == s.Get(id).elcr
  {
    OneMoreAck(s.hist.acks, Ack(at, acked, s.Get(at).isr), id, line);
    hide Without;
  }

  ghost predicate CoveredEdge(s: State, id: Id, line: Line) {
    Covered(s, id, line) && line !in s.Get(id).elcr
  }

  lemma CascadeKeepsCovered(s: State, id: Id, line: Line)
    requires CoveredEdge(s, id, line)
    ensures CoveredEdge(Cascade(s), id, line)
  {
    var out := GetIrq(s.slave, Slave) >= 0;
    var t := s.(slave := s.slave.(output := out));
    assert Covered(t, id, line);
    LatchKeepsCovered(t, Master, CASCADE, out, id, line);
    hide GetIrq, LatchLine;
  }

  lemma RoundKeepsCovered(s: State, id: Id, line: Line)
    requires CoveredEdge(s, id, line) && Delivery(s).Some?
    ensures CoveredEdge(Delivery(s).value, id, line)
  {
    var s1 := SetOutput(s, true);
    var (at, acked) := NextAck(s);
    GetIrqPicksBest(s.Get(at), at);
    assert CoveredEdge(s1, id, line);
    AckKeepsCovered(s1, at, acked, id, line);
    CascadeKeepsCovered(Acknowledge(s1, at, acked), id, line);
    hide GetIrq, Acknowledge, Cascade, CoveredEdge;
  }

  lemma WritesRaiseNothing(c: Chip, value: nat, o: Ocw2)
    ensures ResetChip(c).irr == {} && ResetChip(c).elcr == c.elcr
    ensures WriteOcw2(c, o).irr == c.irr && WriteOcw2(c, o).elcr == c.elcr
    ensures WriteOcw3(c, value).irr == c.irr && WriteOcw3(c, value).elcr == c.elcr
    ensures WriteData(c, value).irr == c.irr && WriteData(c, value).elcr == c.elcr
  {
    hide Bits, Bit;
  }

  lemma CommandKeepsCovered(s: State, at: Id, value: nat, id: Id, line: Line)
    requires CoveredEdge(s, id, line)
    ensures CoveredEdge(PrepareCommand(s, at, value).s, id, line)
  {
    hide Bit, DecodeOcw2, Without, AckCount, EdgeCount, ResetChip, WriteOcw2, WriteOcw3, IsIcw1, IsOcw3;
    var c := s.Get(at);
    WritesRaiseNothing(c, value, DecodeOcw2(c, value));
  }

  lemma DataKeepsCovered(s: State, at: Id, value: nat, id: Id, line: Line)
    requires CoveredEdge(s, id, line)
    ensures CoveredEdge(PrepareData(s, at, value).s, id, line)
    ensures Covered(PrepareElcr(s, at, value).s, id, line)
  {
    hide Bits, AckCount, EdgeCount, WriteData;
    WritesRaiseNothing(s.Get(at), value, Nothing);
  }

  lemma ReadKeepsCovered(s: State, at: Id, id: Id, line: Line)
    requires CoveredEdge(s, id, line)
    ensures CoveredEdge(PrepareRead(s, at).s, id, line)
  {
    if s.Get(at).poll {
      var t := EndPoll(s, at);
      var irq := GetIrq(t.Get(at), at);
      assert CoveredEdge(t, id, line);
      if irq >= 0 {
        GetIrqPicksBest(t.Get(at), at);
        AckKeepsCovered(t, at, irq, id, line);
      }
      hide GetIrq, Acknowledge, EndPoll, CoveredEdge;
    }
  }

  lemma PrepareKeepsCovered(s: State, op: Op, id: Id, line: Line)
    requires CoveredEdge(s, id, line)
    ensures var p := Prepare(s, op);
            && Covered(p.s, id, line)
            && (p.Raise? ==> CoveredEdge(p.s, id, line))
  {
    hide Latch, PrepareCommand, PrepareData, PrepareRead, AckCount, EdgeCount, Bits;
    match op
    case Irq(n, level) =>
      if n <= 7 {
        LatchKeepsCovered(s, Master, n, level, id, line);
      } else {
        LatchKeepsCovered(s, Slave, n - 8, level, id, line);
      }
    case Out(port, value) =>
      forall at
        ensures CoveredEdge(PrepareCommand(s, at, value).s, id, line)
        ensures CoveredEdge(PrepareData(s, at, value).s, id, line)
      {
        CommandKeepsCovered(s, at, value, id, line);
        DataKeepsCovered(s, at, value, id, line);
      }
    case In(port) =>
      ReadKeepsCovered(s, Master, id, line);
      ReadKeepsCovered(s, Slave, id, line);
  }

  lemma StepKeepsCovered(s: State, op: Op, id: Id, line: Line)
    requires CoveredEdge(s, id, line) && Legal(s, op)
    ensures Covered(Step(s, op), id, line)
  {
    PrepareKeepsCovered(s, op, id, line);
    var p := Prepare(s, op);
    if p.Raise? {
      CascadeKeepsCovered(p.s, id, line);
      forall t | CoveredEdge(t, id, line) && Delivery(t).Some? ensures CoveredEdge(Delivery(t).value, id, line) {
        RoundKeepsCovered(t, id, line);
      }
      hide Delivery, Prepare, Cascade, AckCount, EdgeCount;
      StepKeeps(s, op, t => CoveredEdge(t, id, line));
    }
  }

  /**
  While a line stays edge triggered, its acknowledgements together with its
  pending request never outnumber the rising edges that were latched for it.
  */
  lemma RunConservesEdges(s: State, ops: seq<Op>, id: Id, line: Line)
    requires CanRun(s, ops) && Covered(s, id, line)
    requires Always(s, ops, (t: State, op) => line !in t.Get(id).elcr)
    ensures Covered(Run(s, ops), id, line)
  {
    forall t: State, op | Covered(t, id, line) && line !in t.Get(id).elcr && Legal(t, op)
      ensures Covered(Step(t, op), id, line)
    {
      StepKeepsCovered(t, op, id, line);
    }
    hide Step, Legal, Covered;
    RunKeeps(s, ops, t => Covered(t, id, line), (t: State, op) => line !in t.Get(id).elcr);
  }

  // ----- Fully nested service -----

  /** Auto-EOI, special mask, special fully nested mode and rotated priorities are not in use. */
  predicate PlainChip(c: Chip) {
    !c.autoEoi && !c.specialMask && !c.specialFullyNested && c.priorityAdd == 0
  }

  /** The operations that would put one of those into use. */
  predicate PlainOp(s: State, op: Op) {
    match op
    case Irq(_, _) => true
    case In(_) => true
    case Out(port, value) =>
      && (port == MASTER_COMMAND || port == SLAVE_COMMAND ==> PlainCommand(value))
      && (port == MASTER_DATA && s.master.initState == 3 ==> PlainIcw4(value))
      && (port == SLAVE_DATA && s.slave.initState == 3 ==> PlainIcw4(value))
  }

  predicate PlainCommand(value: nat) {
    && (IsOcw3(value) ==> !(Bit(value, 6) && Bit(value, 5)))
    && (!IsIcw1(value) && !IsOcw3(value) ==> value / 32 !in {4, 5, 6, 7})
  }

  predicate PlainIcw4(value: nat) {
    !Bit(value, 4) && !Bit(value, 1)
  }

  /** A stack of in-service lines: each outranks the ones below it. */
  predicate Stacked(served: seq<Line>, isr: Mask) {
    && (forall i, j :: 0 <= i < j < |served| ==> served[i] > served[j])
    && (forall line: Line :: line in served <==> line in isr)
  }

  /** Every acknowledgement so far was of a line that outranked all that were in service. */
  predicate Outranked(acks: seq<Ack>) {
    forall a :: a in acks ==> forall line :: line in a.inService ==> a.line < line
  }

  predicate Nested(s: State) {
    && PlainChip(s.master) && PlainChip(s.slave)
    && Stacked(s.hist.servedMaster, s.master.isr)
    && Stacked(s.hist.servedSlave, s.slave.isr)
    && Outranked(s.hist.acks)
  }

  lemma {:induction false} WithoutAbsent(lines: seq<Line>, line: Line)
    requires line !in lines
    ensures Without(lines, line) == lines
  {
    if lines != [] {
      WithoutAbsent(lines[1..], line);
    }
  }

  lemma TailStacked(lines: seq<Line>, isr: Mask)
    requires Stacked(lines, isr) && lines != []
    ensures Stacked(lines[1..], isr - {lines[0]})
  {
    assert forall l: Line :: l in lines <==> l == lines[0] || l in lines[1..];
  }

  lemma ConsStacked(first: Line, lines: seq<Line>, isr: Mask)
    requires Stacked(lines, isr) && forall l :: l in isr ==> l < first
    ensures Stacked([first] + lines, isr + {first})
  {
    forall i | 0 <= i < |lines| ensures lines[i] < first {
      assert lines[i] in isr;
    }
    assert forall l: Line :: l in [first] + lines <==> l == first || l in lines;
  }

  lemma TailBelowHead(lines: seq<Line>, isr: Mask)
    requires Stacked(lines, isr) && lines != []
    ensures lines[0] in isr && forall l :: l in isr - {lines[0]} ==> l < lines[0]
  {
    forall l | l in isr - {lines[0]} ensures l < lines[0] {
      assert l in lines;
    }
  }

  lemma {:induction false} WithoutKeepsStacked(lines: seq<Line>, isr: Mask, line: Line)
    requires Stacked(lines, isr)
    ensures Stacked(Without(lines, line), isr - {line})
    decreases |lines|
  {
    if lines != [] {
      var first := lines[0];
      TailStacked(lines, isr);
      TailBelowHead(lines, isr);
      WithoutKeepsStacked(lines[1..], isr - {first}, line);
      hide Stacked;
      if first == line {
        assert isr - {line} - {line} == isr - {line};
      } else {
        ConsStacked(first, Without(lines[1..], line), isr - {first} - {line});
        assert isr - {first} - {line} + {first} == isr - {line};
      }
    }
  }

  /** Without rotation, a line's priority is its number. */
  lemma PlainPriority(mask: Mask)
    ensures forall line :: line in mask ==> Priority(mask, 0) <= line
    ensures mask != {} ==> Priority(mask, 0) < 8 && LineAt(Priority(mask, 0), 0) == Priority(mask, 0)
    ensures mask != {} ==> Priority(mask, 0) in mask
  {
    PriorityIsMinimum(mask, 0);
  }

  /** In plain modes GetIRQ selects only a line that outranks everything in service. */
  lemma PlainChoiceOutranks(c: Chip, id: Id)
    requires PlainChip(c) && GetIrq(c, id) >= 0
    ensures forall line :: line in c.isr ==> GetIrq(c, id) < line
  {
    GetIrqPicksBest(c, id);
    PlainPriority(c.isr);
    assert InService(c, id) == c.isr;
  }

  lemma AckKeepsNested(s: State, id: Id, line: Line)
    requires Nested(s) && GetIrq(s.Get(id), id) == line
    ensures Nested(Acknowledge(s, id, line))
  {
    PlainChoiceOutranks(s.Get(id), id);
    var served := s.Served(id);
    var isr := s.Get(id).isr;
    assert line !in served;
    WithoutAbsent(served, line);
    PushKeepsStacked(served, isr, line);
    hide GetIrq, Without, Stacked;
  }

  lemma PushKeepsStacked(served: seq<Line>, isr: Mask, line: Line)
    requires Stacked(served, isr) && forall l :: l in isr ==> line < l
    ensures Stacked(served + [line], isr + {line})
  {
    forall i | 0 <= i < |served| ensures served[i] > line {
      assert served[i] in isr;
    }
  }

  lemma CascadeKeepsNested(s: State)
    requires Nested(s)
    ensures Nested(Cascade(s))
  {
    hide GetIrq, Stacked;
  }

  lemma RoundKeepsNested(s: State)
    requires Nested(s) && Delivery(s).Some?
    ensures Nested(Delivery(s).value)
  {
    var s1 := SetOutput(s, true);
    var (id, line) := NextAck(s);
    OutputIsNoInput(s.master, Master, true);
    assert Nested(s1);
    AckKeepsNested(s1, id, line);
    CascadeKeepsNested(Acknowledge(s1, id, line));
    hide GetIrq, Acknowledge, Cascade, Nested;
  }

  lemma PlainWritesKeepPlain(c: Chip, value: nat)
    requires PlainChip(c)
    ensures PlainChip(ResetChip(c)) && ResetChip(c).isr == {}
    ensures PlainCommand(value) && IsOcw3(value) ==> PlainChip(WriteOcw3(c, value))
    ensures WriteOcw3(c, value).isr == c.isr
    ensures (c.initState == 3 ==> PlainIcw4(value)) ==> PlainChip(WriteData(c, value))
    ensures WriteData(c, value).isr == c.isr
  {
    hide Bit, Bits, IsIcw1;
  }

  lemma PlainOcw2KeepsPlain(c: Chip, value: nat)
    requires PlainChip(c) && value / 32 !in {4, 5, 6, 7}
    ensures PlainChip(WriteOcw2(c, DecodeOcw2(c, value)))
    ensures var o := DecodeOcw2(c, value);
            !o.SetPriority? && WriteOcw2(c, o).isr == if o.Retire? then c.isr - {o.line} else c.isr
  {
    hide Priority;
  }

  lemma CommandKeepsNested(s: State, id: Id, value: nat)
    requires Nested(s) && PlainCommand(value)
    ensures Nested(PrepareCommand(s, id, value).s)
  {
    var c := s.Get(id);
    PlainWritesKeepPlain(c, value);
    if !IsIcw1(value) && !IsOcw3(value) {
      PlainOcw2KeepsPlain(c, value);
      var o := DecodeOcw2(c, value);
      if o.Retire? {
        WithoutKeepsStacked(s.Served(id), c.isr, o.line);
      }
    }
    assert Stacked([], {});
    hide Bit, DecodeOcw2, Without, ResetChip, WriteOcw2, WriteOcw3, IsIcw1, IsOcw3, Stacked, PlainChip, Outranked;
  }

  lemma DataKeepsNested(s: State, id: Id, value: nat)
    requires Nested(s) && (s.Get(id).initState == 3 ==> PlainIcw4(value))
    ensures Nested(PrepareData(s, id, value).s)
  {
    PlainWritesKeepPlain(s.Get(id), value);
    hide WriteData, Stacked, PlainChip, Outranked;
  }

  lemma ElcrKeepsNested(s: State, id: Id, value: nat)
    requires Nested(s)
    ensures Nested(PrepareElcr(s, id, value).s)
  {
    hide Bits, Stacked, Outranked;
  }

  lemma ReadKeepsNested(s: State, id: Id)
    requires Nested(s)
    ensures Nested(PrepareRead(s, id).s)
  {
    if s.Get(id).poll {
      var t := EndPoll(s, id);
      var irq := GetIrq(t.Get(id), id);
      assert Nested(t);
      if irq >= 0 {
        AckKeepsNested(t, id, irq);
      }
      hide GetIrq, Acknowledge, EndPoll, Nested;
    }
  }

  lemma LatchKeepsNested(s: State, id: Id, index: nat, level: bool)
    requires Nested(s)
    ensures Nested(Latch(s, id, index, level))
  {
    hide Stacked, Outranked;
  }

  lemma PrepareKeepsNested(s: State, op: Op)
    requires Nested(s) && PlainOp(s, op)
    ensures Nested(Prepare(s, op).s)
  {
    hide PrepareCommand, PrepareData, PrepareElcr, PrepareRead, Latch, Nested, PlainCommand, PlainIcw4;
    match op
    case Irq(n, level) =>
      LatchKeepsNested(s, Master, n, level);
      LatchKeepsNested(s, Slave, if n <= 7 then 0 else n - 8, level);
    case Out(port, value) =>
      if port == MASTER_COMMAND {
        CommandKeepsNested(s, Master, value);
      } else if port == SLAVE_COMMAND {
        CommandKeepsNested(s, Slave, value);
      } else if port == MASTER_DATA {
        DataKeepsNested(s, Master, value);
      } else if port == SLAVE_DATA {
        DataKeepsNested(s, Slave, value);
      } else {
        ElcrKeepsNested(s, Master, value);
        ElcrKeepsNested(s, Slave, value);
      }
    case In(port) =>
      ReadKeepsNested(s, Master);
      ReadKeepsNested(s, Slave);
  }

  lemma StepKeepsNested(s: State, op: Op)
    requires Nested(s) && PlainOp(s, op) && Legal(s, op)
    ensures Nested(Step(s, op))
  {
    PrepareKeepsNested(s, op);
    CascadeKeepsNested(Prepare(s, op).s);
    forall t | Nested(t) && Delivery(t).Some? ensures Nested(Delivery(t).value) {
      RoundKeepsNested(t);
    }
    hide Delivery, Prepare, Cascade, Stacked, Outranked;
    StepKeeps(s, op, t => Nested(t));
  }

  /**
  Over every run in plain modes each acknowledged line strictly outranks all that
  was in service on its controller, and the lines in service form a stack.
  */
  lemma RunIsNested(s: State, ops: seq<Op>)
    requires CanRun(s, ops) && Nested(s) && Always(s, ops, (t, op) => PlainOp(t, op))
    ensures Nested(Run(s, ops))
  {
    forall t, op | Nested(t) && PlainOp(t, op) && Legal(t, op) ensures Nested(Step(t, op)) {
      StepKeepsNested(t, op);
    }
    hide Step, Legal, Nested, PlainOp;
    RunKeeps(s, ops, t => Nested(t), (t, op) => PlainOp(t, op));
  }

  lemma {:induction false} WithoutLast(lines: seq<Line>, isr: Mask)
    requires Stacked(lines, isr) && lines != []
    ensures Without(lines, lines[|lines| - 1]) == lines[..|lines| - 1]
  {
    var line := lines[|lines| - 1];
    if |lines| > 1 {
      TailStacked(lines, isr);
      WithoutLast(lines[1..], isr - {lines[0]});
      assert lines[..|lines| - 1] == [lines[0]] + lines[1..][..|lines| - 2];
    }
  }

  /**
  A non-specific end of interrupt retires the line that was acknowledged most
  recently among those in service, and nothing else; with none in service it
  does nothing.
  */
  lemma NonSpecificEoiRetiresLatest(s: State, id: Id, value: nat)
    requires Nested(s) && !IsIcw1(value) && !IsOcw3(value) && value / 32 == 1
    ensures s.Served(id) == [] ==> PrepareCommand(s, id, value) == Quiet(s)
    ensures s.Served(id) != [] ==>
              var served := s.Served(id);
              var latest := served[|served| - 1];
              PrepareCommand(s, id, value)
                == Raise(s.With(id, s.Get(id).(isr := s.Get(id).isr - {latest}))
                          .WithServed(id, served[..|served| - 1]), id)
  {
    var c := s.Get(id);
    var served := s.Served(id);
    PlainPriority(c.isr);
    PriorityIsMinimum(c.isr, 0);
    if served == [] {
      assert forall line: Line :: line in c.isr ==> line in served;
      assert c.isr == {};
      assert WriteOcw2(c, Nothing) == c;
    } else {
      var latest := served[|served| - 1];
      assert latest in c.isr;
      assert forall line :: line in c.isr ==> line in served && latest <= line;
      assert Priority(c.isr, 0) == latest;
      WithoutLast(served, c.isr);
      assert DecodeOcw2(c, value) == Retire(latest, 0);
    }
    hide Priority, Without, Stacked, Outranked, IsIcw1, IsOcw3;
  }

  /** After power-on, with nothing recorded yet, everything that the runs above start from holds. */
  lemma PowerOnStarts(s: State, id: Id, line: Line)
    requires s.hist.acks == [] && s.hist.edges == []
    ensures var start := PowerOn(s);
            Valid(start) && Backed(start) && Nested(start) && Covered(start, id, line)
  {
    var start := PowerOn(s);
    PowerOnIsValid(s);
    PriorityIsMinimum({}, 0);
    GetIrqPicksBest(start.slave, Slave);
  }
}
