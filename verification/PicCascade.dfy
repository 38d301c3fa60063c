/**
The pair of cascaded interrupt controllers as one state, and every operation of
i8259.cpp as a function on that state.

UpdateIRQ, GetCurrentIRQ, AcknowledgeIRQ and SetIRQ call each other: each
acknowledgement re-enters UpdateIRQ before the vector it was made for is handed
to the processor. `Delivery` is one round of that recursion, from one entry of
UpdateIRQ(PIC_MASTER) to the next; `Terminates` says that the chain of rounds
ends; `Settle` is the whole recursion.
*/
module PicCascade {
  import opened PicChip

  datatype Option<+T> = None | Some(value: T)

  /** One call of AcknowledgeIRQ, with what was in service on that controller at the time. */
  datatype Ack = Ack(id: Id, line: Line, inService: Mask)

  /** One rising edge that SetIRQ latched into a request register. */
  datatype Edge = Edge(id: Id, line: Line)

  /**
  What happened so far: the vectors passed to Cpu::Interrupt, the
  acknowledgements, the latched edges, and for each controller the lines in
  service in the order in which they were acknowledged, oldest first.
  */
  datatype History = History(
    vectors: seq<int>,
    acks: seq<Ack>,
    edges: seq<Edge>,
    servedMaster: seq<Line>,
    servedSlave: seq<Line>)

  datatype State = State(master: Chip, slave: Chip, hist: History) {
    function Get(id: Id): Chip {
      if id == Master then master else slave
    }

    function With(id: Id, c: Chip): State {
      if id == Master then this.(master := c) else this.(slave := c)
    }

    function Served(id: Id): seq<Line> {
      if id == Master then hist.servedMaster else hist.servedSlave
    }

    function WithServed(id: Id, lines: seq<Line>): State {
      if id == Master then this.(hist := hist.(servedMaster := lines))
      else this.(hist := hist.(servedSlave := lines))
    }
  }

  function Without(lines: seq<Line>, line: Line): (r: seq<Line>) {
    if lines == [] then []
    else if lines[0] == line then Without(lines[1..], line)
    else [lines[0]] + Without(lines[1..], line)
  }

  // ----- Register changes -----

  /**
  The part of SetIRQ before it calls UpdateIRQ. The bit of an index above 7 does
  not fit the 8-bit registers, so such an index changes nothing.
  */
  function Latch(s: State, id: Id, index: nat, asserted: bool): State {
    if index < 8 then LatchLine(s, id, index, asserted) else s
  }

  function LatchLine(s: State, id: Id, line: Line, asserted: bool): State {
    var c := s.Get(id);
    var rising := asserted && line !in c.elcr && line !in c.prevIrr;
    s.With(id, LatchChip(c, line, asserted))
     .(hist := if rising then s.hist.(edges := s.hist.edges + [Edge(id, line)]) else s.hist)
  }

  function LatchChip(c: Chip, line: Line, asserted: bool): Chip {
    c.(irr :=
         if !asserted then c.irr - {line}
         else if line in c.elcr || line !in c.prevIrr then c.irr + {line}
         else c.irr,
       prevIrr := if asserted then c.prevIrr + {line} else c.prevIrr - {line})
  }

  /** The register changes of AcknowledgeIRQ. */
  function AckChip(c: Chip, line: Line): Chip {
    c.(priorityAdd := if c.autoEoi && c.rotateOnAutoEoi then Wrap(line + 1) else c.priorityAdd,
       isr := if c.autoEoi then c.isr else c.isr + {line},
       irr := if line in c.elcr then c.irr else c.irr - {line})
  }

  /** The part of AcknowledgeIRQ before it calls UpdateIRQ. */
  function Acknowledge(s: State, id: Id, line: Line): State {
    var c := s.Get(id);
    var t := s.With(id, AckChip(c, line))
      .(hist := s.hist.(acks := s.hist.acks + [Ack(id, line, c.isr)]));
    if c.autoEoi then t
    else t.WithServed(id, Without(s.Served(id), line) + [line])
  }

  /** UpdateIRQ(PIC_SLAVE) up to its nested UpdateIRQ(PIC_MASTER). */
  function Cascade(s: State): State {
    var out := GetIrq(s.slave, Slave) >= 0;
    LatchLine(s.(slave := s.slave.(output := out)), Master, CASCADE, out)
  }

  /** The state at which UpdateIRQ(id) reaches the master's update. */
  function Entry(s: State, id: Id): State {
    if id == Slave then Cascade(s) else s
  }

  function Send(s: State, vector: int): State {
    s.(hist := s.hist.(vectors := s.hist.vectors + [vector]))
  }

  function SetOutput(s: State, out: bool): State {
    s.(master := s.master.(output := out))
  }

  // ----- The recursion -----

  /**
  One round: from an entry of UpdateIRQ(PIC_MASTER) to the next one, by way of an
  acknowledgement. None when there is nothing to acknowledge.
  */
  function Delivery(s: State): Option<State> {
    var irq := GetIrq(s.master, Master);
    if irq < 0 then None
    else if irq != CASCADE then Some(Acknowledge(SetOutput(s, true), Master, irq))
    else
      var slaveIrq := GetIrq(s.slave, Slave);
      if slaveIrq < 0 then None
      else Some(Cascade(Acknowledge(SetOutput(s, true), Slave, slaveIrq)))
  }

  /** The controller and line that the next round acknowledges. */
  function NextAck(s: State): (Id, int) {
    var irq := GetIrq(s.master, Master);
    if irq == CASCADE then (Slave, GetIrq(s.slave, Slave)) else (Master, irq)
  }

  /** What one round does to the registers of each controller and to the history. */
  lemma RoundShape(s: State)
    requires Delivery(s).Some?
    ensures var (id, line) := NextAck(s);
            var t := Delivery(s).value;
            && 0 <= line < 8 && GetIrq(s.Get(id), id) == line
            && t.hist.acks == s.hist.acks + [Ack(id, line, s.Get(id).isr)]
            && t.hist.vectors == s.hist.vectors
            && GetIrq(s.master, Master) == (if id == Slave then CASCADE else line)
            && (id == Master ==>
                 && line != CASCADE
                 && t.master == AckChip(s.master, line).(output := true)
                 && t.slave == s.slave)
            && (id == Slave ==>
                 var a := AckChip(s.slave, line);
                 var out := GetIrq(a, Slave) >= 0;
                 && t.master == LatchChip(s.master, CASCADE, out).(output := true)
                 && t.slave == a.(output := out))
  {
    var (id, line) := NextAck(s);
    if id == Master {
      MasterRound(s, line);
    } else {
      SlaveRound(s, line);
    }
    hide GetIrq, AckChip, LatchChip, Acknowledge, Cascade;
  }

  lemma MasterRound(s: State, line: Line)
    requires GetIrq(s.master, Master) == line && line != CASCADE
    ensures Delivery(s).Some?
    ensures var t := Delivery(s).value;
      && t.hist.acks == s.hist.acks + [Ack(Master, line, s.master.isr)] && t.hist.vectors == s.hist.vectors
      && t.master == AckChip(s.master, line).(output := true) && t.slave == s.slave
  {
    OutputStays(s.master, line);
    hide GetIrq, AckChip, Without;
  }

  lemma SlaveRound(s: State, line: Line)
    requires GetIrq(s.master, Master) == CASCADE && GetIrq(s.slave, Slave) == line
    ensures Delivery(s).Some?
    ensures var t := Delivery(s).value;
      var a := AckChip(s.slave, line);
      var out := GetIrq(a, Slave) >= 0;
      && t.hist.acks == s.hist.acks + [Ack(Slave, line, s.slave.isr)] && t.hist.vectors == s.hist.vectors
      && t.master == LatchChip(s.master, CASCADE, out).(output := true) && t.slave == a.(output := out)
  {
    hide GetIrq, AckChip, LatchChip, Acknowledge, Cascade, SetOutput;
    OutputStays(s.master, 0);
    SlaveAcknowledged(s, line);
    CascadeShape(Acknowledge(SetOutput(s, true), Slave, line));
  }

  lemma SlaveAcknowledged(s: State, line: Line)
    ensures var p := Acknowledge(SetOutput(s, true), Slave, line);
      && p.slave == AckChip(s.slave, line) && p.master == s.master.(output := true)
      && p.hist.acks == s.hist.acks + [Ack(Slave, line, s.slave.isr)] && p.hist.vectors == s.hist.vectors
  {
    hide AckChip, Without;
  }

  lemma CascadeShape(s: State)
    ensures var out := GetIrq(s.slave, Slave) >= 0;
      && Cascade(s).slave == s.slave.(output := out) && Cascade(s).master == LatchChip(s.master, CASCADE, out)
      && Cascade(s).hist.acks == s.hist.acks && Cascade(s).hist.vectors == s.hist.vectors
  {
    hide GetIrq, LatchChip;
  }

  /** The output is not part of what acknowledging and latching read or change. */
  lemma OutputStays(c: Chip, line: Line)
    ensures AckChip(c.(output := true), line) == AckChip(c, line).(output := true)
    ensures LatchChip(c.(output := true), CASCADE, false) == LatchChip(c, CASCADE, false).(output := true)
    ensures LatchChip(c.(output := true), CASCADE, true) == LatchChip(c, CASCADE, true).(output := true)
  {
  }

  /** The recursion from s ends after at most n rounds. */
  ghost predicate Halts(s: State, n: nat)
    decreases n
  {
    var d := Delivery(s);
    d.None? || (n > 0 && Halts(d.value, n - 1))
  }

  /** The recursion from s ends. */
  ghost predicate Terminates(s: State) {
    exists n: nat :: Halts(s, n)
  }

  ghost function LeastRounds(s: State, k: nat, n: nat): (r: nat)
    requires k <= n && Halts(s, n)
    requires forall m: nat :: m < k ==> !Halts(s, m)
    ensures r <= n && Halts(s, r) && forall m: nat :: m < r ==> !Halts(s, m)
    decreases n - k
  {
    if Halts(s, k) then k else LeastRounds(s, k + 1, n)
  }

  /** The number of rounds of the recursion. */
  ghost function Depth(s: State): (r: nat)
    requires Terminates(s)
    ensures Halts(s, r) && forall m: nat :: m < r ==> !Halts(s, m)
  {
    var n: nat :| Halts(s, n);
    LeastRounds(s, 0, n)
  }

  lemma NextRound(s: State)
    requires Terminates(s) && Delivery(s).Some?
    ensures Terminates(Delivery(s).value)
    ensures Depth(Delivery(s).value) < Depth(s)
  {
    hide Delivery;
    var d := Depth(s);
    assert Halts(Delivery(s).value, d - 1);
  }

  lemma DepthCounts(s: State)
    requires Terminates(s)
    ensures Delivery(s).None? ==> Depth(s) == 0
    ensures Delivery(s).Some? ==>
              Terminates(Delivery(s).value) && Depth(s) == Depth(Delivery(s).value) + 1
  {
    hide Delivery;
    if Delivery(s).Some? {
      NextRound(s);
      assert Halts(s, Depth(Delivery(s).value) + 1);
    } else {
      assert Halts(s, 0);
    }
  }

  lemma SameRounds(s: State, t: State)
    requires Terminates(s) && Delivery(t) == Delivery(s)
    ensures Terminates(t) && Depth(t) == Depth(s)
  {
    assert Halts(t, Depth(s));
    assert Halts(s, Depth(t));
  }

  /** UpdateIRQ(PIC_MASTER): the state when it returns. */
  ghost function Settle(s: State): State
    requires Terminates(s)
    decreases Depth(s)
  {
    var irq := GetIrq(s.master, Master);
    if irq < 0 then SetOutput(s, false)
    else
      var (t, vector) := CurrentIrq(s);
      Send(t, vector)
  }

  /** GetCurrentIRQ, called with the master's output raised. */
  ghost function CurrentIrq(s: State): (State, int)
    requires Terminates(s) && GetIrq(s.master, Master) >= 0
    decreases Depth(s), 0
  {
    var irq := GetIrq(s.master, Master);
    var next := Delivery(s);
    if next.None? then (SetOutput(s, true), s.slave.base + 7)
    else
      NextRound(s);
      var t := Settle(next.value);
      (t, if irq == CASCADE then t.slave.base + GetIrq(s.slave, Slave) else t.master.base + irq)
  }

  // ----- Port accesses and device lines -----

  datatype Op =
    | Irq(irqNum: nat, level: bool)  // HandleIRQ
    | Out(port: nat, value: nat)     // IOWrite
    | In(port: nat)                  // IORead

  const MASTER_COMMAND := 0x20
  const MASTER_DATA := 0x21
  const SLAVE_COMMAND := 0xA0
  const SLAVE_DATA := 0xA1
  const MASTER_ELCR := 0x4D0
  const SLAVE_ELCR := 0x4D1

  const MASTER_ELCR_MASK := 0xF8
  const SLAVE_ELCR_MASK := 0xDE

  /** The registers after an operation's own changes, and which UpdateIRQ it then calls. */
  datatype Prepared = Quiet(s: State) | Raise(s: State, id: Id)

  function ResetChip(c: Chip): Chip {
    Chip({}, {}, {}, {}, 0, false, false, 0, c.elcr, c.elcrMask, 0, false, false, false, false, false, false)
  }

  /** Reset(pic) before it calls UpdateIRQ. */
  function ClearRegisters(s: State, id: Id): State {
    s.With(id, ResetChip(s.Get(id))).WithServed(id, [])
  }

  /** What an operation command word 2 asks for. */
  datatype Ocw2 =
    | Nothing
    | RotateOnAutoEoi(on: bool)
    | Retire(line: Line, add: Line)  // end of interrupt, and the new lowest priority
    | SetPriority(add: Line)

  function DecodeOcw2(c: Chip, value: nat): Ocw2 {
    var command := value / 32;
    var line: Line := value % 8;
    if command == 0 || command == 4 then RotateOnAutoEoi(command == 4)
    else if command == 1 || command == 5 then
      var p := Priority(c.isr, c.priorityAdd);
      if p == 8 then Nothing
      else
        var irq := LineAt(p, c.priorityAdd);
        Retire(irq, if command == 5 then Wrap(irq + 1) else c.priorityAdd)
    else if command == 3 then Retire(line, c.priorityAdd)
    else if command == 6 then SetPriority(Wrap(line + 1))
    else if command == 7 then Retire(line, Wrap(line + 1))
    else Nothing
  }

  function WriteOcw2(c: Chip, o: Ocw2): Chip {
    c.(rotateOnAutoEoi := if o.RotateOnAutoEoi? then o.on else c.rotateOnAutoEoi,
       isr := if o.Retire? then c.isr - {o.line} else c.isr,
       priorityAdd := if o.Retire? || o.SetPriority? then o.add else c.priorityAdd)
  }

  predicate IsIcw1(value: nat) { Bit(value, 4) }

  predicate IsOcw3(value: nat) { !Bit(value, 4) && Bit(value, 3) }

  function WriteOcw3(c: Chip, value: nat): Chip {
    c.(poll := c.poll || Bit(value, 2),
       readSelect := if Bit(value, 1) then Bit(value, 0) else c.readSelect,
       specialMask := if Bit(value, 6) then Bit(value, 5) else c.specialMask)
  }

  function PrepareOcw2(s: State, id: Id, o: Ocw2): (p: Prepared)
    ensures p.Raise? ==> p.id == id
  {
    var t := s.With(id, WriteOcw2(s.Get(id), o));
    match o
    case Nothing => Quiet(t)
    case RotateOnAutoEoi(_) => Quiet(t)
    case Retire(line, _) => Raise(t.WithServed(id, Without(s.Served(id), line)), id)
    case SetPriority(_) => Raise(t, id)
  }

  function PrepareCommand(s: State, id: Id, value: nat): (p: Prepared)
    ensures p.Raise? ==> p.id == id
    ensures IsIcw1(value) ==> p.Raise?
  {
    if IsIcw1(value) then Raise(ClearRegisters(s, id), id)
    else if IsOcw3(value) then Quiet(s.With(id, WriteOcw3(s.Get(id), value)))
    else PrepareOcw2(s, id, DecodeOcw2(s.Get(id), value))
  }

  /** value & 0xF8 */
  function VectorBase(value: nat): (r: nat)
    ensures r % 8 == 0 && r <= 248
  {
    8 * (value / 8 % 32)
  }

  /** DataWrite: the interrupt mask, or the next initialisation command word. */
  function WriteData(c: Chip, value: nat): Chip {
    var state := c.initState;
    c.(imr := if state == 0 then Bits(value) else c.imr,
       base := if state == 1 then VectorBase(value) else c.base,
       specialFullyNested := if state == 3 then Bit(value, 4) else c.specialFullyNested,
       autoEoi := if state == 3 then Bit(value, 1) else c.autoEoi,
       initState :=
         if state == 1 then 2
         else if state == 2 then if c.is4ByteInit then 3 else 0
         else if state == 3 then 0
         else state)
  }

  function PrepareData(s: State, id: Id, value: nat): (p: Prepared)
    ensures p.Raise? ==> p.id == id
  {
    var t := s.With(id, WriteData(s.Get(id), value));
    if s.Get(id).initState == 0 then Raise(t, id) else Quiet(t)
  }

  function PrepareElcr(s: State, id: Id, value: nat): Prepared {
    var c := s.Get(id);
    Quiet(s.With(id, c.(elcr := Bits(value) * c.elcrMask)))
  }

  function EndPoll(s: State, id: Id): State {
    s.With(id, s.Get(id).(poll := false))
  }

  function PreparePoll(s: State, id: Id): (p: Prepared)
    ensures p.Raise? ==> p.id == id
  {
    var t := EndPoll(s, id);
    var irq := GetIrq(t.Get(id), id);
    if irq >= 0 then Raise(Acknowledge(t, id, irq), id) else Quiet(t)
  }

  function PrepareRead(s: State, id: Id): (p: Prepared)
    ensures p.Raise? ==> p.id == id
  {
    if s.Get(id).poll then PreparePoll(s, id) else Quiet(s)
  }

  function Prepare(s: State, op: Op): Prepared {
    match op
    case Irq(n, level) =>
      if n <= 7 then Raise(Latch(s, Master, n, level), Master)
      else Raise(Latch(s, Slave, n - 8, level), Slave)
    case Out(port, value) =>
      if port == MASTER_COMMAND then PrepareCommand(s, Master, value)
      else if port == SLAVE_COMMAND then PrepareCommand(s, Slave, value)
      else if port == MASTER_DATA then PrepareData(s, Master, value)
      else if port == SLAVE_DATA then PrepareData(s, Slave, value)
      else if port == MASTER_ELCR then PrepareElcr(s, Master, value)
      else if port == SLAVE_ELCR then PrepareElcr(s, Slave, value)
      else Quiet(s)
    case In(port) =>
      if port == MASTER_COMMAND || port == MASTER_DATA then PrepareRead(s, Master)
      else if port == SLAVE_COMMAND || port == SLAVE_DATA then PrepareRead(s, Slave)
      else Quiet(s)
  }

  /** ICW1 starts the initialisation sequence after Reset(pic) has returned. */
  function StartInit(s: State, id: Id, value: nat): State {
    s.With(id, s.Get(id).(initState := 1, is4ByteInit := Bit(value, 0)))
  }

  function Complete(s: State, op: Op): State {
    if op.Out? && op.port == MASTER_COMMAND && IsIcw1(op.value) then StartInit(s, Master, op.value)
    else if op.Out? && op.port == SLAVE_COMMAND && IsIcw1(op.value) then StartInit(s, Slave, op.value)
    else s
  }

  /** The operation returns. */
  ghost predicate Legal(s: State, op: Op) {
    var p := Prepare(s, op);
    p.Raise? ==> Terminates(Entry(p.s, p.id))
  }

  ghost function Step(s: State, op: Op): State
    requires Legal(s, op)
  {
    var p := Prepare(s, op);
    if p.Quiet? then p.s else Complete(Settle(Entry(p.s, p.id)), op)
  }

  /** What Poll returns: the line it acknowledges with bit 7 set, or 0. */
  function PollValue(c: Chip, id: Id): nat {
    var irq := GetIrq(c, id);
    if irq >= 0 then irq + 0x80 else 0
  }

  /**
  The value an input instruction gets, None for a port that is not a PIC port.
  CommandRead tests the array m_ReadRegisterSelect instead of its element, so
  without polling it always gives the in-service register.
  */
  function ReadValue(s: State, port: nat): Option<nat> {
    if port == MASTER_COMMAND then
      Some(if s.master.poll then PollValue(s.master, Master) else ByteOf(s.master.isr))
    else if port == SLAVE_COMMAND then
      Some(if s.slave.poll then PollValue(s.slave, Slave) else ByteOf(s.slave.isr))
    else if port == MASTER_DATA then
      Some(if s.master.poll then PollValue(s.master, Master) else ByteOf(s.master.imr))
    else if port == SLAVE_DATA then
      Some(if s.slave.poll then PollValue(s.slave, Slave) else ByteOf(s.slave.imr))
    else if port == MASTER_ELCR then Some(ByteOf(s.master.elcr))
    else if port == SLAVE_ELCR then Some(ByteOf(s.slave.elcr))
    else None
  }

  /** Reset(): the registers after power-on. */
  function PowerOn(s: State): State {
    s.(master := ResetChip(s.master).(elcr := {}, elcrMask := Bits(MASTER_ELCR_MASK)),
       slave := ResetChip(s.slave).(elcr := {}, elcrMask := Bits(SLAVE_ELCR_MASK)),
       hist := s.hist.(servedMaster := [], servedSlave := []))
  }

  // ----- Runs -----

  ghost predicate CanRun(s: State, ops: seq<Op>)
    decreases |ops|
  {
    ops == [] || (Legal(s, ops[0]) && CanRun(Step(s, ops[0]), ops[1..]))
  }

  ghost function Run(s: State, ops: seq<Op>): State
    requires CanRun(s, ops)
    decreases |ops|
  {
    if ops == [] then s else Run(Step(s, ops[0]), ops[1..])
  }

  /** Every operation of the run meets `allowed` in the state it is made in. */
  ghost predicate Always(s: State, ops: seq<Op>, allowed: (State, Op) -> bool)
    requires CanRun(s, ops)
    decreases |ops|
  {
    ops == [] || (allowed(s, ops[0]) && Always(Step(s, ops[0]), ops[1..], allowed))
  }

  /** An invariant that every allowed operation keeps holds after every run of them. */
  lemma {:induction false} RunKeeps(s: State, ops: seq<Op>, inv: State -> bool, allowed: (State, Op) -> bool)
    requires CanRun(s, ops) && Always(s, ops, allowed) && inv(s)
    requires forall t, op :: inv(t) && allowed(t, op) && Legal(t, op) ==> inv(Step(t, op))
    ensures inv(Run(s, ops))
    decreases |ops|
  {
    if ops != [] {
      RunKeeps(Step(s, ops[0]), ops[1..], inv, allowed);
    }
  }
}
