/**
When the recursion of UpdateIRQ ends, and after how many acknowledgements.
*/
module PicTermination {
  import opened PicChip
  import opened PicCascade

  /** What SetIRQ and the ELCR write masks maintain: requests are lines seen high, and the cascade line is edge triggered. */
  ghost predicate WellFormed(s: State) {
    && s.master.irr <= s.master.prevIrr
    && s.slave.irr <= s.slave.prevIrr
    && CASCADE !in s.master.elcr
  }

  /** No level-triggered request is pending on a controller that ends interrupts by itself. */
  predicate LevelSafe(c: Chip) {
    c.autoEoi ==> Requests(c) !! c.elcr
  }

  /**
  Acknowledging does not bring this controller closer to a line in service: it
  ends interrupts by itself, and rotating its priorities moves towards nothing.
  */
  predicate Unblocked(c: Chip, id: Id) {
    c.autoEoi && (c.rotateOnAutoEoi ==> InService(c, id) == {})
  }

  /** An upper bound on the acknowledgements that one controller can still make. */
  function Budget(c: Chip, id: Id): (b: nat) {
    if Unblocked(c, id) then |Requests(c)| else Priority(InService(c, id), c.priorityAdd)
  }

  function TotalBudget(s: State): nat {
    Budget(s.master, Master) + Budget(s.slave, Slave)
  }

  lemma BudgetAtMostEight(c: Chip, id: Id)
    ensures Budget(c, id) <= 8
  {
    MaskSize(Requests(c));
  }

  /** Giving `line` the lowest priority moves every line behind it up by the same amount. */
  lemma RotateMovesUp(line: Line, other: Line, add: Line)
    requires PriorityOf(line, add) < PriorityOf(other, add)
    ensures PriorityOf(other, Wrap(line + 1)) == PriorityOf(other, add) - PriorityOf(line, add) - 1
  {
  }

  lemma RotateMovesMinimum(mask: Mask, line: Line, add: Line)
    requires mask != {} && PriorityOf(line, add) < Priority(mask, add)
    ensures Priority(mask, Wrap(line + 1)) == Priority(mask, add) - PriorityOf(line, add) - 1
  {
    PriorityIsMinimum(mask, add);
    PriorityIsMinimum(mask, Wrap(line + 1));
    var best: Line :| best in mask && PriorityOf(best, add) == Priority(mask, add);
    RotateMovesUp(line, best, add);
    var best': Line :| best' in mask && PriorityOf(best', Wrap(line + 1)) == Priority(mask, Wrap(line + 1));
    RotateMovesUp(line, best', add);
  }

  /** Acknowledging the selected line uses up budget, unless nothing can block it and it is level triggered. */
  lemma AckSpendsBudget(c: Chip, id: Id, line: Line)
    requires GetIrq(c, id) == line
    requires id == Master ==> line != CASCADE
    requires Unblocked(c, id) ==> line !in c.elcr
    ensures Budget(AckChip(c, line), id) < Budget(c, id)
  {
    GetIrqPicksBest(c, id);
    var d := AckChip(c, line);
    if Unblocked(c, id) {
      assert Requests(d) == Requests(c) - {line};
    } else if c.autoEoi {
      RotateMovesMinimum(InService(c, id), line, c.priorityAdd);
    } else {
      assert line in InService(d, id);
      PriorityIsMinimum(InService(d, id), c.priorityAdd);
    }
  }

  /** Re-asserting or dropping the cascade line adds nothing to the master's budget while its edge is remembered. */
  lemma LatchKeepsBudget(c: Chip, asserted: bool)
    requires CASCADE in c.prevIrr && CASCADE !in c.elcr
    ensures Budget(LatchChip(c, CASCADE, asserted), Master) <= Budget(c, Master)
  {
    var d := LatchChip(c, CASCADE, asserted);
    SubsetSize(Requests(d), Requests(c));
  }

  // ----- One round -----

  /** The interrupt output of a controller is no input to anything it decides. */
  lemma OutputKeepsBudget(c: Chip, id: Id, out: bool)
    ensures Budget(c.(output := out), id) == Budget(c, id)
  {
  }

  lemma MasterRoundSpendsBudget(c: Chip, line: Line)
    requires GetIrq(c, Master) == line && line != CASCADE
    requires Unblocked(c, Master) ==> line !in c.elcr
    ensures Budget(AckChip(c, line).(output := true), Master) < Budget(c, Master)
  {
    AckSpendsBudget(c, Master, line);
    OutputKeepsBudget(AckChip(c, line), Master, true);
  }

  lemma SlaveRoundSpendsBudget(m: Chip, c: Chip, line: Line, out: bool)
    requires GetIrq(m, Master) == CASCADE && m.irr <= m.prevIrr && CASCADE !in m.elcr
    requires GetIrq(c, Slave) == line
    requires Unblocked(c, Slave) ==> line !in c.elcr
    ensures Budget(AckChip(c, line).(output := out), Slave) < Budget(c, Slave)
    ensures Budget(LatchChip(m, CASCADE, out).(output := true), Master) <= Budget(m, Master)
  {
    AckSpendsBudget(c, Slave, line);
    OutputKeepsBudget(AckChip(c, line), Slave, out);
    GetIrqPicksBest(m, Master);
    LatchKeepsBudget(m, out);
    OutputKeepsBudget(LatchChip(m, CASCADE, out), Master, true);
  }

  lemma RoundSpendsBudget(s: State)
    requires WellFormed(s) && Delivery(s).Some?
    requires var (id, line) := NextAck(s); Unblocked(s.Get(id), id) ==> line !in s.Get(id).elcr
    ensures TotalBudget(Delivery(s).value) < TotalBudget(s)
  {
    RoundShape(s);
    hide GetIrq, Budget, AckChip, LatchChip, Delivery;
    var (id, line) := NextAck(s);
    if id == Master {
      MasterRoundSpendsBudget(s.master, line);
    } else {
      SlaveRoundSpendsBudget(s.master, s.slave, line, GetIrq(AckChip(s.slave, line), Slave) >= 0);
    }
  }

  lemma AckKeepsWellFormed(s: State, id: Id, line: Line)
    requires WellFormed(s)
    ensures WellFormed(Acknowledge(s, id, line))
  {
  }

  lemma CascadeKeepsWellFormed(s: State)
    requires WellFormed(s)
    ensures WellFormed(Cascade(s))
  {
    hide GetIrq;
  }

  lemma RoundKeepsWellFormed(s: State)
    requires WellFormed(s) && Delivery(s).Some?
    ensures WellFormed(Delivery(s).value)
  {
    hide GetIrq, Acknowledge, Cascade;
    var s1 := SetOutput(s, true);
    var (id, line) := NextAck(s);
    AckKeepsWellFormed(s1, id, line);
    CascadeKeepsWellFormed(Acknowledge(s1, id, line));
  }

  ghost predicate Safe(s: State) {
    WellFormed(s) && LevelSafe(s.master) && LevelSafe(s.slave)
  }

  lemma AckKeepsLevelSafe(c: Chip, line: Line)
    requires LevelSafe(c)
    ensures LevelSafe(AckChip(c, line))
  {
    assert Requests(AckChip(c, line)) <= Requests(c);
  }

  lemma CascadeKeepsLevelSafe(s: State)
    requires Safe(s)
    ensures Safe(Cascade(s))
  {
    hide GetIrq;
    assert Requests(Cascade(s).master) <= Requests(s.master) + {CASCADE};
  }

  lemma RoundKeepsSafe(s: State)
    requires Safe(s) && Delivery(s).Some?
    ensures Safe(Delivery(s).value)
  {
    hide GetIrq, Cascade, AckChip;
    var s1 := SetOutput(s, true);
    var (id, line) := NextAck(s);
    AckKeepsWellFormed(s1, id, line);
    AckKeepsLevelSafe(s1.Get(id), line);
    CascadeKeepsLevelSafe(Acknowledge(s1, id, line));
  }

  // ----- Termination with a bound -----

  lemma {:induction false} MoreRounds(s: State, m: nat, n: nat)
    requires Halts(s, m) && m <= n
    ensures Halts(s, n)
    decreases m
  {
    hide Delivery;
    if Delivery(s).Some? {
      MoreRounds(Delivery(s).value, m - 1, n - 1);
    }
  }

  lemma {:induction false} HaltsWithinBudget(s: State)
    requires Safe(s)
    ensures Halts(s, TotalBudget(s))
    decreases TotalBudget(s)
  {
    hide Delivery, TotalBudget, Safe;
    if Delivery(s).Some? {
      SafeRoundSpendsBudget(s);
      var t := Delivery(s).value;
      HaltsWithinBudget(t);
      MoreRounds(t, TotalBudget(t), TotalBudget(s) - 1);
    }
  }

  lemma SafeRoundSpendsBudget(s: State)
    requires Safe(s) && Delivery(s).Some?
    ensures Safe(Delivery(s).value) && TotalBudget(Delivery(s).value) < TotalBudget(s)
  {
    RoundKeepsSafe(s);
    GetIrqPicksBest(s.master, Master);
    GetIrqPicksBest(s.slave, Slave);
    RoundSpendsBudget(s);
  }

  lemma {:induction false} RoundsAreAcks(s: State)
    requires Terminates(s)
    ensures |Settle(s).hist.acks| == |s.hist.acks| + Depth(s)
    decreases Depth(s)
  {
    hide GetIrq, Delivery;
    DepthCounts(s);
    if Delivery(s).Some? {
      RoundShape(s);
      RoundsAreAcks(Delivery(s).value);
    }
  }

  /**
  UpdateIRQ ends after at most 16 acknowledgements whenever no auto-EOI
  controller has an unmasked level-triggered request.
  */
  lemma EndsWithinSixteenAcks(s: State, id: Id)
    requires Safe(s)
    ensures Terminates(Entry(s, id))
    ensures |Settle(Entry(s, id)).hist.acks| <= |s.hist.acks| + 16
  {
    var e := Entry(s, id);
    CascadeKeepsLevelSafe(s);
    HaltsWithinBudget(e);
    BudgetAtMostEight(e.master, Master);
    BudgetAtMostEight(e.slave, Slave);
    RoundsAreAcks(e);
    MoreRounds(e, TotalBudget(e), 16);
    assert e.hist.acks == s.hist.acks;
  }

  // ----- Exactly when it ends -----

  /**
  A request that auto-EOI acknowledges again and again: level triggered, so its
  request bit stays. Rotation saves the day only if some line is in service.
  */
  ghost predicate HasStuckLine(c: Chip, id: Id) {
    Unblocked(c, id) && exists line: Line :: line in c.elcr && Eligible(c, id, line)
  }

  /** The recursion gets to the slave before the master blocks the cascade line. */
  predicate CascadeGetsTurn(c: Chip) {
    if c.autoEoi then Eligible(c, Master, CASCADE) else GetIrq(c, Master) == CASCADE
  }

  /** Some level-triggered request is acknowledged for ever, given that the slave backs the cascade request. */
  ghost predicate BackedStorm(s: State) {
    || HasStuckLine(s.master, Master)
    || (HasStuckLine(s.slave, Slave) && CascadeGetsTurn(s.master))
  }

  /** The cascade line is requested only while the slave has something to serve. */
  predicate CascadeBacked(s: State) {
    CASCADE in s.master.irr ==> GetIrq(s.slave, Slave) >= 0
  }

  /**
  The master gets to the cascade line, where an unbacked request ends the
  recursion: at once or by rotating if it rotates, else by outranking every
  level-triggered request.
  */
  ghost predicate CascadeWins(c: Chip) {
    && Eligible(c, Master, CASCADE)
    && (c.rotateOnAutoEoi ||
        forall line: Line :: line in c.elcr && Eligible(c, Master, line) ==>
          PriorityOf(CASCADE, c.priorityAdd) < PriorityOf(line, c.priorityAdd))
  }

  /** The exact condition under which UpdateIRQ(PIC_MASTER) does not return. */
  ghost predicate Storm(s: State) {
    if CascadeBacked(s) then BackedStorm(s) else HasStuckLine(s.master, Master) && !CascadeWins(s.master)
  }

  ghost predicate Regular(s: State) {
    WellFormed(s) && CascadeBacked(s)
  }

  lemma RoundKeepsRegular(s: State)
    requires Regular(s) && Delivery(s).Some?
    ensures Regular(Delivery(s).value)
  {
    RoundKeepsWellFormed(s);
  }

  /** An acknowledgement leaves the eligibility of level-triggered lines alone where one can be stuck. */
  lemma AckKeepsLevelLine(c: Chip, id: Id, line: Line, out: bool, other: Line)
    requires Unblocked(c, id) && other in c.elcr
    ensures Eligible(AckChip(c, line).(output := out), id, other) <==> Eligible(c, id, other)
  {
    var d := AckChip(c, line).(output := out);
    PriorityIsMinimum(InService(c, id), c.priorityAdd);
    PriorityIsMinimum(InService(d, id), d.priorityAdd);
  }

  lemma AckKeepsStuckLine(c: Chip, id: Id, line: Line, out: bool)
    ensures HasStuckLine(AckChip(c, line).(output := out), id) <==> HasStuckLine(c, id)
  {
    hide Eligible;
    if Unblocked(c, id) {
      forall other: Line | other in c.elcr
        ensures Eligible(AckChip(c, line).(output := out), id, other) <==> Eligible(c, id, other)
      {
        AckKeepsLevelLine(c, id, line, out, other);
      }
    }
  }

  lemma AckKeepsCascadeTurn(c: Chip, line: Line)
    requires c.autoEoi && GetIrq(c, Master) == line && line != CASCADE
    ensures CascadeGetsTurn(AckChip(c, line).(output := true)) <==> CascadeGetsTurn(c)
  {
    GetIrqPicksBest(c, Master);
    if c.rotateOnAutoEoi && CASCADE in Requests(c) {
      PriorityIsMinimum(Requests(c), c.priorityAdd);
      RequestsDiffer(line, CASCADE, c.priorityAdd);
      RotationKeepsOrder(InService(c, Master), line, CASCADE, c.priorityAdd);
    }
    hide Priority, GetIrq, PriorityOf;
  }

  /** Rotating past a line that outranks both keeps another line's standing against the lines in service. */
  lemma RotationKeepsOrder(mask: Mask, line: Line, other: Line, add: Line)
    requires PriorityOf(line, add) < PriorityOf(other, add)
    requires PriorityOf(line, add) < Priority(mask, add)
    ensures PriorityOf(other, Wrap(line + 1)) < Priority(mask, Wrap(line + 1))
       <==> PriorityOf(other, add) < Priority(mask, add)
  {
    RotateMovesUp(line, other, add);
    if mask == {} {
      PriorityIsMinimum(mask, add);
      PriorityIsMinimum(mask, Wrap(line + 1));
    } else {
      RotateMovesMinimum(mask, line, add);
    }
  }

  lemma RequestsDiffer(a: Line, b: Line, add: Line)
    requires a != b
    ensures PriorityOf(a, add) != PriorityOf(b, add)
  {
  }

  /** Driving the cascade line changes no level-triggered request. */
  lemma LatchKeepsStuckLine(c: Chip, out: bool)
    requires CASCADE !in c.elcr
    ensures HasStuckLine(LatchChip(c, CASCADE, out).(output := true), Master) <==> HasStuckLine(c, Master)
  {
    var d := LatchChip(c, CASCADE, out).(output := true);
    forall line: Line | line in c.elcr
      ensures Eligible(d, Master, line) <==> Eligible(c, Master, line)
    {
    }
  }

  lemma StuckLineIsServed(c: Chip, id: Id)
    requires HasStuckLine(c, id)
    ensures GetIrq(c, id) >= 0
  {
    GetIrqPicksBest(c, id);
  }

  lemma StormContinues(s: State)
    requires Regular(s) && BackedStorm(s)
    ensures Delivery(s).Some? && BackedStorm(Delivery(s).value)
  {
    GetIrqPicksBest(s.master, Master);
    if HasStuckLine(s.master, Master) {
      StuckLineIsServed(s.master, Master);
    }
    assert Delivery(s).Some?;
    RoundShape(s);
    hide GetIrq, Delivery, Eligible;
    var (id, line) := NextAck(s);
    var t := Delivery(s).value;
    if id == Master {
      AckKeepsStuckLine(s.master, Master, line, true);
      if s.master.autoEoi {
        AckKeepsCascadeTurn(s.master, line);
      }
    } else {
      var a := AckChip(s.slave, line);
      var out := GetIrq(a, Slave) >= 0;
      LatchKeepsStuckLine(s.master, out);
      AckKeepsStuckLine(s.slave, Slave, line, out);
      if HasStuckLine(s.slave, Slave) {
        AckKeepsStuckLine(s.slave, Slave, line, a.output);
        StuckLineIsServed(a, Slave);
        LatchedCascadeStays(s.master);
      }
    }
  }

  lemma LatchedCascadeStays(c: Chip)
    requires GetIrq(c, Master) == CASCADE && c.irr <= c.prevIrr && CASCADE !in c.elcr
    ensures CascadeGetsTurn(LatchChip(c, CASCADE, true).(output := true))
  {
    GetIrqPicksBest(c, Master);
    assert LatchChip(c, CASCADE, true).(output := true) == c.(output := true, prevIrr := c.prevIrr);
  }

  lemma CalmContinues(s: State)
    requires Regular(s) && !BackedStorm(s) && Delivery(s).Some?
    ensures !BackedStorm(Delivery(s).value)
    ensures var (id, line) := NextAck(s); Unblocked(s.Get(id), id) ==> line !in s.Get(id).elcr
  {
    RoundShape(s);
    var (id, line) := NextAck(s);
    GetIrqPicksBest(s.master, Master);
    GetIrqPicksBest(s.slave, Slave);
    var t := Delivery(s).value;
    if id == Master {
      AckKeepsStuckLine(s.master, Master, line, true);
      if s.master.autoEoi {
        AckKeepsCascadeTurn(s.master, line);
      } else {
        AckBlocksLower(s.master, line);
      }
    } else {
      var out := GetIrq(AckChip(s.slave, line), Slave) >= 0;
      LatchKeepsStuckLine(s.master, out);
      AckKeepsStuckLine(s.slave, Slave, line, out);
    }
  }

  lemma AckBlocksLower(c: Chip, line: Line)
    requires !c.autoEoi && GetIrq(c, Master) == line && line != CASCADE
    ensures GetIrq(AckChip(c, line).(output := true), Master) != CASCADE
  {
    GetIrqPicksBest(c, Master);
    var d := AckChip(c, line).(output := true);
    GetIrqPicksBest(d, Master);
    PriorityIsMinimum(InService(d, Master), d.priorityAdd);
    assert line in InService(d, Master);
  }

  lemma {:induction false} StormNeverHalts(s: State, n: nat)
    requires Regular(s) && BackedStorm(s)
    ensures !Halts(s, n)
    decreases n
  {
    hide Delivery, BackedStorm, Regular;
    StormContinues(s);
    RoundKeepsRegular(s);
    if n > 0 {
      StormNeverHalts(Delivery(s).value, n - 1);
    }
  }

  lemma {:induction false} CalmHalts(s: State)
    requires Regular(s) && !BackedStorm(s)
    ensures Halts(s, TotalBudget(s))
    decreases TotalBudget(s)
  {
    hide Delivery, BackedStorm, TotalBudget;
    if Delivery(s).Some? {
      CalmContinues(s);
      RoundKeepsRegular(s);
      RoundSpendsBudget(s);
      var t := Delivery(s).value;
      CalmHalts(t);
      MoreRounds(t, TotalBudget(t), TotalBudget(s) - 1);
    }
  }

  lemma ReturnsIfBacked(s: State)
    requires Regular(s)
    ensures Terminates(s) <==> !BackedStorm(s)
    ensures Terminates(s) <==> Halts(s, 16)
  {
    hide Delivery, BackedStorm, Regular;
    if BackedStorm(s) {
      forall n: nat ensures !Halts(s, n) {
        StormNeverHalts(s, n);
      }
    } else {
      CalmHalts(s);
      BudgetAtMostEight(s.master, Master);
      BudgetAtMostEight(s.slave, Slave);
      MoreRounds(s, TotalBudget(s), 16);
    }
  }

  // ----- A cascade request that the slave does not back -----

  ghost predicate Unbacked(s: State) {
    WellFormed(s) && !CascadeBacked(s)
  }

  /** Only the master is ever acknowledged, so the cascade request stays as it is. */
  lemma RoundKeepsUnbacked(s: State)
    requires Unbacked(s) && Delivery(s).Some?
    ensures Unbacked(Delivery(s).value)
    ensures var line := GetIrq(s.master, Master);
            0 <= line < 8 && line != CASCADE && Delivery(s).value.master == AckChip(s.master, line).(output := true)
  {
    RoundShape(s);
    RoundKeepsWellFormed(s);
    hide GetIrq;
  }

  lemma LevelRequestIsStuck(c: Chip, line: Line)
    requires GetIrq(c, Master) == line && Unblocked(c, Master) && line in c.elcr
    ensures HasStuckLine(c, Master)
  {
    GetIrqPicksBest(c, Master);
  }

  lemma AckKeepsCascadeWins(c: Chip, line: Line)
    requires HasStuckLine(c, Master) && GetIrq(c, Master) == line && line != CASCADE
    ensures CascadeWins(AckChip(c, line).(output := true)) <==> CascadeWins(c)
  {
    var d := AckChip(c, line).(output := true);
    AckKeepsCascadeTurn(c, line);
    assert Eligible(d, Master, CASCADE) == Eligible(c, Master, CASCADE);
    hide Eligible, GetIrq, PriorityOf;
    forall other: Line | other in c.elcr
      ensures Eligible(d, Master, other) <==> Eligible(c, Master, other)
    {
      AckKeepsLevelLine(c, Master, line, true, other);
    }
  }

  lemma ServedCascadeWins(c: Chip)
    requires GetIrq(c, Master) == CASCADE && CASCADE !in c.elcr
    ensures CascadeWins(c)
  {
    GetIrqPicksBest(c, Master);
    forall line: Line | line in c.elcr && Eligible(c, Master, line)
      ensures PriorityOf(CASCADE, c.priorityAdd) < PriorityOf(line, c.priorityAdd)
    {
      RequestsDiffer(CASCADE, line, c.priorityAdd);
    }
  }

  lemma {:induction false} UnbackedStormNeverHalts(s: State, n: nat)
    requires Unbacked(s) && HasStuckLine(s.master, Master) && !CascadeWins(s.master)
    ensures !Halts(s, n)
    decreases n
  {
    StuckLineIsServed(s.master, Master);
    if GetIrq(s.master, Master) == CASCADE {
      ServedCascadeWins(s.master);
    }
    assert Delivery(s).Some?;
    RoundKeepsUnbacked(s);
    hide Delivery, CascadeWins, HasStuckLine, Unbacked, GetIrq, AckChip;
    var line := GetIrq(s.master, Master);
    AckKeepsStuckLine(s.master, Master, line, true);
    AckKeepsCascadeWins(s.master, line);
    if n > 0 {
      UnbackedStormNeverHalts(Delivery(s).value, n - 1);
    }
  }

  /** What the acknowledgements before the cascade line's turn use up. */
  function Countdown(c: Chip): nat {
    if Unblocked(c, Master) && c.rotateOnAutoEoi then PriorityOf(CASCADE, c.priorityAdd) else Budget(c, Master)
  }

  lemma WinningSpendsCountdown(c: Chip, line: Line)
    requires GetIrq(c, Master) == line && line != CASCADE
    requires HasStuckLine(c, Master) && CascadeWins(c)
    ensures Countdown(AckChip(c, line).(output := true)) < Countdown(c)
  {
    GetIrqPicksBest(c, Master);
    RequestsDiffer(line, CASCADE, c.priorityAdd);
    if c.rotateOnAutoEoi {
      RotateMovesUp(line, CASCADE, c.priorityAdd);
    } else {
      MasterRoundSpendsBudget(c, line);
    }
  }

  lemma {:induction false} WinningHalts(s: State)
    requires Unbacked(s) && HasStuckLine(s.master, Master) && CascadeWins(s.master)
    ensures Halts(s, Countdown(s.master))
    decreases Countdown(s.master)
  {
    hide Delivery, CascadeWins, HasStuckLine, Unbacked, GetIrq, AckChip, Countdown;
    if Delivery(s).Some? {
      var t := Delivery(s).value;
      var line := GetIrq(s.master, Master);
      RoundKeepsUnbacked(s);
      AckKeepsStuckLine(s.master, Master, line, true);
      AckKeepsCascadeWins(s.master, line);
      WinningSpendsCountdown(s.master, line);
      WinningHalts(t);
      MoreRounds(t, Countdown(t.master), Countdown(s.master) - 1);
    }
  }

  lemma {:induction false} UnstuckHalts(s: State)
    requires Unbacked(s) && !HasStuckLine(s.master, Master)
    ensures Halts(s, Budget(s.master, Master))
    decreases Budget(s.master, Master)
  {
    hide Delivery, HasStuckLine, Unbacked, GetIrq, AckChip, Budget, Unblocked;
    if Delivery(s).Some? {
      var t := Delivery(s).value;
      var line := GetIrq(s.master, Master);
      RoundKeepsUnbacked(s);
      AckKeepsStuckLine(s.master, Master, line, true);
      if Unblocked(s.master, Master) && line in s.master.elcr {
        LevelRequestIsStuck(s.master, line);
      }
      MasterRoundSpendsBudget(s.master, line);
      UnstuckHalts(t);
      MoreRounds(t, Budget(t.master, Master), Budget(s.master, Master) - 1);
    }
  }

  lemma ReturnsIfUnbacked(s: State)
    requires Unbacked(s)
    ensures Terminates(s) <==> !(HasStuckLine(s.master, Master) && !CascadeWins(s.master))
    ensures Terminates(s) <==> Halts(s, 16)
  {
    hide Delivery, HasStuckLine, CascadeWins, Unbacked, Countdown;
    BudgetAtMostEight(s.master, Master);
    assert Countdown(s.master) <= 16 by { CountdownAtMostEight(s.master); }
    if !HasStuckLine(s.master, Master) {
      UnstuckHalts(s);
      MoreRounds(s, Budget(s.master, Master), 16);
    } else if CascadeWins(s.master) {
      WinningHalts(s);
      MoreRounds(s, Countdown(s.master), 16);
    } else {
      forall n: nat ensures !Halts(s, n) {
        UnbackedStormNeverHalts(s, n);
      }
    }
  }

  lemma CountdownAtMostEight(c: Chip)
    ensures Countdown(c) <= 8
  {
    BudgetAtMostEight(c, Master);
  }

  /**
  UpdateIRQ(PIC_MASTER) returns exactly when there is no storm, and then after at
  most 16 acknowledgements.
  */
  lemma ReturnsUnlessStorm(s: State)
    requires WellFormed(s)
    ensures Terminates(s) <==> !Storm(s)
    ensures Terminates(s) <==> Halts(s, 16)
  {
    hide Delivery, HasStuckLine, CascadeWins, BackedStorm, Halts, WellFormed, CascadeBacked;
    if CascadeBacked(s) {
      ReturnsIfBacked(s);
    } else {
      ReturnsIfUnbacked(s);
    }
  }
}
