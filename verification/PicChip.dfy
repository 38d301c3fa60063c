/**
The registers of one 8259 interrupt controller and the rules that pick a request
out of them (i8259.cpp, GetPriority and GetIRQ).

An 8-bit register whose bits stand for the eight request lines is the set of the
lines whose bit is 1; `Bits` and `ByteOf` go between such a set and the byte that
the processor reads or writes.
*/
module PicChip {

  type Line = i: int | 0 <= i < 8
  type Mask = set<Line>

  /** Which of the two cascaded controllers: PIC_MASTER or PIC_SLAVE. */
  datatype Id = Master | Slave

  /** The line of the master that the slave's output is wired to. */
  const CASCADE: Line := 2

  datatype Chip = Chip(
    prevIrr: Mask,
    irr: Mask,
    imr: Mask,
    isr: Mask,
    base: nat,
    readSelect: bool,
    specialMask: bool,
    initState: nat,
    elcr: Mask,
    elcrMask: Mask,
    priorityAdd: Line,
    poll: bool,
    rotateOnAutoEoi: bool,
    is4ByteInit: bool,
    output: bool,
    autoEoi: bool,
    specialFullyNested: bool)

  // ----- Bytes and bits -----

  /** (value >> i) & 1 */
  predicate Bit(value: nat, i: nat) {
    if i == 0 then value % 2 == 1 else Bit(value / 2, i - 1)
  }

  function Bits(value: nat): Mask {
    set i: Line | 0 <= i < 8 && Bit(value, i)
  }

  /** The value of a register's bits from bit `low` up, shifted down by `low`. */
  function ByteFrom(mask: Mask, low: nat): (v: nat)
    requires low <= 8
    decreases 8 - low
  {
    if low == 8 then 0 else (if low in mask then 1 else 0) + 2 * ByteFrom(mask, low + 1)
  }

  function ByteOf(mask: Mask): nat {
    ByteFrom(mask, 0)
  }

  lemma {:induction false} BitOfByte(mask: Mask, low: nat, i: nat)
    requires low + i < 8
    ensures Bit(ByteFrom(mask, low), i) <==> low + i in mask
    decreases i
  {
    var rest := ByteFrom(mask, low + 1);
    assert ByteFrom(mask, low) / 2 == rest;
    if i > 0 {
      BitOfByte(mask, low + 1, i - 1);
    }
  }

  /** A register read back gives the bits that are in it, as a byte. */
  lemma RegisterRoundTrip(mask: Mask)
    ensures Bits(ByteOf(mask)) == mask
    ensures ByteOf(mask) < 256
  {
    forall i: Line
      ensures i in Bits(ByteOf(mask)) <==> i in mask
    {
      BitOfByte(mask, 0, i);
    }
    assert ByteFrom(mask, 7) <= 1;
    assert ByteFrom(mask, 6) <= 3;
    assert ByteFrom(mask, 5) <= 7;
    assert ByteFrom(mask, 4) <= 15;
    assert ByteFrom(mask, 3) <= 31;
    assert ByteFrom(mask, 2) <= 63;
    assert ByteFrom(mask, 1) <= 127;
  }

  // ----- Priorities -----

  /** x & 7, for the sums of two 3-bit numbers. */
  function Wrap(x: nat): Line
    requires x < 16
  {
    if x < 8 then x else x - 8
  }

  /** The line that has priority p when the lowest priority has been rotated by `add`. */
  function LineAt(p: Line, add: Line): Line {
    Wrap(p + add)
  }

  /** The priority of a line; 0 is the highest. */
  function PriorityOf(line: Line, add: Line): Line {
    Wrap(line + 8 - add)
  }

  lemma PriorityInverse(line: Line, p: Line, add: Line)
    ensures LineAt(PriorityOf(line, add), add) == line
    ensures PriorityOf(LineAt(p, add), add) == p
  {
  }

  function FirstFrom(mask: Mask, add: Line, p: nat): (r: nat)
    requires p <= 8
    ensures p <= r <= 8
    ensures r < 8 ==> LineAt(r, add) in mask
    decreases 8 - p
  {
    if p == 8 then 8 else if LineAt(p, add) in mask then p else FirstFrom(mask, add, p + 1)
  }

  /** What GetPriority returns: the best priority found in a register, 8 for an empty one. */
  function Priority(mask: Mask, add: Line): (r: nat)
    ensures r <= 8
    ensures r < 8 ==> LineAt(r, add) in mask
  {
    FirstFrom(mask, add, 0)
  }

  lemma FirstIsLeast(mask: Mask, add: Line, p: nat, line: Line)
    requires p <= PriorityOf(line, add) && line in mask
    ensures FirstFrom(mask, add, p) <= PriorityOf(line, add)
    decreases 8 - p
  {
    PriorityInverse(line, 0, add);
    if LineAt(p, add) !in mask {
      FirstIsLeast(mask, add, p + 1, line);
    }
  }

  /** Priority is the minimum of PriorityOf over the register: a lower bound that is reached. */
  lemma PriorityIsMinimum(mask: Mask, add: Line)
    ensures forall line :: line in mask ==> Priority(mask, add) <= PriorityOf(line, add)
    ensures Priority(mask, add) == 8 <==> mask == {}
    ensures Priority(mask, add) < 8 ==>
              exists line :: line in mask && PriorityOf(line, add) == Priority(mask, add)
  {
    forall line | line in mask
      ensures Priority(mask, add) <= PriorityOf(line, add)
    {
      FirstIsLeast(mask, add, 0, line);
    }
    var r := Priority(mask, add);
    if r < 8 {
      PriorityInverse(0, r, add);
      assert LineAt(r, add) in mask && PriorityOf(LineAt(r, add), add) == r;
    }
  }

  // ----- Selecting a request -----

  /** Requests that the mask register lets through. */
  function Requests(c: Chip): Mask {
    c.irr - c.imr
  }

  /** The in-service lines that hold back lower priorities. */
  function InService(c: Chip, id: Id): Mask {
    var m := if c.specialMask then c.isr - c.imr else c.isr;
    if c.specialFullyNested && id == Master then m - {CASCADE} else m
  }

  /** A request that may interrupt what is in service. */
  predicate Eligible(c: Chip, id: Id, line: Line) {
    line in Requests(c) && PriorityOf(line, c.priorityAdd) < Priority(InService(c, id), c.priorityAdd)
  }

  /** GetIRQ: the line to serve next, or -1. */
  function GetIrq(c: Chip, id: Id): (irq: int)
    ensures -1 <= irq < 8
  {
    var p := Priority(Requests(c), c.priorityAdd);
    if p == 8 then -1
    else if p < Priority(InService(c, id), c.priorityAdd) then LineAt(p, c.priorityAdd)
    else -1
  }

  /**
  GetIRQ picks the best eligible request, and picks none exactly when there is none.
  */
  lemma GetIrqPicksBest(c: Chip, id: Id)
    ensures GetIrq(c, id) >= 0 ==>
              && Eligible(c, id, GetIrq(c, id))
              && forall line: Line :: Eligible(c, id, line) ==>
                   PriorityOf(GetIrq(c, id), c.priorityAdd) <= PriorityOf(line, c.priorityAdd)
    ensures GetIrq(c, id) < 0 <==> forall line: Line :: !Eligible(c, id, line)
  {
    var add := c.priorityAdd;
    PriorityIsMinimum(Requests(c), add);
    var p := Priority(Requests(c), add);
    if p < 8 {
      PriorityInverse(0, p, add);
      if GetIrq(c, id) < 0 {
        forall line: Line ensures !Eligible(c, id, line) {
          if line in Requests(c) {
            assert p <= PriorityOf(line, add);
          }
        }
      }
    }
  }

  // ----- Counting -----

  lemma MaskSize(mask: Mask)
    ensures |mask| <= 8
  {
    var all: Mask := {0, 1, 2, 3, 4, 5, 6, 7};
    assert mask <= all;
    SubsetSize(mask, all);
    assert |all| == 8;
  }

  lemma SubsetSize<T>(a: set<T>, b: set<T>)
    requires a <= b
    ensures |a| <= |b|
  {
    assert b == a + (b - a);
  }
}
