/**
The controllers' registers in plain terms: numbers and bits as the Intel 8259A data
sheet has them, without the vocabulary in which the model itself is written.
*/
module PicRegisters {
  import opened PicChip
  import opened PicCascade
  import opened PicDelivery
  import opened PicRuns
  import opened PicEffects

  // ----- The choice of a request -----

  /** The place of a line in the rotated order. */
  function Place(line: nat, add: nat): nat
    requires line < 8 && add < 8
  {
    (line + 8 - add) % 8
  }

  lemma PlaceIsPriority(line: Line, add: Line)
    ensures PriorityOf(line, add) == Place(line, add)
  {
  }

  /**
  The line is requested and not masked, no other such line comes before it, and it
  comes before every line in service, not counting masked ones in special mask
  mode and the cascade line of a master in special fully nested mode.
  */
  predicate Chosen(c: Chip, id: Id, line: nat) {
    && line < 8 && line in c.irr && line !in c.imr
    && (forall k: Line :: k in c.irr && k !in c.imr ==> Place(line, c.priorityAdd) <= Place(k, c.priorityAdd))
    && (forall b: Line :: b in c.isr ==>
          || (c.specialMask && b in c.imr)
          || (c.specialFullyNested && id == Master && b == 2)
          || Place(line, c.priorityAdd) < Place(b, c.priorityAdd))
  }

  lemma InServiceMembers(c: Chip, id: Id, b: Line)
    ensures b in InService(c, id) <==>
      b in c.isr && !(c.specialMask && b in c.imr) && !(c.specialFullyNested && id == Master && b == 2)
  {
  }

  lemma OutranksService(c: Chip, id: Id, line: Line)
    ensures PriorityOf(line, c.priorityAdd) < Priority(InService(c, id), c.priorityAdd)
      <==> forall b: Line :: b in InService(c, id) ==> Place(line, c.priorityAdd) < Place(b, c.priorityAdd)
  {
    PriorityIsMinimum(InService(c, id), c.priorityAdd);
    forall b: Line ensures PriorityOf(b, c.priorityAdd) == Place(b, c.priorityAdd) {
      PlaceIsPriority(b, c.priorityAdd);
    }
    hide Priority, InService, PriorityOf;
  }

  lemma ChosenIsEligible(c: Chip, id: Id, line: Line)
    ensures Chosen(c, id, line) <==>
      && Eligible(c, id, line)
      && forall k: Line :: k in Requests(c) ==> Place(line, c.priorityAdd) <= Place(k, c.priorityAdd)
  {
    OutranksService(c, id, line);
    forall b: Line {
      InServiceMembers(c, id, b);
    }
    hide Priority, InService, PriorityOf, Place;
  }

  /** GetIRQ answers a line exactly if it is the chosen one, and -1 exactly if none is. */
  lemma GetIrqIsChosen(c: Chip, id: Id, line: nat)
    ensures GetIrq(c, id) == line <==> Chosen(c, id, line)
    ensures GetIrq(c, id) == -1 <==> forall k: nat :: !Chosen(c, id, k)
  {
    BestIsChosen(c, id);
    if line < 8 {
      ChosenIsEligible(c, id, line);
    }
    forall k: nat | Chosen(c, id, k) ensures GetIrq(c, id) == k {
      ChosenIsUnique(c, id, k);
    }
  }

  lemma BestIsChosen(c: Chip, id: Id)
    ensures GetIrq(c, id) >= 0 ==> Chosen(c, id, GetIrq(c, id))
  {
    GetIrqPicksBest(c, id);
    if GetIrq(c, id) >= 0 {
      var irq: Line := GetIrq(c, id);
      ChosenIsEligible(c, id, irq);
      PriorityIsMinimum(Requests(c), c.priorityAdd);
      PriorityInverse(irq, Priority(Requests(c), c.priorityAdd), c.priorityAdd);
      forall k: Line | k in Requests(c) ensures Place(irq, c.priorityAdd) <= Place(k, c.priorityAdd) {
        PlaceIsPriority(k, c.priorityAdd);
        PlaceIsPriority(irq, c.priorityAdd);
      }
    }
  }

  lemma ChosenIsUnique(c: Chip, id: Id, k: nat)
    requires Chosen(c, id, k)
    ensures GetIrq(c, id) == k
  {
    ChosenIsEligible(c, id, k);
    GetIrqPicksBest(c, id);
    assert Eligible(c, id, k);
    var irq: Line := GetIrq(c, id);
    BestIsChosen(c, id);
    hide GetIrq, Eligible;
    assert Place(irq, c.priorityAdd) == Place(k, c.priorityAdd);
    SamePlace(irq, k, c.priorityAdd);
  }

  lemma SamePlace(a: Line, b: Line, add: Line)
    requires Place(a, add) == Place(b, add)
    ensures a == b
  {
  }

  // ----- Bytes -----

  function Weight(i: Line): nat {
    [1, 2, 4, 8, 16, 32, 64, 128][i]
  }

  /** The i-th binary digit. */
  predicate IsSet(value: nat, i: Line) {
    value / Weight(i) % 2 == 1
  }

  function Digit(mask: Mask, i: Line): nat {
    if i in mask then Weight(i) else 0
  }

  lemma BitIsDigit(value: nat, i: Line)
    ensures Bit(value, i) <==> IsSet(value, i)
  {
    var a, b, c := value / 2, value / 4, value / 8;
    var d, e, f, g := value / 16, value / 32, value / 64, value / 128;
    assert a / 2 == b && b / 2 == c && c / 2 == d && d / 2 == e && e / 2 == f && f / 2 == g;
    assert Bit(value, 0) == (value % 2 == 1) && (i > 0 ==> Bit(value, i) == Bit(a, i - 1));
    assert i > 1 ==> Bit(a, i - 1) == Bit(b, i - 2);
    assert i > 2 ==> Bit(b, i - 2) == Bit(c, i - 3);
    assert i > 3 ==> Bit(c, i - 3) == Bit(d, i - 4);
    assert i > 4 ==> Bit(d, i - 4) == Bit(e, i - 5);
    assert i > 5 ==> Bit(e, i - 5) == Bit(f, i - 6);
    assert i > 6 ==> Bit(f, i - 6) == Bit(g, i - 7);
  }

  lemma ByteIsSum(mask: Mask)
    ensures ByteOf(mask) == Digit(mask, 0) + Digit(mask, 1) + Digit(mask, 2) + Digit(mask, 3)
                          + Digit(mask, 4) + Digit(mask, 5) + Digit(mask, 6) + Digit(mask, 7)
  {
    assert ByteFrom(mask, 7) == if 7 in mask then 1 else 0;
    assert ByteFrom(mask, 6) == (if 6 in mask then 1 else 0) + 2 * ByteFrom(mask, 7);
    assert ByteFrom(mask, 5) == (if 5 in mask then 1 else 0) + 2 * ByteFrom(mask, 6);
    assert ByteFrom(mask, 4) == (if 4 in mask then 1 else 0) + 2 * ByteFrom(mask, 5);
    assert ByteFrom(mask, 3) == (if 3 in mask then 1 else 0) + 2 * ByteFrom(mask, 4);
    assert ByteFrom(mask, 2) == (if 2 in mask then 1 else 0) + 2 * ByteFrom(mask, 3);
    assert ByteFrom(mask, 1) == (if 1 in mask then 1 else 0) + 2 * ByteFrom(mask, 2);
  }

  lemma NibbleIsSum(v: nat)
    ensures v % 16 == v % 2 + 2 * (v / 2 % 2) + 4 * (v / 4 % 2) + 8 * (v / 8 % 2)
    ensures v % 8 == v % 2 + 2 * (v / 2 % 2) + 4 * (v / 4 % 2)
  {
    var d := v / 16;
    assert v == 2 * (v / 2) + v % 2;
    assert v / 2 == 2 * (v / 4) + v / 2 % 2;
    assert v / 4 == 2 * (v / 8) + v / 4 % 2;
    assert v / 8 == 2 * d + v / 8 % 2;
    RemaindersOf(v, d, v % 2 + 2 * (v / 2 % 2) + 4 * (v / 4 % 2), v / 8 % 2);
  }

  lemma RemaindersOf(v: nat, d: nat, low: nat, top: nat)
    requires v == 16 * d + 8 * top + low && low < 8 && top < 2
    ensures v % 16 == low + 8 * top && v % 8 == low
  {
    assert v - 16 * (v / 16) == v % 16 && v - 8 * (v / 8) == v % 8;
    assert v / 16 == d && v / 8 == 2 * d + top;
  }

  lemma ValueIsSum(value: nat)
    ensures value % 256 == value % 2 + 2 * (value / 2 % 2) + 4 * (value / 4 % 2) + 8 * (value / 8 % 2)
      + 16 * (value / 16 % 2) + 32 * (value / 32 % 2) + 64 * (value / 64 % 2) + 128 * (value / 128 % 2)
  {
    NibbleIsSum(value);
    NibbleIsSum(value / 16);
    TwoNibbles(value);
    ShiftTwice(value);
  }

  lemma TwoNibbles(v: nat)
    ensures v % 256 == v % 16 + 16 * (v / 16 % 16)
  {
    assert v / 16 / 16 == v / 256;
  }

  lemma ShiftTwice(v: nat)
    ensures v / 16 / 2 == v / 32 && v / 16 / 4 == v / 64 && v / 16 / 8 == v / 128
  {
  }

  lemma KeptBits(value: nat, mask: Mask, i: Line)
    ensures i in Bits(value) * mask <==> IsSet(value, i) && i in mask
  {
    BitIsDigit(value, i);
    hide Bit;
  }

  lemma KeptDigits(value: nat, mask: Mask)
    ensures ByteOf(Bits(value) * mask) ==
      (if 0 in mask then value % 2 else 0) + (if 1 in mask then 2 * (value / 2 % 2) else 0)
      + (if 2 in mask then 4 * (value / 4 % 2) else 0) + (if 3 in mask then 8 * (value / 8 % 2) else 0)
      + (if 4 in mask then 16 * (value / 16 % 2) else 0) + (if 5 in mask then 32 * (value / 32 % 2) else 0)
      + (if 6 in mask then 64 * (value / 64 % 2) else 0) + (if 7 in mask then 128 * (value / 128 % 2) else 0)
  {
    hide ByteOf, Bits, Digit;
    ByteIsSum(Bits(value) * mask);
    KeptDigit(value, mask, 0, 1);
    KeptDigit(value, mask, 1, 2);
    KeptDigit(value, mask, 2, 4);
    KeptDigit(value, mask, 3, 8);
    KeptDigit(value, mask, 4, 16);
    KeptDigit(value, mask, 5, 32);
    KeptDigit(value, mask, 6, 64);
    KeptDigit(value, mask, 7, 128);
  }

  lemma KeptDigit(value: nat, mask: Mask, i: Line, weight: nat)
    requires weight == Weight(i)
    ensures weight > 0 && Digit(Bits(value) * mask, i) == if i in mask then weight * (value / weight % 2) else 0
  {
    KeptBits(value, mask, i);
    hide Bits;
  }

  /** The byte of a register that was written with a value, bits outside `mask` being lost. */
  lemma ByteUnderMask(value: nat, mask: Mask)
    ensures mask == {0, 1, 2, 3, 4, 5, 6, 7} ==> ByteOf(Bits(value) * mask) == value % 256
    ensures mask == {3, 4, 5, 6, 7} ==> ByteOf(Bits(value) * mask) == value % 256 - value % 8
    ensures mask == {1, 2, 3, 4, 6, 7} ==>
              ByteOf(Bits(value) * mask) == value % 256 - value % 2 - 32 * (value / 32 % 2)
  {
    hide ByteOf, Bits;
    KeptDigits(value, mask);
    ValueIsSum(value);
    NibbleIsSum(value);
  }
}
