/** The ring buffer template of fifo.h. */
module RingFifo {

  /** The slot of the i-th element of a ring of `capacity` slots that starts at `head`. */
  function Slot(head: nat, i: nat, capacity: nat): (k: nat)
    requires 0 < capacity && head < capacity && i <= capacity
    ensures k < capacity
  {
    if head + i < capacity then head + i else head + i - capacity
  }

  /** The remainder that the source computes is that slot. */
  lemma SlotIsRemainder(head: nat, i: nat, capacity: nat)
    requires 0 < capacity && head < capacity && i <= capacity
    ensures (head + i) % capacity == Slot(head, i, capacity)
  {
  }

  class Fifo<T(0)> {
    const data: array<T>
    const capacity: nat
    var head: nat
    var num: nat

    ghost predicate Valid()
      reads this
    {
      && data.Length == capacity
      && num <= capacity
      && (if capacity == 0 then head == 0 else head < capacity)
    }

    /** The queued elements, oldest first. */
    ghost function Contents(): (s: seq<T>)
      requires Valid()
      reads this, data
      ensures |s| == num
      ensures forall i :: 0 <= i < num ==> s[i] == data[Slot(head, i, capacity)]
    {
      seq(num, i requires 0 <= i < num && Valid() reads this, data => data[Slot(head, i, capacity)])
    }

    constructor (capacity: nat)
      ensures Valid() && fresh(data) && this.capacity == capacity && Contents() == []
    {
      this.data := new T[capacity];
      this.capacity := capacity;
      head, num := 0, 0;
    }

    method Push(x: T) returns (ok: bool)
      requires Valid()
      modifies this`num, data
      ensures Valid()
      ensures ok == (|old(Contents())| < capacity)
      ensures Contents() == if ok then old(Contents()) + [x] else old(Contents())
    {
      if num == capacity {
        return false;
      }
      SlotIsRemainder(head, num, capacity);
      data[(head + num) % capacity] := x;
      num := num + 1;
      return true;
    }

    method Pop() returns (ok: bool, x: T)
      requires Valid()
      modifies this
      ensures Valid()
      ensures ok == (old(Contents()) != [])
      ensures ok ==> x == old(Contents())[0] && Contents() == old(Contents())[1..]
      ensures !ok ==> Contents() == old(Contents())
    {
      if num == 0 {
        x := *;
        return false, x;
      }
      x := data[head];
      SlotIsRemainder(head, 1, capacity);
      head := head + 1;
      head := head % capacity;
      num := num - 1;
      return true, x;
    }

    method Discard() returns (ok: bool)
      requires Valid()
      modifies this
      ensures Valid()
      ensures ok == (old(Contents()) != [])
      ensures Contents() == if ok then old(Contents())[1..] else old(Contents())
    {
      if num == 0 {
        return false;
      }
      SlotIsRemainder(head, 1, capacity);
      head := (head + 1) % capacity;
      num := num - 1;
      return true;
    }

    method Clear()
      requires Valid()
      modifies this`num
      ensures Valid() && Contents() == []
    {
      num := 0;
    }
  }
}
