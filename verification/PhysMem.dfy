/** Bytes and little-endian words. */
module Bytes {
  type byte = b: int | 0 <= b < 256

  /** The number of addresses, and of values of a uint32_t. */
  const WORD := 0x1_0000_0000

  type word = w: int | 0 <= w < WORD

  function WordOf(s: seq<byte>): word
    requires |s| == 4
  {
    s[0] as int + 0x100 * s[1] as int + 0x1_0000 * s[2] as int + 0x100_0000 * s[3] as int
  }

  function BytesOf(w: word): (s: seq<byte>)
    ensures |s| == 4
  {
    [w % 0x100, w / 0x100 % 0x100, w / 0x1_0000 % 0x100, w / 0x100_0000]
  }

  lemma WordRoundTrip(w: word)
    ensures WordOf(BytesOf(w)) == w
  {
    assert w == w % 0x100 + 0x100 * (w / 0x100);
    assert w / 0x100 == w / 0x100 % 0x100 + 0x100 * (w / 0x1_0000);
    assert w / 0x1_0000 == w / 0x1_0000 % 0x100 + 0x100 * (w / 0x100_0000);
  }
}

/**
Physical memory as the processor module sees it: a list of mapped ranges, searched
in order (cpu.cpp, MemRead and MemWrite).
*/
module PhysMem {
  import opened Bytes

  datatype Option<+T> = None | Some(value: T)

  datatype Region = Region(start: nat, bytes: seq<byte>)

  type Memory = seq<Region>

  /** The range contains all of [addr, addr + size). */
  predicate Holds(r: Region, addr: nat, size: nat) {
    r.start <= addr && addr + size <= r.start + |r.bytes|
  }

  /** The first range from the i-th on that contains all of [addr, addr + size), or the number of ranges. */
  function Find(mem: Memory, addr: nat, size: nat, i: nat): (r: nat)
    requires i <= |mem|
    ensures i <= r <= |mem|
    ensures r < |mem| ==> Holds(mem[r], addr, size)
    ensures forall j :: i <= j < r ==> !Holds(mem[j], addr, size)
    decreases |mem| - i
  {
    if i == |mem| || Holds(mem[i], addr, size) then i else Find(mem, addr, size, i + 1)
  }

  function Read(mem: Memory, addr: nat, size: nat): (r: Option<seq<byte>>)
    ensures r.Some? ==> |r.value| == size
  {
    var i := Find(mem, addr, size, 0);
    if i == |mem| then None
    else Some(mem[i].bytes[addr - mem[i].start..addr - mem[i].start + size])
  }

  /** A range with `data` written over it from `offset` on. */
  function Patch(r: Region, offset: nat, data: seq<byte>): Region
    requires offset + |data| <= |r.bytes|
  {
    r.(bytes := r.bytes[..offset] + data + r.bytes[offset + |data|..])
  }

  /** `data` written at `addr` into the i-th range. */
  function WriteAt(mem: Memory, i: nat, addr: nat, data: seq<byte>): Memory
    requires i < |mem| && Holds(mem[i], addr, |data|)
  {
    mem[i := Patch(mem[i], addr - mem[i].start, data)]
  }

  function Write(mem: Memory, addr: nat, data: seq<byte>): (r: Option<Memory>) {
    var i := Find(mem, addr, |data|, 0);
    if i == |mem| then None else Some(WriteAt(mem, i, addr, data))
  }

  function ByteAt(mem: Memory, addr: nat): Option<byte> {
    var r := Read(mem, addr, 1);
    if r.None? then None else Some(r.value[0])
  }

  function Store(mem: Memory, addr: nat, b: byte): Memory
    requires ByteAt(mem, addr).Some?
  {
    Write(mem, addr, [b]).value
  }

  /** A read gives the bytes of the first range that contains all of them, and fails exactly if there is none. */
  lemma ReadFindsFirst(mem: Memory, addr: nat, size: nat)
    ensures Read(mem, addr, size).None? <==>
      forall i :: 0 <= i < |mem| ==> addr < mem[i].start || mem[i].start + |mem[i].bytes| < addr + size
    ensures forall i, data :: 0 <= i < |mem| && |data| == size && ReadsAt(mem, addr, data, i) ==>
              Read(mem, addr, size) == Some(data)
  {
    var f := Find(mem, addr, size, 0);
    assert f < |mem| ==> Holds(mem[f], addr, size);
    forall i, data | 0 <= i < |mem| && |data| == size && ReadsAt(mem, addr, data, i)
      ensures Read(mem, addr, size) == Some(data)
    {
      assert Holds(mem[i], addr, size);
      assert f == i;
      assert mem[i].bytes[addr - mem[i].start..addr - mem[i].start + size] == data;
    }
  }

  /** `data` lies in the i-th range from addr on, and no range before that one contains as much from there on. */
  predicate ReadsAt(mem: Memory, addr: nat, data: seq<byte>, i: nat)
    requires i < |mem|
  {
    && mem[i].start <= addr && addr + |data| <= mem[i].start + |mem[i].bytes|
    && (forall k :: 0 <= k < |data| ==> mem[i].bytes[addr - mem[i].start + k] == data[k])
    && (forall j :: 0 <= j < i ==> addr < mem[j].start || mem[j].start + |mem[j].bytes| < addr + |data|)
  }

  // ----- Writes keep the map -----

  predicate SameShape(m: Memory, n: Memory) {
    |m| == |n| && forall i :: 0 <= i < |m| ==> m[i].start == n[i].start && |m[i].bytes| == |n[i].bytes|
  }

  lemma {:induction false} SameFind(m: Memory, n: Memory, addr: nat, size: nat, i: nat)
    requires SameShape(m, n) && i <= |m|
    ensures Find(m, addr, size, i) == Find(n, addr, size, i)
    decreases |m| - i
  {
    if i < |m| {
      SameFind(m, n, addr, size, i + 1);
    }
  }

  /** Writing one byte changes that byte and no read that does not include it. */
  lemma StoreChangesOneByte(mem: Memory, addr: nat, b: byte, a: nat, size: nat)
    requires ByteAt(mem, addr).Some?
    ensures var m := Store(mem, addr, b);
            && SameShape(mem, m)
            && ByteAt(m, addr) == Some(b)
            && Read(m, a, size).Some? == Read(mem, a, size).Some?
            && (!(a <= addr < a + size) ==> Read(m, a, size) == Read(mem, a, size))
  {
    var m := Store(mem, addr, b);
    SameFind(mem, m, addr, 1, 0);
    SameFind(mem, m, a, size, 0);
    var i := Find(mem, a, size, 0);
    if i < |mem| && !(a <= addr < a + size) {
      var o := a - mem[i].start;
      if i == Find(mem, addr, 1, 0) {
        PatchElsewhere(mem[i], addr - mem[i].start, b, o, size);
      }
      assert m[i].bytes[o..o + size] == mem[i].bytes[o..o + size];
    }
  }

  lemma PatchElsewhere(r: Region, offset: nat, b: byte, o: nat, size: nat)
    requires offset < |r.bytes| && o + size <= |r.bytes| && !(o <= offset < o + size)
    ensures Patch(r, offset, [b]).bytes[o..o + size] == r.bytes[o..o + size]
  {
  }

  // ----- Pages -----

  const PAGE := 0x1000

  /** Every mapped range is made of whole pages. */
  predicate PageAligned(mem: Memory) {
    forall r :: r in mem ==> r.start % PAGE == 0 && |r.bytes| % PAGE == 0
  }

  /** Within one page, a range holds all of a piece or none of it. */
  lemma HoldsWholePages(r: Region, addr: nat, size: nat, k: nat)
    requires r.start % PAGE == 0 && |r.bytes| % PAGE == 0
    requires addr % PAGE + size <= PAGE && k < size
    ensures Holds(r, addr, size) <==> Holds(r, addr + k, 1)
  {
    var first := r.start / PAGE;
    var count := |r.bytes| / PAGE;
    var page := addr / PAGE;
    assert r.start == first * PAGE && |r.bytes| == count * PAGE && addr == page * PAGE + addr % PAGE;
    assert Holds(r, addr, size) <==> first <= page && page + 1 <= first + count;
    assert Holds(r, addr + k, 1) <==> first <= page && page + 1 <= first + count;
  }

  lemma {:induction false} FindWithinPage(mem: Memory, addr: nat, size: nat, k: nat, i: nat)
    requires PageAligned(mem) && addr % PAGE + size <= PAGE && k < size && i <= |mem|
    ensures Find(mem, addr, size, i) == Find(mem, addr + k, 1, i)
    decreases |mem| - i
  {
    if i < |mem| {
      HoldsWholePages(mem[i], addr, size, k);
      FindWithinPage(mem, addr, size, k, i + 1);
    }
  }

  /** A piece within one page reads as its bytes read one by one. */
  lemma ReadWithinPage(mem: Memory, addr: nat, size: nat, k: nat)
    requires PageAligned(mem) && addr % PAGE + size <= PAGE && k < size
    ensures Read(mem, addr, size).Some? <==> ByteAt(mem, addr + k).Some?
    ensures Read(mem, addr, size).Some? ==> ByteAt(mem, addr + k) == Some(Read(mem, addr, size).value[k])
  {
    FindWithinPage(mem, addr, size, k, 0);
  }

  lemma ShapeKeepsAligned(m: Memory, n: Memory)
    requires SameShape(m, n) && PageAligned(m)
    ensures PageAligned(n)
  {
    forall r | r in n
      ensures r.start % PAGE == 0 && |r.bytes| % PAGE == 0
    {
      var i :| 0 <= i < |n| && n[i] == r;
      assert m[i] in m;
    }
  }

  /** The bytes of `data` stored one by one from `addr` on. */
  function StoreAll(mem: Memory, addr: nat, data: seq<byte>): Option<Memory> {
    if data == [] then Some(mem)
    else
      var last := |data| - 1;
      var m := StoreAll(mem, addr, data[..last]);
      if m.None? || ByteAt(m.value, addr + last).None? then None
      else Some(Store(m.value, addr + last, data[last]))
  }

  lemma PatchOneMore(r: Region, offset: nat, data: seq<byte>)
    requires data != [] && offset + |data| <= |r.bytes|
    ensures var last := |data| - 1;
            Patch(Patch(r, offset, data[..last]), offset + last, [data[last]]) == Patch(r, offset, data)
  {
    var last := |data| - 1;
    var p := Patch(r, offset, data[..last]);
    assert Patch(p, offset + last, [data[last]]).bytes == Patch(r, offset, data).bytes;
  }

  lemma WriteAtOneMore(mem: Memory, i: nat, addr: nat, data: seq<byte>)
    requires data != [] && i < |mem| && Holds(mem[i], addr, |data|)
    ensures var last := |data| - 1;
            var m := WriteAt(mem, i, addr, data[..last]);
            && SameShape(mem, m) && Holds(m[i], addr + last, 1)
            && WriteAt(m, i, addr + last, [data[last]]) == WriteAt(mem, i, addr, data)
  {
    PatchOneMore(mem[i], addr - mem[i].start, data);
  }

  /** A piece within one page is written as its bytes written one by one. */
  lemma {:induction false} WriteWithinPage(mem: Memory, addr: nat, data: seq<byte>)
    requires PageAligned(mem) && addr % PAGE + |data| <= PAGE && data != []
    ensures Write(mem, addr, data) == StoreAll(mem, addr, data)
    decreases |data|
  {
    hide WriteAt, Find;
    var last := |data| - 1;
    FindWithinPage(mem, addr, |data|, last, 0);
    if last == 0 {
      assert data == [data[0]] && data[..0] == [];
    } else {
      FindWithinPage(mem, addr, |data|, 0, 0);
      FindWithinPage(mem, addr, last, 0, 0);
      WriteWithinPage(mem, addr, data[..last]);
      var i := Find(mem, addr, |data|, 0);
      if i < |mem| {
        WriteAtOneMore(mem, i, addr, data);
        SameFind(mem, WriteAt(mem, i, addr, data[..last]), addr + last, 1, 0);
      }
    }
  }
}
