/**
32-bit paging as cpu.cpp translates it (VirtualToPhysical), and virtual reads and
writes byte by byte: the reference that the page-chunked loops are proved against.
*/
module Paging {
  import opened Bytes
  import opened PhysMem

  /** The entry at `addr` of a page directory or page table. */
  function Entry(mem: Memory, addr: nat): Option<nat> {
    var r := Read(mem, addr, 4);
    if r.None? then None else Some(WordOf(r.value))
  }

  predicate IsValid(pte: nat) { pte % 2 == 1 }

  predicate IsLarge(pte: nat) { pte / 0x80 % 2 == 1 }

  function FrameNumber(pte: nat): nat { pte / PAGE }

  /** (frame << PAGE_SHIFT) | (vaddr & (PAGE_SIZE - 1)) */
  function InFrame(frame: nat, vaddr: nat): (p: nat)
    ensures p / PAGE == frame && p % PAGE == vaddr % PAGE
  {
    frame * PAGE + vaddr % PAGE
  }

  /** cr3 + ((vaddr >> 22) << 2) in uint32_t arithmetic. */
  function PdeAddr(cr3: nat, vaddr: nat): nat {
    (cr3 + vaddr / 0x40_0000 * 4) % WORD
  }

  function PteAddr(pde: nat, vaddr: nat): nat {
    FrameNumber(pde) * PAGE + vaddr / PAGE % 0x400 * 4
  }

  /** Bitwise or of the low n bits. */
  function Or(a: nat, b: nat, n: nat): nat {
    if n == 0 then 0
    else (if a % 2 == 1 || b % 2 == 1 then 1 else 0) + 2 * Or(a / 2, b / 2, n - 1)
  }

  /**
  The frame of the 4 KB page of a large page: the frame number of the directory
  entry or-ed with bits 12 to 21 of the virtual address.
  */
  function LargeFrame(pde: nat, vaddr: nat): nat {
    FrameNumber(pde) / 0x400 * 0x400 + Or(FrameNumber(pde) % 0x400, vaddr / PAGE % 0x400, 10)
  }

  /**
  The page-table entries that translating vaddr reads are in mapped memory.
  VirtualToPhysical ignores the status of those reads and would otherwise decode
  an uninitialised entry.
  */
  predicate TablesMapped(mem: Memory, cr3: nat, vaddr: nat) {
    var pde := Entry(mem, PdeAddr(cr3, vaddr));
    && pde.Some?
    && (!IsLarge(pde.value) && IsValid(pde.value) ==> Entry(mem, PteAddr(pde.value, vaddr)).Some?)
  }

  /** VirtualToPhysical: the physical address, or None. A large page needs no valid bit. */
  function Translate(mem: Memory, cr3: nat, vaddr: nat): (r: Option<nat>)
    requires TablesMapped(mem, cr3, vaddr)
    ensures r.Some? ==> r.value % PAGE == vaddr % PAGE
  {
    var pde := Entry(mem, PdeAddr(cr3, vaddr)).value;
    if IsLarge(pde) then Some(InFrame(LargeFrame(pde, vaddr), vaddr))
    else if !IsValid(pde) then None
    else
      var pte := Entry(mem, PteAddr(pde, vaddr)).value;
      if !IsValid(pte) then None else Some(InFrame(FrameNumber(pte), vaddr))
  }

  // ----- Agreement with the architecture -----

  lemma {:induction false} OrZero(b: nat, n: nat, bound: nat)
    requires b < bound && bound == Pow2(n)
    ensures Or(0, b, n) == b
    decreases n
  {
    if n > 0 {
      OrZero(b / 2, n - 1, Pow2(n - 1));
    }
  }

  function Pow2(n: nat): (p: nat)
    ensures p > 0
  {
    if n == 0 then 1 else 2 * Pow2(n - 1)
  }

  lemma {:induction false} OrBound(a: nat, b: nat, n: nat)
    ensures Or(a, b, n) < Pow2(n)
    decreases n
  {
    if n > 0 {
      OrBound(a / 2, b / 2, n - 1);
    }
  }

  lemma TenBits()
    ensures Pow2(10) == 0x400
  {
    assert Pow2(4) == 16 by { assert Pow2(2) == 4; }
    assert Pow2(8) == 256 by { assert Pow2(6) == 64; }
  }

  /** Bit i of a bitwise or is set exactly if one of the bits is. */
  lemma {:induction false} OrBits(a: nat, b: nat, n: nat, i: nat)
    requires i < n
    ensures Or(a, b, n) / Pow2(i) % 2 == 1 <==> a / Pow2(i) % 2 == 1 || b / Pow2(i) % 2 == 1
    decreases n
  {
    OrHalves(a, b, n);
    if i > 0 {
      hide Or, Pow2;
      OrBits(a / 2, b / 2, n - 1, i - 1);
      HalfBit(a, i);
      HalfBit(b, i);
      HalfBit(Or(a, b, n), i);
    } else {
      assert Pow2(0) == 1;
      hide Or;
    }
  }

  lemma OrHalves(a: nat, b: nat, n: nat)
    requires n > 0
    ensures Or(a, b, n) / 2 == Or(a / 2, b / 2, n - 1)
    ensures Or(a, b, n) % 2 == 1 <==> a % 2 == 1 || b % 2 == 1
  {
    var rest := Or(a / 2, b / 2, n - 1);
    assert Or(a, b, n) == (if a % 2 == 1 || b % 2 == 1 then 1 else 0) + 2 * rest;
    hide Or;
  }

  lemma HalfBit(a: nat, i: nat)
    requires i > 0
    ensures a / Pow2(i) == a / 2 / Pow2(i - 1)
  {
    hide Or;
    DivideTwice(a, Pow2(i - 1));
  }

  lemma DivideTwice(a: nat, d: nat)
    requires d > 0
    ensures a / (2 * d) == a / 2 / d
  {
    var q := a / (2 * d);
    var r := a % (2 * d);
    assert a == q * (2 * d) + r;
    assert a / 2 == q * d + r / 2;
    assert r / 2 < d;
    QuotientIs(a / 2, d, q, r / 2);
  }

  lemma QuotientIs(x: nat, d: nat, q: nat, r: nat)
    requires d > 0 && r < d && x == q * d + r
    ensures x / d == q
  {
    var e := x / d - q;
    assert e * d == r - x % d;
  }

  /** A little-endian word. */
  function Little(d: seq<byte>): nat
    requires |d| == 4
  {
    d[0] as int + 0x100 * d[1] as int + 0x1_0000 * d[2] as int + 0x100_0000 * d[3] as int
  }

  lemma DirectoryEntry(mem: Memory, cr3: nat, vaddr: nat, d: seq<byte>)
    requires |d| == 4
    requires Read(mem, (cr3 + 4 * (vaddr / 0x40_0000)) % 0x1_0000_0000, 4) == Some(d)
    ensures Entry(mem, PdeAddr(cr3, vaddr)) == Some(Little(d))
  {
    hide Read;
    assert vaddr / 0x40_0000 * 4 == 4 * (vaddr / 0x40_0000);
  }

  /**
  With a directory entry that is for a page table, the translation takes the frame
  of the table entry and the low twelve bits of the address, if both entries are
  valid, and fails otherwise.
  */
  lemma SmallPage(mem: Memory, cr3: nat, vaddr: nat, d: seq<byte>, t: seq<byte>)
    requires |d| == |t| == 4
    requires Read(mem, (cr3 + 4 * (vaddr / 0x40_0000)) % 0x1_0000_0000, 4) == Some(d)
    requires Little(d) / 0x80 % 2 == 0
    requires Little(d) % 2 == 1 ==> Read(mem, Little(d) / 0x1000 * 0x1000 + 4 * (vaddr / 0x1000 % 0x400), 4) == Some(t)
    ensures TablesMapped(mem, cr3, vaddr)
    ensures Translate(mem, cr3, vaddr) ==
      if Little(d) % 2 == 1 && Little(t) % 2 == 1 then Some(Little(t) / 0x1000 * 0x1000 + vaddr % 0x1000) else None
  {
    hide Read, PdeAddr, PteAddr, LargeFrame, Little;
    DirectoryEntry(mem, cr3, vaddr, d);
    if Little(d) % 2 == 1 {
      TableEntry(mem, Little(d), vaddr, t);
    }
  }

  lemma TableEntry(mem: Memory, pde: nat, vaddr: nat, t: seq<byte>)
    requires |t| == 4 && Read(mem, pde / 0x1000 * 0x1000 + 4 * (vaddr / 0x1000 % 0x400), 4) == Some(t)
    ensures Entry(mem, PteAddr(pde, vaddr)) == Some(Little(t))
  {
    hide Read;
    assert PteAddr(pde, vaddr) == pde / 0x1000 * 0x1000 + 4 * (vaddr / 0x1000 % 0x400);
  }

  /**
  With a directory entry that is for a large page, whether it is valid or not, the
  top ten bits are those of the entry, the low twelve those of the address, and each
  of the ten bits between is set if it is in one of the two.
  */
  lemma LargePage(mem: Memory, cr3: nat, vaddr: nat, d: seq<byte>)
    requires |d| == 4
    requires Read(mem, (cr3 + 4 * (vaddr / 0x40_0000)) % 0x1_0000_0000, 4) == Some(d)
    requires Little(d) / 0x80 % 2 == 1
    ensures TablesMapped(mem, cr3, vaddr) && Translate(mem, cr3, vaddr).Some?
    ensures var p := Translate(mem, cr3, vaddr).value;
      && p / 0x40_0000 == Little(d) / 0x40_0000 && p % 0x1000 == vaddr % 0x1000
      && forall i: nat :: i < 10 ==>
           (p / 0x1000 % 0x400 / Pow2(i) % 2 == 1 <==>
             || Little(d) / 0x1000 % 0x400 / Pow2(i) % 2 == 1
             || vaddr / 0x1000 % 0x400 / Pow2(i) % 2 == 1)
  {
    hide Read, PdeAddr, Or, Pow2, Little;
    DirectoryEntry(mem, cr3, vaddr, d);
    LargeBits(Little(d), vaddr);
  }

  lemma LargeBits(pde: nat, vaddr: nat)
    ensures var p := InFrame(LargeFrame(pde, vaddr), vaddr);
      && p / 0x40_0000 == pde / 0x40_0000 && p % 0x1000 == vaddr % 0x1000
      && forall i: nat :: i < 10 ==>
           (p / 0x1000 % 0x400 / Pow2(i) % 2 == 1 <==>
             || pde / 0x1000 % 0x400 / Pow2(i) % 2 == 1
             || vaddr / 0x1000 % 0x400 / Pow2(i) % 2 == 1)
  {
    var mid := Or(FrameNumber(pde) % 0x400, vaddr / PAGE % 0x400, 10);
    TenBits();
    OrBound(FrameNumber(pde) % 0x400, vaddr / PAGE % 0x400, 10);
    hide Or, Pow2;
    FrameParts(FrameNumber(pde) / 0x400, mid, vaddr % 0x1000);
    SplitFrame(pde);
    forall i: nat | i < 10
      ensures mid / Pow2(i) % 2 == 1 <==>
        pde / 0x1000 % 0x400 / Pow2(i) % 2 == 1 || vaddr / 0x1000 % 0x400 / Pow2(i) % 2 == 1
    {
      OrBits(pde / 0x1000 % 0x400, vaddr / 0x1000 % 0x400, 10, i);
    }
  }

  lemma FrameParts(high: nat, mid: nat, low: nat)
    requires mid < 0x400 && low < 0x1000
    ensures var p := (high * 0x400 + mid) * 0x1000 + low;
      p / 0x40_0000 == high && p / 0x1000 % 0x400 == mid && p % 0x1000 == low
  {
    var p := (high * 0x400 + mid) * 0x1000 + low;
    assert p / 0x1000 == high * 0x400 + mid;
    SplitFrame(p);
  }

  /**
  A large page whose base is aligned to 4 MB, which is what the architecture's
  directory entry holds, translates to base + offset within the 4 MB.
  */
  lemma AlignedLargePage(mem: Memory, cr3: nat, vaddr: nat, d: seq<byte>)
    requires |d| == 4
    requires Read(mem, (cr3 + 4 * (vaddr / 0x40_0000)) % 0x1_0000_0000, 4) == Some(d)
    requires Little(d) / 0x80 % 2 == 1 && Little(d) / 0x1000 % 0x400 == 0
    ensures TablesMapped(mem, cr3, vaddr)
    ensures Translate(mem, cr3, vaddr) == Some(Little(d) / 0x40_0000 * 0x40_0000 + vaddr % 0x40_0000)
  {
    DirectoryEntry(mem, cr3, vaddr, d);
    var pde := Little(d);
    TenBits();
    OrZero(vaddr / PAGE % 0x400, 10, 0x400);
    SplitOffset(vaddr);
    SplitFrame(pde);
    hide Entry, Or, Little, PdeAddr;
  }

  lemma SplitOffset(vaddr: nat)
    ensures vaddr % 0x40_0000 == vaddr / PAGE % 0x400 * PAGE + vaddr % PAGE
  {
  }

  lemma SplitFrame(pde: nat)
    ensures pde / PAGE / 0x400 == pde / 0x40_0000
  {
  }

  lemma FrameInRange(frame: nat, vaddr: nat)
    requires frame < 0x10_0000
    ensures InFrame(frame, vaddr) < WORD
  {
  }

  lemma LargeFrameInRange(pde: nat, vaddr: nat)
    requires pde < WORD
    ensures LargeFrame(pde, vaddr) < 0x10_0000
  {
    TenBits();
    OrBound(FrameNumber(pde) % 0x400, vaddr / PAGE % 0x400, 10);
    hide Or;
    assert FrameNumber(pde) / 0x400 <= 0x3FF by { SplitFrame(pde); }
  }

  /** A translation is an address of the 32-bit physical space. */
  lemma TranslationInRange(mem: Memory, cr3: nat, vaddr: nat)
    requires TablesMapped(mem, cr3, vaddr) && Translate(mem, cr3, vaddr).Some?
    ensures Translate(mem, cr3, vaddr).value < WORD
  {
    hide InFrame, LargeFrame, IsLarge, IsValid, PdeAddr, PteAddr;
    var pde := Entry(mem, PdeAddr(cr3, vaddr)).value;
    if IsLarge(pde) {
      LargeFrameInRange(pde, vaddr);
      FrameInRange(LargeFrame(pde, vaddr), vaddr);
    } else {
      FrameInRange(FrameNumber(Entry(mem, PteAddr(pde, vaddr)).value), vaddr);
    }
  }

  // ----- Linearity within a page -----

  lemma SamePageSameTables(cr3: nat, u: nat, v: nat)
    requires u / PAGE == v / PAGE
    ensures PdeAddr(cr3, u) == PdeAddr(cr3, v)
    ensures forall pde :: PteAddr(pde, u) == PteAddr(pde, v)
  {
    SplitFrame(u);
    SplitFrame(v);
  }

  /** Addresses of one 4 KB page are translated through the same entries, by the same displacement. */
  lemma TranslateWithinPage(mem: Memory, cr3: nat, u: nat, v: nat)
    requires u / PAGE == v / PAGE
    ensures TablesMapped(mem, cr3, u) == TablesMapped(mem, cr3, v)
    ensures TablesMapped(mem, cr3, u) ==>
              var a := Translate(mem, cr3, u);
              var b := Translate(mem, cr3, v);
              && a.Some? == b.Some?
              && (a.Some? ==> b.value - a.value == v - u)
  {
    SamePageSameTables(cr3, u, v);
    hide Entry, Or, PdeAddr, PteAddr;
  }

  // ----- Bytes of virtual memory -----

  function VByte(mem: Memory, cr3: nat, vaddr: nat): Option<byte>
    requires TablesMapped(mem, cr3, vaddr)
  {
    var p := Translate(mem, cr3, vaddr);
    if p.None? then None else ByteAt(mem, p.value)
  }

  /** The k-th address from vaddr on, around the end of the address space. */
  function Nth(vaddr: nat, k: nat): (r: nat)
    ensures r < WORD
  {
    (vaddr + k) % WORD
  }

  predicate RangeMapped(mem: Memory, cr3: nat, vaddr: nat, size: nat) {
    forall k :: 0 <= k < size ==> TablesMapped(mem, cr3, Nth(vaddr, k))
  }

  /** Every byte of the range translates to a mapped physical byte. */
  predicate Backed(mem: Memory, cr3: nat, vaddr: nat, size: nat)
    requires RangeMapped(mem, cr3, vaddr, size)
  {
    forall k :: 0 <= k < size ==> VByte(mem, cr3, Nth(vaddr, k)).Some?
  }

  function Phys(mem: Memory, cr3: nat, vaddr: nat, k: nat): nat
    requires TablesMapped(mem, cr3, Nth(vaddr, k)) && Translate(mem, cr3, Nth(vaddr, k)).Some?
  {
    Translate(mem, cr3, Nth(vaddr, k)).value
  }

  /** `data` written byte by byte at vaddr, through the translations that hold at the start. */
  function VWrite(mem: Memory, cr3: nat, vaddr: nat, data: seq<byte>): (m: Memory)
    requires RangeMapped(mem, cr3, vaddr, |data|) && Backed(mem, cr3, vaddr, |data|)
    ensures SameShape(mem, m)
  {
    if data == [] then mem
    else
      var last := |data| - 1;
      var m := VWrite(mem, cr3, vaddr, data[..last]);
      var p := Phys(mem, cr3, vaddr, last);
      assert VByte(mem, cr3, Nth(vaddr, last)).Some?;
      SameFind(mem, m, p, 1, 0);
      StoreChangesOneByte(m, p, data[last], p, 1);
      Store(m, p, data[last])
  }

  // ----- Pieces of one page -----

  /** The piece [pos, pos + size) of a range at vaddr stays within one page. */
  predicate WithinPage(vaddr: nat, pos: nat, size: nat) {
    Nth(vaddr, pos) % PAGE + size <= PAGE
  }

  lemma NthWithinPage(vaddr: nat, pos: nat, size: nat, k: nat)
    requires WithinPage(vaddr, pos, size) && k < size
    ensures Nth(vaddr, pos + k) == Nth(vaddr, pos) + k
    ensures Nth(vaddr, pos + k) / PAGE == Nth(vaddr, pos) / PAGE
  {
    var u := Nth(vaddr, pos);
    var page := u / PAGE;
    assert u == page * PAGE + u % PAGE && page < 0x10_0000;
    assert u + k < WORD;
    WrapNth(vaddr, pos, k);
  }

  lemma WrapNth(vaddr: nat, pos: nat, k: nat)
    requires Nth(vaddr, pos) + k < WORD
    ensures Nth(vaddr, pos + k) == Nth(vaddr, pos) + k
  {
    var q := (vaddr + pos) / WORD;
    assert vaddr + pos == q * WORD + Nth(vaddr, pos);
    assert vaddr + (pos + k) == q * WORD + (Nth(vaddr, pos) + k);
  }

  /** One translation and one physical read give the same bytes as reading the piece byte by byte. */
  lemma ReadPiece(mem: Memory, cr3: nat, vaddr: nat, pos: nat, size: nat, k: nat)
    requires PageAligned(mem) && WithinPage(vaddr, pos, size) && k < size
    requires TablesMapped(mem, cr3, Nth(vaddr, pos))
    ensures TablesMapped(mem, cr3, Nth(vaddr, pos + k))
    ensures var p := Translate(mem, cr3, Nth(vaddr, pos));
            VByte(mem, cr3, Nth(vaddr, pos + k)) ==
              if p.None? || Read(mem, p.value, size).None? then None
              else Some(Read(mem, p.value, size).value[k])
  {
    hide Translate, TablesMapped, Read, Nth, Find;
    NthWithinPage(vaddr, pos, size, k);
    TranslateWithinPage(mem, cr3, Nth(vaddr, pos), Nth(vaddr, pos + k));
    var p := Translate(mem, cr3, Nth(vaddr, pos));
    if p.Some? {
      ReadWithinPage(mem, p.value, size, k);
    }
  }
}
