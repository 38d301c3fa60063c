/**
The memory, stack and interrupt-queue part of the Cpu class (cpu.cpp). The
registers CR3 and ESP, which the virtual RegRead and RegWrite reach in the
original, are fields here.
*/
module CpuDevice {
  import opened Bytes
  import opened PhysMem
  import opened Paging
  import opened PagedWrite
  import opened CpuStack
  import opened InterruptQueue

  /** An element of m_physMemMap; the range ends at startingAddress + data.Length - 1. */
  datatype PhysicalMemoryRange = PhysicalMemoryRange(data: array<byte>, startingAddress: nat)

  class Cpu {
    var physMemMap: seq<PhysicalMemoryRange>
    var cr3: word
    var esp: word

    const rates: Rates
    var pendingInterrupts: seq<byte>
    var interruptHandlerCredits: byte
    /** The calls made on the processor implementation: InjectInterrupt and RequestInterruptWindow. */
    ghost var injected: seq<byte>
    ghost var windows: nat

    ghost function Arrays(): set<object>
      reads this
    {
      set r | r in physMemMap :: r.data as object
    }

    /** Ranges lie in the 32-bit physical space and have their own host memory. */
    ghost predicate Valid()
      reads this
    {
      && (forall i :: 0 <= i < |physMemMap| ==>
            physMemMap[i].startingAddress + physMemMap[i].data.Length <= WORD)
      && (forall i, j :: 0 <= i < j < |physMemMap| ==> physMemMap[i].data != physMemMap[j].data)
    }

    ghost function Mem(): (m: Memory)
      reads this, Arrays()
      ensures |m| == |physMemMap|
      ensures forall i :: 0 <= i < |m| ==>
                m[i] == Region(physMemMap[i].startingAddress, physMemMap[i].data[..])
    {
      seq(|physMemMap|, i requires 0 <= i < |physMemMap| reads this, Arrays() =>
        Region(physMemMap[i].startingAddress, physMemMap[i].data[..]))
    }

    ghost function PendingQueue(): Queue
      reads this
    {
      Queue(pendingInterrupts, interruptHandlerCredits, injected, windows)
    }

    /** The constructor and Initialize: nothing mapped, nothing pending, full credit. */
    constructor (rates: Rates)
      ensures Valid() && physMemMap == []
      ensures this.rates == rates && PendingQueue() == Queue([], rates.max, [], 0)
    {
      this.rates := rates;
      physMemMap := [];
      pendingInterrupts, interruptHandlerCredits := [], rates.max;
      injected, windows := [], 0;
    }

    method Interrupt(vector: byte)
      modifies this`pendingInterrupts
      ensures PendingQueue() == Enqueue(old(PendingQueue()), vector)
    {
      pendingInterrupts := pendingInterrupts + [vector];
    }

    /** `canInject` is the answer of CanInjectInterrupt. */
    method HandleInterruptQueue(canInject: bool)
      modifies this`pendingInterrupts, this`interruptHandlerCredits, this`injected, this`windows
      ensures PendingQueue() == Handle(rates, old(PendingQueue()), canInject)
    {
      if interruptHandlerCredits < rates.max {
        interruptHandlerCredits := (interruptHandlerCredits as int + rates.inc as int) % 256;
      }
      if |pendingInterrupts| > 0 {
        if canInject {
          InjectPendingInterrupt();
        } else {
          windows := windows + 1;
        }
      }
    }

    method InjectPendingInterrupt()
      modifies this`pendingInterrupts, this`interruptHandlerCredits, this`injected
      ensures PendingQueue() == Inject(rates, old(PendingQueue()))
    {
      if interruptHandlerCredits < rates.cost || |pendingInterrupts| == 0 {
        return;
      }
      interruptHandlerCredits := interruptHandlerCredits - rates.cost;
      var vector := pendingInterrupts[0];
      pendingInterrupts := pendingInterrupts[1..];
      injected := injected + [vector];
    }

    /** The part of MemMap that records a RAM or ROM subregion. */
    method AddRange(data: array<byte>, start: nat)
      requires Valid() && start + data.Length <= WORD
      requires forall r :: r in physMemMap ==> r.data != data
      modifies this`physMemMap
      ensures Valid()
      ensures Mem() == old(Mem()) + [Region(start, data[..])]
    {
      physMemMap := physMemMap + [PhysicalMemoryRange(data, start)];
    }

    /** Copies to value[at..at + size] from the first range that holds all of the bytes. */
    method MemRead(addr: nat, size: nat, value: array<byte>, at: nat) returns (ok: bool)
      requires Valid() && addr + size <= WORD && at + size <= value.Length
      requires value as object !in Arrays()
      modifies value
      ensures ok == Read(Mem(), addr, size).Some?
      ensures ok ==> value[at..at + size] == Read(Mem(), addr, size).value
      ensures !ok ==> value[..] == old(value[..])
      ensures value[..at] == old(value[..at]) && value[at + size..] == old(value[at + size..])
    {
      var i := 0;
      while i < |physMemMap|
        invariant i <= |physMemMap|
        invariant Find(Mem(), addr, size, i) == Find(Mem(), addr, size, 0)
        invariant value[..] == old(value[..])
      {
        var r := physMemMap[i];
        if addr >= r.startingAddress && addr + size <= r.startingAddress + r.data.Length {
          assert Holds(Mem()[i], addr, size);
          ghost var mem := Mem();
          var offset := addr - r.startingAddress;
          assert r.data as object in Arrays();
          forall k | 0 <= k < size {
            value[at + k] := r.data[offset + k];
          }
          assert Mem() == mem;
          return true;
        }
        i := i + 1;
      }
      return false;
    }

    method MemWrite(addr: nat, value: seq<byte>) returns (ok: bool)
      requires Valid() && addr + |value| <= WORD
      modifies Arrays()
      ensures Arrays() == old(Arrays()) && Valid()
      ensures ok == Write(old(Mem()), addr, value).Some?
      ensures Mem() == if ok then Write(old(Mem()), addr, value).value else old(Mem())
    {
      var i := 0;
      while i < |physMemMap|
        invariant i <= |physMemMap|
        invariant Find(Mem(), addr, |value|, i) == Find(Mem(), addr, |value|, 0)
        invariant Mem() == old(Mem())
      {
        var r := physMemMap[i];
        if addr >= r.startingAddress && addr + |value| <= r.startingAddress + r.data.Length {
          assert Holds(Mem()[i], addr, |value|);
          ghost var mem := Mem();
          var offset := addr - r.startingAddress;
          assert r.data as object in Arrays();
          forall k | 0 <= k < |value| {
            r.data[offset + k] := value[k];
          }
          assert r.data[..] == Patch(mem[i], offset, value).bytes;
          forall j | 0 <= j < |physMemMap|
            ensures Mem()[j] == WriteAt(mem, i, addr, value)[j]
          {
            if j != i {
              assert physMemMap[j].data != r.data;
              assert physMemMap[j].data[..] == mem[j].bytes;
            }
          }
          return true;
        }
        i := i + 1;
      }
      return false;
    }

    /** Reads a page-table entry from memory that is mapped. */
    method ReadEntry(addr: nat) returns (pte: nat)
      requires Valid() && Entry(Mem(), addr).Some?
      ensures pte == Entry(Mem(), addr).value
    {
      EntryInRange(Mem(), addr);
      assert addr + 4 <= WORD;
      var buf := new byte[4];
      var ok := MemRead(addr, 4, buf, 0);
      assert buf[..] == buf[0..4];
      pte := WordOf(buf[..]);
    }

    method VirtualToPhysical(vaddr: word) returns (ok: bool, paddr: nat)
      requires Valid() && TablesMapped(Mem(), cr3, vaddr)
      ensures ok == Translate(Mem(), cr3, vaddr).Some?
      ensures ok ==> paddr == Translate(Mem(), cr3, vaddr).value
    {
      hide InFrame, LargeFrame, IsLarge, IsValid, Entry;
      var pdeOffset := vaddr / 0x40_0000 * 4;
      ghost var mem := Mem();
      var pde := ReadEntry((cr3 + pdeOffset) % WORD);
      assert Mem() == mem;
      if IsLarge(pde) {
        return true, InFrame(LargeFrame(pde, vaddr), vaddr);
      }
      if !IsValid(pde) {
        return false, 0;
      }
      var pteTableAddr := FrameNumber(pde) * PAGE;
      var pteOffset := vaddr / PAGE % 0x400 * 4;
      var pte := ReadEntry(pteTableAddr + pteOffset);
      assert Mem() == mem;
      if !IsValid(pte) {
        return false, 0;
      }
      return true, InFrame(FrameNumber(pte), vaddr);
    }

    /** One round of VMemRead's loop: translates the address of a piece within one page and copies the piece. */
    method ReadChunk(vaddr: word, ghost size: word, pos: nat, copySize: nat, value: array<byte>) returns (ok: bool)
      requires Valid() && PageAligned(Mem()) && RangeMapped(Mem(), cr3, vaddr, size)
      requires 0 < copySize && pos + copySize <= size <= value.Length && WithinPage(vaddr, pos, copySize)
      requires value as object !in Arrays() && Backed(Mem(), cr3, vaddr, pos)
      modifies value
      ensures Mem() == old(Mem())
      ensures value[..pos] == old(value[..pos]) && value[pos + copySize..] == old(value[pos + copySize..])
      ensures ok ==> Backed(Mem(), cr3, vaddr, pos + copySize)
      ensures ok ==> forall k :: pos <= k < pos + copySize ==> VByte(Mem(), cr3, Nth(vaddr, k)) == Some(value[k])
      ensures !ok ==> VByte(Mem(), cr3, Nth(vaddr, pos)).None? && value[..] == old(value[..])
    {
      hide TablesMapped, Translate, Nth, VByte, Read;
      ghost var mem := Mem();
      PieceBacked(mem, cr3, vaddr, pos, copySize, size);
      var physAddr;
      ok, physAddr := VirtualToPhysical(Nth(vaddr, pos));
      if !ok {
        return;
      }
      PieceInRange(mem, cr3, Nth(vaddr, pos), copySize);
      ok := MemRead(physAddr, copySize, value, pos);
      if ok {
        PieceReads(mem, cr3, vaddr, pos, copySize, value[pos..pos + copySize]);
        assert forall k :: pos <= k < pos + copySize ==> value[k] == value[pos..pos + copySize][k - pos];
      }
    }

    /**
    Reads virtual memory page by page. It succeeds exactly when every byte of the
    range translates to a mapped byte, and then value[k] is the byte at the k-th
    address's own translation. On failure the bytes before some page boundary
    were copied.
    */
    method VMemRead(vaddr: word, size: word, value: array<byte>)
      returns (ok: bool, bytesRead: nat, ghost done: nat)
      requires Valid() && PageAligned(Mem())
      requires RangeMapped(Mem(), cr3, vaddr, size)
      requires size <= value.Length && value as object !in Arrays()
      modifies value
      ensures Mem() == old(Mem())
      ensures ok <==> Backed(Mem(), cr3, vaddr, size)
      ensures ok ==> bytesRead == done == size
      ensures done <= size && Backed(Mem(), cr3, vaddr, done)
      ensures forall k :: 0 <= k < done ==> VByte(Mem(), cr3, Nth(vaddr, k)) == Some(value[k])
      ensures value[done..] == old(value[done..])
      ensures !ok ==> done < size && VByte(Mem(), cr3, Nth(vaddr, done)).None?
                      && (done == 0 || Nth(vaddr, done) % PAGE == 0)
    {
      hide TablesMapped, Translate, Nth, VByte, Read, PageEnd;
      ghost var mem := Mem();
      var srcAddrStart: word := vaddr;
      var srcAddrEnd := ((srcAddrStart + PAGE) % WORD / PAGE * PAGE + (WORD - 1)) % WORD;
      var pos := 0;
      FirstPage(vaddr);
      NthZero(vaddr);
      var copySize := (srcAddrEnd + WORD - srcAddrStart + 1) % WORD;
      if size < copySize {
        copySize := size;
      }
      while pos < size
        invariant 0 <= pos <= size
        invariant srcAddrEnd == PageEnd(srcAddrStart)
        invariant pos < size ==> srcAddrStart == Nth(vaddr, pos) && 0 < copySize
                                 && (pos == 0 || srcAddrStart % PAGE == 0)
        invariant copySize == Min(size - pos, PAGE - srcAddrStart % PAGE)
        invariant Mem() == mem
        invariant Backed(mem, cr3, vaddr, pos)
        invariant forall k :: 0 <= k < pos ==> VByte(mem, cr3, Nth(vaddr, k)) == Some(value[k])
        invariant value[pos..] == old(value[pos..])
      {
        var result := ReadChunk(vaddr, size, pos, copySize, value);
        if !result {
          return false, 0, pos;
        }
        assert forall k :: 0 <= k < pos ==> value[k] == value[..pos][k];
        NextPage(vaddr, pos, srcAddrStart);
        pos := pos + copySize;
        srcAddrStart := (srcAddrEnd + 1) % WORD;
        srcAddrEnd := (srcAddrEnd + PAGE) % WORD;
        copySize := size - pos;
        if PAGE < copySize {
          copySize := PAGE;
        }
      }
      return true, pos, pos;
    }

    /** One round of VMemWrite's loop: translates the address of a piece within one page and copies the piece there. */
    method WriteChunk(ghost mem: Memory, vaddr: word, value: seq<byte>, pos: nat, copySize: nat) returns (ok: bool)
      requires Valid() && PageAligned(mem)
      requires RangeMapped(mem, cr3, vaddr, |value|) && ClearOfTables(mem, cr3, vaddr, |value|)
      requires 0 < copySize && pos + copySize <= |value| && WithinPage(vaddr, pos, copySize)
      requires Backed(mem, cr3, vaddr, pos) && Mem() == VWrite(mem, cr3, vaddr, value[..pos])
      modifies Arrays()
      ensures Valid() && Arrays() == old(Arrays())
      ensures ok ==> Backed(mem, cr3, vaddr, pos + copySize)
                     && Mem() == VWrite(mem, cr3, vaddr, value[..pos + copySize])
      ensures !ok ==> Mem() == old(Mem()) && VByte(mem, cr3, Nth(vaddr, pos)).None?
    {
      hide TablesMapped, Translate, Nth, VByte, Read, Write, VWrite, Touches, ClearOfTables;
      TranslationSurvives(mem, cr3, vaddr, value, pos);
      WritePiece(mem, cr3, vaddr, value, pos, copySize);
      var physAddr;
      ok, physAddr := VirtualToPhysical(Nth(vaddr, pos));
      if !ok {
        return;
      }
      PieceInRange(mem, cr3, Nth(vaddr, pos), copySize);
      ok := MemWrite(physAddr, value[pos..pos + copySize]);
    }

    /**
    Writes virtual memory page by page. For a range that misses the paging
    structures it succeeds exactly when every byte of the range translates to a
    mapped byte. The memory is then what writing byte by byte gives; on failure,
    what writing the bytes before some page boundary gives.
    */
    method VMemWrite(vaddr: word, value: seq<byte>)
      returns (ok: bool, bytesWritten: nat, ghost done: nat)
      requires Valid() && PageAligned(Mem()) && |value| < WORD
      requires RangeMapped(Mem(), cr3, vaddr, |value|)
      requires ClearOfTables(Mem(), cr3, vaddr, |value|)
      modifies Arrays()
      ensures Valid() && Arrays() == old(Arrays())
      ensures ok <==> old(Backed(Mem(), cr3, vaddr, |value|))
      ensures ok ==> bytesWritten == done == |value|
      ensures done <= |value| && old(Backed(Mem(), cr3, vaddr, done))
      ensures Mem() == old(VWrite(Mem(), cr3, vaddr, value[..done]))
      ensures !ok ==> done < |value| && old(VByte(Mem(), cr3, Nth(vaddr, done))).None?
                      && (done == 0 || Nth(vaddr, done) % PAGE == 0)
    {
      hide TablesMapped, Translate, Nth, VByte, Read, Write, VWrite, Touches, PageEnd, ClearOfTables;
      ghost var mem := Mem();
      var size := |value|;
      var srcAddrStart: word := vaddr;
      var srcAddrEnd := ((srcAddrStart + PAGE) % WORD / PAGE * PAGE + (WORD - 1)) % WORD;
      var pos := 0;
      FirstPage(vaddr);
      NthZero(vaddr);
      NothingWritten(mem, cr3, vaddr, value);
      var copySize := (srcAddrEnd + WORD - srcAddrStart + 1) % WORD;
      if size < copySize {
        copySize := size;
      }
      while pos < size
        invariant 0 <= pos <= size
        invariant srcAddrEnd == PageEnd(srcAddrStart)
        invariant pos < size ==> srcAddrStart == Nth(vaddr, pos) && 0 < copySize
                                 && (pos == 0 || srcAddrStart % PAGE == 0)
        invariant copySize == Min(size - pos, PAGE - srcAddrStart % PAGE)
        invariant Valid() && Arrays() == old(Arrays())
        invariant Backed(mem, cr3, vaddr, pos)
        invariant Mem() == VWrite(mem, cr3, vaddr, value[..pos])
      {
        var result := WriteChunk(mem, vaddr, value, pos, copySize);
        if !result {
          return false, 0, pos;
        }
        NextPage(vaddr, pos, srcAddrStart);
        pos := pos + copySize;
        srcAddrStart := (srcAddrEnd + 1) % WORD;
        srcAddrEnd := (srcAddrEnd + PAGE) % WORD;
        copySize := size - pos;
        if PAGE < copySize {
          copySize := PAGE;
        }
      }
      assert value[..pos] == value;
      return true, pos, pos;
    }

    /** A failing Push leaves ESP as it was. */
    method Push(value: word) returns (ok: bool)
      requires Valid() && PageAligned(Mem())
      requires RangeMapped(Mem(), cr3, Below(esp), 4) && ClearOfTables(Mem(), cr3, Below(esp), 4)
      modifies this`esp, Arrays()
      ensures Valid() && Arrays() == old(Arrays())
      ensures ok <==> old(Backed(Mem(), cr3, Below(esp), 4))
      ensures ok ==> Core(Mem(), cr3, esp) == old(Pushed(Core(Mem(), cr3, esp), value))
      ensures !ok ==> esp == old(esp)
    {
      hide TablesMapped, Nth, VByte, BytesOf, VWrite, ClearOfTables;
      ghost var done;
      var bytesWritten;
      var newEsp := Below(esp);
      ok, bytesWritten, done := VMemWrite(newEsp, BytesOf(value));
      if !ok {
        return;
      }
      assert BytesOf(value)[..4] == BytesOf(value);
      esp := newEsp;
    }

    /** A failing Pop leaves ESP as it was. */
    method Pop() returns (ok: bool, value: word)
      requires Valid() && PageAligned(Mem()) && RangeMapped(Mem(), cr3, esp, 4)
      modifies this`esp
      ensures Mem() == old(Mem())
      ensures ok <==> old(Backed(Mem(), cr3, esp, 4))
      ensures ok ==> value == old(Top(Core(Mem(), cr3, esp))) && esp == Above(old(esp))
      ensures !ok ==> esp == old(esp)
    {
      hide TablesMapped, Nth, VByte, WordOf;
      value := 0;
      ghost var c := Core(Mem(), cr3, esp);
      var buf := new byte[4];
      assert Mem() == c.mem;
      ghost var done;
      var bytesRead;
      ok, bytesRead, done := VMemRead(esp, 4, buf);
      if !ok {
        return;
      }
      assert buf[..] == seq(4, k requires 0 <= k < 4 => VByte(c.mem, c.cr3, Nth(c.esp, k)).value);
      value := WordOf(buf[..]);
      esp := (esp + 4) % WORD;
    }
  }

  function Min(a: int, b: int): int {
    if a < b then a else b
  }

  /** The last address of the page of an address. */
  function PageEnd(a: nat): nat {
    a / PAGE * PAGE + (PAGE - 1)
  }

  lemma FirstPage(v: word)
    ensures ((v + PAGE) % WORD / PAGE * PAGE + (WORD - 1)) % WORD == PageEnd(v)
    ensures (PageEnd(v) + WORD - v + 1) % WORD == PAGE - v % PAGE
  {
  }

  /** Going on at the next page continues the range. */
  lemma NextPage(vaddr: word, pos: nat, start: word)
    requires start == Nth(vaddr, pos)
    ensures var next := (PageEnd(start) + 1) % WORD;
            && next == Nth(vaddr, pos + (PAGE - start % PAGE))
            && next % PAGE == 0
            && PageEnd(next) == (PageEnd(start) + PAGE) % WORD
  {
    var rest := PAGE - start % PAGE;
    NextPageStart(start);
    NthNth(vaddr, pos, rest);
    hide Nth;
    assert Nth(start, rest) == (start + rest) % WORD by { NthIs(start, rest); }
  }

  lemma NthZero(v: word)
    ensures Nth(v, 0) == v
  {
  }

  lemma NthIs(v: nat, k: nat)
    ensures Nth(v, k) == (v + k) % WORD
  {
  }

  lemma NextPageStart(start: word)
    ensures PageEnd(start) + 1 == start + (PAGE - start % PAGE)
    ensures (PageEnd(start) + 1) % WORD % PAGE == 0
    ensures PageEnd((PageEnd(start) + 1) % WORD) == (PageEnd(start) + PAGE) % WORD
  {
    var page := start / PAGE;
    assert start == page * PAGE + start % PAGE && page < 0x10_0000;
    if page == 0xF_FFFF {
      assert PageEnd(start) + 1 == WORD;
    } else {
      assert (page + 1) * PAGE < WORD;
    }
  }

  lemma PieceReads(mem: Memory, cr3: nat, vaddr: nat, pos: nat, size: nat, data: seq<byte>)
    requires PageAligned(mem) && WithinPage(vaddr, pos, size) && |data| == size
    requires TablesMapped(mem, cr3, Nth(vaddr, pos)) && RangeMapped(mem, cr3, vaddr, pos + size)
    requires var p := Translate(mem, cr3, Nth(vaddr, pos));
             p.Some? && Read(mem, p.value, size) == Some(data)
    ensures forall k :: pos <= k < pos + size ==> VByte(mem, cr3, Nth(vaddr, k)) == Some(data[k - pos])
  {
    hide TablesMapped, Translate, Nth, VByte, Read;
    forall k | pos <= k < pos + size
      ensures VByte(mem, cr3, Nth(vaddr, k)) == Some(data[k - pos])
    {
      ReadPiece(mem, cr3, vaddr, pos, size, k - pos);
    }
  }

  lemma NothingWritten(mem: Memory, cr3: nat, vaddr: nat, data: seq<byte>)
    requires RangeMapped(mem, cr3, vaddr, 0) && Backed(mem, cr3, vaddr, 0)
    ensures VWrite(mem, cr3, vaddr, data[..0]) == mem
  {
  }

  /** The bytes already written have not changed the translation of the next piece. */
  lemma TranslationSurvives(mem: Memory, cr3: nat, vaddr: nat, data: seq<byte>, pos: nat)
    requires pos < |data| && RangeMapped(mem, cr3, vaddr, |data|) && ClearOfTables(mem, cr3, vaddr, |data|)
    requires Backed(mem, cr3, vaddr, pos)
    ensures var m := VWrite(mem, cr3, vaddr, data[..pos]);
            && SameShape(mem, m)
            && TablesMapped(m, cr3, Nth(vaddr, pos))
            && Translate(m, cr3, Nth(vaddr, pos)) == Translate(mem, cr3, Nth(vaddr, pos))
  {
    hide TablesMapped, Translate, Nth, VByte, VWrite, Touches;
    assert ClearOf(mem, cr3, vaddr, |data|, Nth(vaddr, pos));
    VWriteKeepsTranslation(mem, cr3, vaddr, data[..pos], Nth(vaddr, pos));
  }

  lemma EntryInRange(mem: Memory, addr: nat)
    requires forall r :: r in mem ==> r.start + |r.bytes| <= WORD
    requires Entry(mem, addr).Some?
    ensures addr + 4 <= WORD
  {
    assert mem[Find(mem, addr, 4, 0)] in mem;
  }

  lemma PieceInRange(mem: Memory, cr3: nat, vaddr: word, size: nat)
    requires TablesMapped(mem, cr3, vaddr) && Translate(mem, cr3, vaddr).Some?
    requires vaddr % PAGE + size <= PAGE
    ensures Translate(mem, cr3, vaddr).value + size <= WORD
  {
    TranslationInRange(mem, cr3, vaddr);
    hide Translate, TablesMapped;
    EndOfPage(Translate(mem, cr3, vaddr).value, size);
  }

  lemma EndOfPage(p: word, size: nat)
    requires p % PAGE + size <= PAGE
    ensures p + size <= WORD
  {
    assert p == p / PAGE * PAGE + p % PAGE && p / PAGE < 0x10_0000;
  }
}
