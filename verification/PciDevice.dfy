/** The PCIDevice class (pci.cpp), over its byte arrays. */
module PciDevice {
  import opened PciConfig
  import PciBars

  method Write16(buf: array<bv8>, reg: nat, value: bv16)
    requires reg + 1 < buf.Length
    modifies buf
    ensures buf[reg] == LowHalf(value) && buf[reg + 1] == HighHalf(value)
    ensures forall k :: 0 <= k < buf.Length && k != reg && k != reg + 1 ==> buf[k] == old(buf[k])
  {
    buf[reg] := LowHalf(value);
    buf[reg + 1] := HighHalf(value);
  }

  method TestAndSet16(buf: array<bv8>, reg: nat, mask: bv16)
    requires reg + 1 < buf.Length
    modifies buf
    ensures buf[reg] == old(buf[reg]) | LowHalf(mask) && buf[reg + 1] == old(buf[reg + 1]) | HighHalf(mask)
    ensures forall k :: 0 <= k < buf.Length && k != reg && k != reg + 1 ==> buf[k] == old(buf[k])
  {
    buf[reg] := buf[reg] | LowHalf(mask);
    buf[reg + 1] := buf[reg + 1] | HighHalf(mask);
  }

  /** memset. */
  method Fill(buf: array<bv8>, from: nat, n: nat, value: bv8)
    requires from + n <= buf.Length
    modifies buf
    ensures forall k :: 0 <= k < buf.Length ==> buf[k] == if from <= k < from + n then value else old(buf[k])
  {
    for i := 0 to n
      invariant forall k :: 0 <= k < buf.Length ==> buf[k] == if from <= k < from + i then value else old(buf[k])
    {
      buf[from + i] := value;
    }
  }

  method Write32(buf: array<bv8>, reg: nat, value: bv32)
    requires reg + 4 <= buf.Length
    modifies buf
    ensures buf[..] == PutWord(old(buf[..]), reg, value)
  {
    hide ByteOf;
    buf[reg] := ByteOf(value, 0);
    buf[reg + 1] := ByteOf(value, 1);
    buf[reg + 2] := ByteOf(value, 2);
    buf[reg + 3] := ByteOf(value, 3);
  }

  method Read32(buf: array<bv8>, reg: nat) returns (w: bv32)
    requires reg + 4 <= buf.Length
    ensures w == Word(buf[..], reg)
  {
    w := Assemble(buf[reg], buf[reg + 1], buf[reg + 2], buf[reg + 3]);
  }

  class PCIDevice {
    const configSpace: array<bv8>
    const writeMask: array<bv8>
    const write1ToClearMask: array<bv8>
    const barSizes: array<bv32>

    ghost predicate Separate() {
      && configSpace.Length == writeMask.Length == write1ToClearMask.Length == SPACE_SIZE && barSizes.Length == MAX_BARS
      && configSpace != writeMask && configSpace != write1ToClearMask && writeMask != write1ToClearMask
    }

    ghost function St(): Pci
      reads configSpace, writeMask, write1ToClearMask, barSizes
    {
      Pci(configSpace[..], writeMask[..], write1ToClearMask[..], barSizes[..])
    }

    ghost predicate Ok()
      reads configSpace, writeMask, write1ToClearMask, barSizes
    {
      Separate() && Valid(St())
    }

    constructor (id: Identity)
      ensures Ok() && St() == Constructed(id)
      ensures fresh(configSpace) && fresh(writeMask) && fresh(write1ToClearMask) && fresh(barSizes)
    {
      configSpace := new bv8[SPACE_SIZE](_ => 0);
      writeMask := new bv8[SPACE_SIZE](_ => 0);
      write1ToClearMask := new bv8[SPACE_SIZE](_ => 0);
      barSizes := new bv32[MAX_BARS](_ => 0);
      new;
      SetIdentity(configSpace, id);
      SetWriteMask(writeMask, id.headerType);
      SetClearMask(write1ToClearMask, id.headerType);
      assert configSpace[..] == Constructed(id).space;
      assert writeMask[..] == Constructed(id).writeMask;
      assert write1ToClearMask[..] == Constructed(id).w1c;
      assert barSizes[..] == Constructed(id).barSizes;
    }

    static method SetIdentity(space: array<bv8>, id: Identity)
      requires space.Length == SPACE_SIZE && forall k :: 0 <= k < SPACE_SIZE ==> space[k] == 0
      modifies space
      ensures forall k :: 0 <= k < SPACE_SIZE ==> space[k] == InitialByte(id, k)
    {
      hide NumberByte, BridgeByte;
      SetNumbers(space, id);
      if id.headerType == TYPE_BRIDGE {
        SetBridge(space, id);
      }
    }

    static method SetNumbers(space: array<bv8>, id: Identity)
      requires space.Length == SPACE_SIZE && forall k :: 0 <= k < SPACE_SIZE ==> space[k] == 0
      modifies space
      ensures forall k :: 0 <= k < SPACE_SIZE ==> space[k] == if k < 0x10 then NumberByte(id, k) else 0
    {
      hide LowHalf, HighHalf;
      space[HEADER_TYPE] := id.headerType;
      SetIds(space, id);
      SetClass(space, id);
    }

    static method SetIds(space: array<bv8>, id: Identity)
      requires space.Length == SPACE_SIZE
      modifies space
      ensures space[0] == LowHalf(id.vendor) && space[1] == HighHalf(id.vendor)
      ensures space[2] == LowHalf(id.device) && space[3] == HighHalf(id.device)
      ensures forall k :: 4 <= k < SPACE_SIZE ==> space[k] == old(space[k])
    {
      hide LowHalf, HighHalf;
      Write16(space, 0x00, id.vendor);
      Write16(space, 0x02, id.device);
    }

    static method SetClass(space: array<bv8>, id: Identity)
      requires space.Length == SPACE_SIZE
      modifies space
      ensures space[8] == id.revision && space[9] == id.progIf && space[10] == id.class_ && space[11] == id.subclass
      ensures forall k :: 0 <= k < SPACE_SIZE && !(8 <= k < 12) ==> space[k] == old(space[k])
    {
      space[8] := id.revision;
      space[10] := id.class_;
      space[11] := id.subclass;
      space[9] := id.progIf;
    }

    static method SetBridge(space: array<bv8>, id: Identity)
      requires space.Length == SPACE_SIZE && forall k :: 0x10 <= k < SPACE_SIZE ==> space[k] == 0
      modifies space
      ensures forall k :: 0 <= k < SPACE_SIZE ==> space[k] == if k < 0x10 then old(space[k]) else BridgeByte(id, k)
    {
      hide LowHalf, HighHalf;
      Write16(space, 0x2C, id.subsystemVendor);
      Write16(space, 0x2E, id.subsystem);
      SetPrefetchType(space);
    }

    /** The memory ranges of a bridge are 64-bit ones. */
    static method SetPrefetchType(space: array<bv8>)
      requires space.Length == SPACE_SIZE && (forall k :: 0x24 <= k < 0x28 ==> space[k] == 0)
      modifies space
      ensures forall k :: 0 <= k < SPACE_SIZE ==> space[k] == if k == 0x24 || k == 0x26 then 1 else old(space[k])
    {
      TestAndSet16(space, 0x24, 0x01);
      TestAndSet16(space, 0x26, 0x01);
    }

    static method SetWriteMask(mask: array<bv8>, headerType: bv8)
      requires mask.Length == SPACE_SIZE && forall k :: 0 <= k < SPACE_SIZE ==> mask[k] == 0
      modifies mask
      ensures forall k :: 0 <= k < SPACE_SIZE ==> mask[k] == InitialMask(headerType, k)
    {
      mask[0x0C] := 0xFF;
      mask[0x3C] := 0xFF;
      Write16(mask, COMMAND, 0x0407);
      TestAndSet16(mask, COMMAND, 0x0100);
      assert mask[COMMAND] == 0x07 && mask[COMMAND + 1] == 0x05;
      Fill(mask, HEADER_SIZE, SPACE_SIZE - HEADER_SIZE, 0xFF);
      if headerType == TYPE_BRIDGE {
        SetBridgeMask(mask);
      }
    }

    static method SetBridgeMask(mask: array<bv8>)
      requires mask.Length == SPACE_SIZE && forall k :: 0 <= k < SPACE_SIZE ==> mask[k] == NormalMask(k)
      modifies mask
      ensures forall k :: 0 <= k < SPACE_SIZE ==> mask[k] == BridgeMask(k)
    {
      Fill(mask, 0x18, 4, 0xFF);
      mask[0x1C] := 0xF0;
      mask[0x1D] := 0xF0;
      RangeHalves();
      Write16(mask, 0x20, 0xFFF0);
      Write16(mask, 0x22, 0xFFF0);
      Write16(mask, 0x24, 0xFFF0);
      Write16(mask, 0x26, 0xFFF0);
      Fill(mask, 0x28, 8, 0xFF);
      Write16(mask, 0x3E, 0x0BFF);
    }

    static lemma RangeHalves()
      ensures LowHalf(0xFFF0) == 0xF0 && HighHalf(0xFFF0) == 0xFF && LowHalf(0x0BFF) == 0xFF && HighHalf(0x0BFF) == 0x0B
    {
    }

    static method SetClearMask(mask: array<bv8>, headerType: bv8)
      requires mask.Length == SPACE_SIZE && forall k :: 0 <= k < SPACE_SIZE ==> mask[k] == 0
      modifies mask
      ensures forall k :: 0 <= k < SPACE_SIZE ==> mask[k] == InitialW1c(headerType, k)
    {
      Write16(mask, STATUS, 0xF900);
      if headerType == TYPE_BRIDGE {
        Write16(mask, 0x3E, 0x0400);
      }
    }

    method ReadConfig(reg: nat, size: nat) returns (value: seq<bv8>)
      requires Ok() && reg + size <= SPACE_SIZE
      ensures value == St().space[reg..reg + size]
      ensures size == 4 ==> Word(value, 0) == Word(St().space, reg)
    {
      value := configSpace[reg..reg + size];
    }

    /** Ok() gives the assertion of the loop: no bit is both writable and write-one-to-clear. */
    method WriteConfig(reg: nat, value: bv32, size: nat)
      requires Ok() && reg + size <= SPACE_SIZE
      modifies configSpace
      ensures Ok() && St() == Written(old(St()), reg, value, size)
    {
      hide Merge, Shifted, Low;
      ghost var was := St();
      var v := value;
      assert v == Shifted(value, 0) by { ShiftedZero(value); }
      for i := 0 to size
        invariant v == Shifted(value, i)
        invariant forall k :: 0 <= k < SPACE_SIZE ==>
          configSpace[k] == if reg <= k < reg + i
                            then Merge(was.space[k], was.writeMask[k], was.w1c[k], ByteOf(value, k - reg))
                            else was.space[k]
      {
        var wmask := writeMask[reg + i];
        var w1cmask := write1ToClearMask[reg + i];
        assert wmask & w1cmask == 0;
        WriteByte(reg + i, wmask, w1cmask, Low(v));
        ShiftOnce(value, i);
        v := v >> 8;
      }
      assert configSpace[..] == Written(was, reg, value, size).space;
    }

    static lemma ShiftedZero(value: bv32)
      ensures Shifted(value, 0) == value
    {
    }

    method WriteByte(k: nat, wmask: bv8, w1cmask: bv8, v: bv8)
      requires k < configSpace.Length
      modifies configSpace
      ensures configSpace[k] == Merge(old(configSpace[k]), wmask, w1cmask, v)
      ensures forall j :: 0 <= j < configSpace.Length && j != k ==> configSpace[j] == old(configSpace[j])
    {
      configSpace[k] := (configSpace[k] & (wmask ^ 0xFF)) | (v & wmask);
      configSpace[k] := configSpace[k] & ((v & w1cmask) ^ 0xFF);
    }

    method CountBars() returns (n: nat)
      requires Ok()
      ensures n == NumBars(St())
    {
      n := if configSpace[HEADER_TYPE] == TYPE_NORMAL then 6 else if configSpace[HEADER_TYPE] == TYPE_BRIDGE then 2
           else 0;
    }

    /** The lowest-numbered I/O register that decodes the port. */
    method GetIOBar(port: bv32) returns (found: bool, index: nat, base: bv32)
      requires Ok()
      ensures !found ==> forall j :: 0 <= j < NumBars(St()) ==> !DecodesIo(St(), j, port)
      ensures found ==> index < NumBars(St()) && DecodesIo(St(), index, port) && base == IoBase(Bar(St(), index))
      ensures found ==> forall j :: 0 <= j < index ==> !DecodesIo(St(), j, port)
    {
      hide Word, IsIo, IoBase, Below, End;
      var n := CountBars();
      index, base := 0, 0;
      for i := 0 to n
        invariant forall j :: 0 <= j < i ==> !DecodesIo(St(), j, port)
      {
        if barSizes[i] == 0 {
          continue;
        }
        var bar := Read32(configSpace, BarAddress(i));
        if !IsIo(bar) {
          continue;
        }
        var address := IoBase(bar);
        if !Below(port, address) && Below(port, End(address, barSizes[i])) {
          return true, i, address;
        }
      }
      found := false;
    }

    method GetMMIOBar(a: bv32) returns (found: bool, index: nat, base: bv32)
      requires Ok()
      ensures !found ==> forall j :: 0 <= j < NumBars(St()) ==> !DecodesMemory(St(), j, a)
      ensures found ==> index < NumBars(St()) && DecodesMemory(St(), index, a) && base == MemoryBase(Bar(St(), index))
      ensures found ==> forall j :: 0 <= j < index ==> !DecodesMemory(St(), j, a)
    {
      hide Word, IsIo, MemoryBase, Below, End;
      var n := CountBars();
      index, base := 0, 0;
      for i := 0 to n
        invariant forall j :: 0 <= j < i ==> !DecodesMemory(St(), j, a)
      {
        if barSizes[i] == 0 {
          continue;
        }
        var bar := Read32(configSpace, BarAddress(i));
        if IsIo(bar) {
          continue;
        }
        var address := MemoryBase(bar);
        if !Below(a, address) && Below(a, End(address, barSizes[i])) {
          return true, i, address;
        }
      }
      found := false;
    }

    method RegisterBAR(index: nat, size: bv32, kind: bv32) returns (ok: bool)
      requires Ok()
      modifies configSpace, writeMask, barSizes
      ensures ok == CanRegister(old(St()), index)
      ensures Ok() && St() == Registered(old(St()), index, size, kind)
    {
      hide PutWord, AddressMask;
      var n := CountBars();
      if index >= n || barSizes[index] != 0 {
        return false;
      }
      ghost var was := St();
      barSizes[index] := size;
      var a := BarAddress(index);
      Write32(configSpace, a, kind);
      Write32(writeMask, a, AddressMask(size));
      assert St() == Registered(was, index, size, kind);
      PciBars.RegisteredIsValid(was, index, size, kind);
      return true;
    }
  }

  /**
  What a guest reads back after a write: its own writable bits, the bits that its
  ones cleared as zeros, and everything else as it was.
  */
  method WriteThenRead(d: PCIDevice, reg: nat, value: bv32, size: nat) returns (back: seq<bv8>)
    requires d.Ok() && reg + size <= SPACE_SIZE
    modifies d.configSpace
    ensures d.Ok() && |back| == size
    ensures forall k :: 0 <= k < size ==>
      DecidedBy(old(d.St()).space[reg + k], back[k], d.writeMask[reg + k], d.write1ToClearMask[reg + k],
                ByteOf(value, k), ByteOf(value, k))
  {
    ghost var was := d.St();
    d.WriteConfig(reg, value, size);
    back := d.ReadConfig(reg, size);
    hide ByteOf, Merge, DecidedBy;
    forall k | 0 <= k < size
      ensures DecidedBy(was.space[reg + k], back[k], was.writeMask[reg + k], was.w1c[reg + k],
                        ByteOf(value, k), ByteOf(value, k))
    {
      assert back[k] == Merge(was.space[reg + k], was.writeMask[reg + k], was.w1c[reg + k], ByteOf(value, k));
      MergeOnce(was.space[reg + k], was.writeMask[reg + k], was.w1c[reg + k], ByteOf(value, k));
    }
  }

  lemma MergeOnce(b: bv8, mask: bv8, w1c: bv8, v: bv8)
    requires mask & w1c == 0
    ensures DecidedBy(b, Merge(b, mask, w1c, v), mask, w1c, v, v)
  {
    hide Merge;
    MergeBits(b, mask, w1c, v);
  }

  /** Writing back what a base address register held restores it. */
  lemma RestoredBar(bar: bv32, size: bv32, kind: bv32)
    requires PciBars.TypeBits(bar, size, kind)
    ensures (kind & (size - 1)) | (bar & AddressMask(size)) == bar
  {
    assert kind & (size - 1) == bar & (size - 1);
    BitsOrRest(bar, size - 1);
  }

  lemma WritingOwnBar(p: Pci, i: nat, size: bv32, kind: bv32, bar: bv32)
    requires PciBars.IsBar(p, i, size, kind) && PciBars.TypeBits(bar, size, kind)
    ensures Bar(Written(p, BarAddress(i), bar, 4), i) == bar
  {
    hide PciBars.TypeBits, AddressMask, Bar, Written;
    PciBars.WriteBar(p, i, size, kind, bar);
    RestoredBar(bar, size, kind);
  }

  lemma BitsOrRest(bar: bv32, m: bv32)
    ensures (bar & m) | (bar & (m ^ 0xFFFF_FFFF)) == bar
  {
  }

  /**
  The sizing procedure of a guest: save the register, write ones, read back,
  restore. It finds the registered size of a memory register exactly for multiples
  of 16, and the register holds again what it held.
  */
  method SizeMemoryBar(d: PCIDevice, i: nat, ghost kind: bv32) returns (found: bv32)
    requires d.Ok() && i < MAX_BARS && PciBars.IsBar(d.St(), i, d.barSizes[i], kind) && kind < 16
    modifies d.configSpace
    ensures d.Ok() && PciBars.IsBar(d.St(), i, d.barSizes[i], kind)
    ensures Bar(d.St(), i) == old(Bar(d.St(), i))
    ensures found == d.barSizes[i] <==> d.barSizes[i] & 0xF == 0
  {
    ghost var was := d.St();
    var bar := ProbeBar(d, i, kind);
    PciBars.ProbingMemory(was, i, d.barSizes[i], kind);
    found := PciBars.ProbedMemorySize(bar);
  }

  method SizeIoBar(d: PCIDevice, i: nat, ghost kind: bv32) returns (found: bv32)
    requires d.Ok() && i < MAX_BARS && PciBars.IsBar(d.St(), i, d.barSizes[i], kind) && kind < 4
    modifies d.configSpace
    ensures d.Ok() && PciBars.IsBar(d.St(), i, d.barSizes[i], kind)
    ensures Bar(d.St(), i) == old(Bar(d.St(), i))
    ensures found == d.barSizes[i] <==> d.barSizes[i] & 0x3 == 0
  {
    ghost var was := d.St();
    var bar := ProbeBar(d, i, kind);
    PciBars.ProbingIo(was, i, d.barSizes[i], kind);
    found := PciBars.ProbedIoSize(bar);
  }

  /** What the register reads after ones were written to it; it is restored. */
  method ProbeBar(d: PCIDevice, i: nat, ghost kind: bv32) returns (bar: bv32)
    requires d.Ok() && i < MAX_BARS && PciBars.IsBar(d.St(), i, d.barSizes[i], kind)
    modifies d.configSpace
    ensures d.Ok() && PciBars.IsBar(d.St(), i, d.barSizes[i], kind)
    ensures Bar(d.St(), i) == old(Bar(d.St(), i))
    ensures bar == Bar(Written(old(d.St()), BarAddress(i), PciBars.ONES, 4), i)
  {
    hide Written, Word, PciBars.TypeBits, AddressMask;
    var a := BarAddress(i);
    ghost var was := d.St();
    ghost var size := d.barSizes[i];
    var saved := d.ReadConfig(a, 4);
    d.WriteConfig(a, PciBars.ONES, 4);
    ghost var probed := d.St();
    PciBars.WriteKeepsBar(was, i, size, kind, Write(a, PciBars.ONES, 4));
    var back := d.ReadConfig(a, 4);
    bar := Word(back, 0);
    d.WriteConfig(a, Word(saved, 0), 4);
    PciBars.WriteKeepsBar(probed, i, size, kind, Write(a, Word(saved, 0), 4));
    WritingOwnBar(probed, i, size, kind, Word(saved, 0));
  }
}
