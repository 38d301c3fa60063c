/**
The configuration space as a guest knows it: register offsets and bit masks of the
PCI Local Bus Specification 3.0, chapter 6, and of the PCI-to-PCI Bridge Architecture
Specification, written out as numbers.
*/
module PciGuest {
  import opened PciConfig
  import opened PciBars

  // ----- A new device -----

  function Half(s: seq<bv8>, a: nat): bv16
    requires a + 2 <= |s|
  {
    s[a] as bv16 | (s[a + 1] as bv16 << 8)
  }

  lemma HalfOfHalves(w: bv16)
    ensures LowHalf(w) as bv16 | (HighHalf(w) as bv16 << 8) == w
  {
  }

  /** The numbers of a new device read back, a bridge alone has its subsystem numbers, and the rest is zero. */
  lemma IdentityReads(id: Identity)
    ensures var s := Constructed(id).space;
      && Half(s, 0x00) == id.vendor && Half(s, 0x02) == id.device
      && s[0x08] == id.revision && s[0x09] == id.progIf && s[0x0A] == id.class_ && s[0x0B] == id.subclass
      && s[0x0E] == id.headerType
      && (id.headerType == 1 ==>
           && s[0x24] == 0x01 && s[0x26] == 0x01
           && Half(s, 0x2C) == id.subsystemVendor && Half(s, 0x2E) == id.subsystem)
      && forall k :: 4 <= k < 256 ==>
           || k in {0x08, 0x09, 0x0A, 0x0B, 0x0E}
           || (id.headerType == 1 && k in {0x24, 0x26, 0x2C, 0x2D, 0x2E, 0x2F})
           || s[k] == 0
  {
    HalfOfHalves(id.vendor);
    HalfOfHalves(id.device);
    HalfOfHalves(id.subsystemVendor);
    HalfOfHalves(id.subsystem);
    hide LowHalf, HighHalf;
  }

  /** A device, in whatever state, whose masks are those it was constructed with. */
  predicate Fresh(p: Pci, id: Identity) {
    Valid(p) && p.writeMask == Constructed(id).writeMask && p.w1c == Constructed(id).w1c
  }

  /** The offsets that a guest writes as a whole, and those of which it writes the high half. */
  predicate Whole(bridge: bool, k: nat) {
    || k == 0x0C || k == 0x3C || k >= 0x40
    || (bridge && (0x18 <= k <= 0x1B || 0x28 <= k <= 0x2F || k == 0x3E || (0x20 <= k <= 0x27 && k % 2 == 1)))
  }

  predicate HighOnly(bridge: bool, k: nat) {
    bridge && (k == 0x1C || k == 0x1D || (0x20 <= k <= 0x27 && k % 2 == 0))
  }

  /** What becomes of byte k, holding b, when the guest writes v to it. */
  function ByteTakes(bridge: bool, k: nat, b: bv8, v: bv8): bv8 {
    if k == 0x04 then (b & 0xF8) | (v & 0x07)
    else if k == 0x05 then (b & 0xFA) | (v & 0x05)
    else if k == 0x07 then b & ((v & 0xF9) ^ 0xFF)
    else if Whole(bridge, k) then v
    else if HighOnly(bridge, k) then (b & 0x0F) | (v & 0xF0)
    else if bridge && k == 0x3F then (b & ((v & 0x04) ^ 0xFF) & 0xF4) | (v & 0x0B)
    else b
  }

  lemma MergeCommand(b: bv8, v: bv8)
    ensures Merge(b, 0x07, 0, v) == (b & 0xF8) | (v & 0x07) && Merge(b, 0x05, 0, v) == (b & 0xFA) | (v & 0x05)
  {
  }

  lemma MergeAll(b: bv8, v: bv8)
    ensures Merge(b, 0xFF, 0, v) == v && Merge(b, 0, 0, v) == b
  {
  }

  lemma MergeHigh(b: bv8, v: bv8)
    ensures Merge(b, 0xF0, 0, v) == (b & 0x0F) | (v & 0xF0)
  {
  }

  lemma MergeStatus(b: bv8, v: bv8)
    ensures Merge(b, 0, 0xF9, v) == b & ((v & 0xF9) ^ 0xFF)
  {
  }

  lemma MergeControl(b: bv8, v: bv8)
    ensures Merge(b, 0x0B, 0x04, v) == (b & ((v & 0x04) ^ 0xFF) & 0xF4) | (v & 0x0B)
  {
  }

  lemma MaskTable(header: bv8, k: nat)
    ensures InitialMask(header, k) ==
      if k == 0x04 then 0x07 else if k == 0x05 then 0x05
      else if Whole(header == 1, k) then 0xFF else if HighOnly(header == 1, k) then 0xF0
      else if header == 1 && k == 0x3F then 0x0B else 0
    ensures InitialW1c(header, k) == if k == 0x07 then 0xF9 else if header == 1 && k == 0x3F then 0x04 else 0
  {
  }

  lemma MaskCases(header: bv8, k: nat, b: bv8, v: bv8)
    ensures Merge(b, InitialMask(header, k), InitialW1c(header, k), v) == ByteTakes(header == 1, k, b, v)
  {
    hide Merge, InitialMask, InitialW1c, Whole, HighOnly;
    MaskTable(header, k);
    MergeCommand(b, v);
    MergeStatus(b, v);
    MergeControl(b, v);
    MergeAll(b, v);
    MergeHigh(b, v);
    WholeIsApart(header == 1, k);
  }

  lemma WholeIsApart(bridge: bool, k: nat)
    ensures Whole(bridge, k) ==> k != 0x07 && k != 0x3F && !HighOnly(bridge, k)
    ensures HighOnly(bridge, k) ==> k != 0x07 && k != 0x3F && bridge
  {
  }

  /** Byte i of a value, which has four. */
  function Octet(value: bv32, i: nat): bv8 {
    if i == 0 then (value & 0xFF) as bv8
    else if i == 1 then ((value >> 8) & 0xFF) as bv8
    else if i == 2 then ((value >> 16) & 0xFF) as bv8
    else if i == 3 then ((value >> 24) & 0xFF) as bv8
    else 0
  }

  lemma OctetIsByte(value: bv32, i: nat)
    ensures Octet(value, i) == ByteOf(value, i)
  {
    hide Low;
    LowIs(value);
    LowIs(value >> 8);
    LowIs(value >> 16);
    LowIs(value >> 24);
    NoBits();
  }

  lemma LowIs(w: bv32)
    ensures Low(w) == (w & 0xFF) as bv8
  {
  }

  lemma NoBits()
    ensures Low(0) == 0
  {
  }

  /**
  The guest can set the I/O, memory, master, SERR and interrupt-disable bits of the
  command register, clear the error bits of the status register by writing ones, set
  cache line size, interrupt line and everything beyond the header, and of a bridge
  its bus numbers, windows and control bits: those and nothing else.
  */
  lemma GuestWrites(p: Pci, id: Identity, reg: nat, value: bv32, size: nat, k: nat)
    requires Fresh(p, id) && reg + size <= 256 && k < 256
    ensures var q := Written(p, reg, value, size);
      && Fresh(q, id)
      && q.space[k] ==
           if reg <= k < reg + size then ByteTakes(id.headerType == 1, k, p.space[k], Octet(value, k - reg))
           else p.space[k]
  {
    hide Merge, InitialMask, InitialW1c, ByteTakes, ByteOf, Octet;
    if reg <= k < reg + size {
      MaskCases(id.headerType, k, p.space[k], ByteOf(value, k - reg));
      OctetIsByte(value, k - reg);
    }
  }

  /** A plain device has six base address registers, a bridge two and any other header none, each free at first. */
  lemma FreeRegisters(id: Identity, i: nat)
    ensures CanRegister(Constructed(id), i) <==>
              i < (if id.headerType == 0 then 6 else if id.headerType == 1 then 2 else 0)
  {
  }

  // ----- Placing a base address register -----

  lemma SizeIsNotZero(size: bv32, kind: bv32)
    ensures MemorySize(size, kind) || IoSize(size, kind) ==> size != 0
  {
  }

  /**
  A device registers a memory block of a power-of-two size, the guest writes an
  aligned base to the register at 0x10 + 4 * i, and from then on exactly the
  addresses of the block are decoded, unless it would end at the top of the address
  space.
  */
  lemma PlacedMemoryDecodes(p: Pci, i: nat, size: bv32, kind: bv32, base: bv32, a: bv32)
    requires Valid(p) && CanRegister(p, i) && MemorySize(size, kind) && AlignedTo(base, size)
    ensures var q := Registered(p, i, size, kind);
      && Valid(q)
      && MemoryBase(Bar(Written(q, 0x10 + 4 * i, base, 4), i)) == base
      && (DecodesMemory(Written(q, 0x10 + 4 * i, base, 4), i, a) <==> InBlock(base, size, a))
  {
    hide *;
    RegistersAreFew(p, i);
    var q := Registered(p, i, size, kind);
    SizeIsNotZero(size, kind);
    RegisteringMakesBar(p, i, size, kind);
    BarIsValid(q, i, size, kind);
    WriteFits(i, base);
    WriteKeepsBar(q, i, size, kind, Write(0x10 + 4 * i, base, 4));
    var r := Written(q, 0x10 + 4 * i, base, 4);
    MemoryBarDecodes(r, i, size, kind, a);
    WritingBase(q, i, size, kind, base);
  }

  /** The same for I/O; every aligned base is taken. */
  lemma PlacedIoDecodes(p: Pci, i: nat, size: bv32, kind: bv32, base: bv32, port: bv32)
    requires Valid(p) && CanRegister(p, i) && IoSize(size, kind) && AlignedTo(base, size)
    ensures var q := Registered(p, i, size, kind);
      && Valid(q)
      && IoBase(Bar(Written(q, 0x10 + 4 * i, base, 4), i)) == base
      && (DecodesIo(Written(q, 0x10 + 4 * i, base, 4), i, port) <==> InBlock(base, size, port))
  {
    hide *;
    RegistersAreFew(p, i);
    var q := Registered(p, i, size, kind);
    SizeIsNotZero(size, kind);
    RegisteringMakesBar(p, i, size, kind);
    BarIsValid(q, i, size, kind);
    WriteFits(i, base);
    WriteKeepsBar(q, i, size, kind, Write(0x10 + 4 * i, base, 4));
    var r := Written(q, 0x10 + 4 * i, base, 4);
    IoBarDecodes(r, i, size, kind, port);
    WriteBar(q, i, size, kind, base);
    WrittenIoBase(size, kind, base);
  }

  lemma RegistersAreFew(p: Pci, i: nat)
    requires Valid(p) && CanRegister(p, i)
    ensures i < MAX_BARS && BarAddress(i) == 0x10 + 4 * i
  {
  }

  lemma BarIsValid(p: Pci, i: nat, size: bv32, kind: bv32)
    requires IsBar(p, i, size, kind)
    ensures Valid(p)
  {
  }

  lemma WriteFits(i: nat, value: bv32)
    requires i < MAX_BARS
    ensures InRange(Write(0x10 + 4 * i, value, 4)) && 0x10 + 4 * i + 4 <= SPACE_SIZE
  {
  }

  lemma WrittenIoBase(size: bv32, kind: bv32, v: bv32)
    requires IoSize(size, kind) && AlignedTo(v, size)
    ensures IoBase((kind & (size - 1)) | (v & AddressMask(size))) == v
  {
  }
}
