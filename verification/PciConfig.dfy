/**
The configuration space of a PCI device (pci.cpp) as a value: the bytes, the bits
the guest may write, the bits it may only clear, and the sizes of the base address
registers. m_checkMask is filled in by the code but never looked at, and is left out.
*/
module PciConfig {

  const SPACE_SIZE := 256
  const COMMAND := 0x04
  const STATUS := 0x06
  const HEADER_TYPE := 0x0E
  const BASE_ADDRESS_0 := 0x10
  const HEADER_SIZE := 0x40
  const MAX_BARS := 6

  const TYPE_NORMAL: bv8 := 0
  const TYPE_BRIDGE: bv8 := 1

  datatype Pci = Pci(space: seq<bv8>, writeMask: seq<bv8>, w1c: seq<bv8>, barSizes: seq<bv32>)

  /** No bit is both writable and write-one-to-clear, and the base address registers have none of the latter. */
  predicate Valid(p: Pci) {
    && |p.space| == |p.writeMask| == |p.w1c| == SPACE_SIZE && |p.barSizes| == MAX_BARS
    && (forall k :: 0 <= k < SPACE_SIZE ==> p.writeMask[k] & p.w1c[k] == 0)
    && (forall k :: BASE_ADDRESS_0 <= k < BASE_ADDRESS_0 + 4 * MAX_BARS ==> p.w1c[k] == 0)
  }

  /** The writable bits of byte k of a new device. */
  function NormalMask(k: nat): bv8 {
    if k == COMMAND then 0x07
    else if k == COMMAND + 1 then 0x05
    else if k == 0x0C || k == 0x3C || HEADER_SIZE <= k then 0xFF
    else 0
  }

  function BridgeMask(k: nat): bv8 {
    if 0x18 <= k < 0x1C || 0x28 <= k < 0x30 then 0xFF
    else if k == 0x1C || k == 0x1D then 0xF0
    else if 0x20 <= k < 0x28 then if k % 2 == 0 then 0xF0 else 0xFF
    else if k == 0x3E then 0xFF
    else if k == 0x3F then 0x0B
    else NormalMask(k)
  }

  function InitialMask(headerType: bv8, k: nat): bv8 {
    if headerType == TYPE_BRIDGE then BridgeMask(k) else NormalMask(k)
  }

  /** The write-one-to-clear bits: the error bits of the status register and the discard status of a bridge. */
  function InitialW1c(headerType: bv8, k: nat): bv8 {
    if k == STATUS + 1 then 0xF9
    else if k == 0x3F && headerType == TYPE_BRIDGE then 0x04
    else 0
  }

  lemma InitialMasksAreDisjoint(headerType: bv8, k: nat)
    ensures InitialMask(headerType, k) & InitialW1c(headerType, k) == 0
  {
  }

  datatype Identity = Identity(
    headerType: bv8, vendor: bv16, device: bv16, revision: bv8, class_: bv8, subclass: bv8, progIf: bv8,
    subsystemVendor: bv16, subsystem: bv16)

  function LowHalf(w: bv16): bv8 {
    (w & 0xFF) as bv8
  }

  function HighHalf(w: bv16): bv8 {
    (w >> 8) as bv8
  }

  function NumberByte(id: Identity, k: nat): bv8 {
    match k
    case 0 => LowHalf(id.vendor)
    case 1 => HighHalf(id.vendor)
    case 2 => LowHalf(id.device)
    case 3 => HighHalf(id.device)
    case 8 => id.revision
    case 9 => id.progIf
    case 10 => id.class_
    case 11 => id.subclass
    case 14 => id.headerType
    case _ => 0
  }

  function BridgeByte(id: Identity, k: nat): bv8 {
    match k
    case 0x24 => 0x01
    case 0x26 => 0x01
    case 0x2C => LowHalf(id.subsystemVendor)
    case 0x2D => HighHalf(id.subsystemVendor)
    case 0x2E => LowHalf(id.subsystem)
    case 0x2F => HighHalf(id.subsystem)
    case _ => 0
  }

  /** Byte k of a new device. The subsystem numbers are stored for bridges only. */
  function InitialByte(id: Identity, k: nat): bv8 {
    if k < 0x10 then NumberByte(id, k) else if id.headerType == TYPE_BRIDGE then BridgeByte(id, k) else 0
  }

  function Constructed(id: Identity): (p: Pci)
    ensures Valid(p)
  {
    assert forall k :: 0 <= k < SPACE_SIZE ==> InitialMask(id.headerType, k) & InitialW1c(id.headerType, k) == 0 by {
      forall k | 0 <= k < SPACE_SIZE ensures InitialMask(id.headerType, k) & InitialW1c(id.headerType, k) == 0 {
        InitialMasksAreDisjoint(id.headerType, k);
      }
    }
    hide InitialMask, InitialByte;
    Pci(seq(SPACE_SIZE, k requires 0 <= k < SPACE_SIZE => InitialByte(id, k)),
        seq(SPACE_SIZE, k requires 0 <= k < SPACE_SIZE => InitialMask(id.headerType, k)),
        seq(SPACE_SIZE, k requires 0 <= k < SPACE_SIZE => InitialW1c(id.headerType, k)),
        seq(MAX_BARS, k => 0))
  }

  /** One byte of a configuration write. */
  function Merge(b: bv8, mask: bv8, w1c: bv8, v: bv8): bv8 {
    ((b & (mask ^ 0xFF)) | (v & mask)) & ((v & w1c) ^ 0xFF)
  }

  /** What is left of the value after i rounds of the loop. */
  function Shifted(value: bv32, i: nat): bv32 {
    if i == 0 then value
    else if i == 1 then value >> 8
    else if i == 2 then value >> 16
    else if i == 3 then value >> 24
    else 0
  }

  lemma ShiftOnce(value: bv32, i: nat)
    ensures Shifted(value, i) >> 8 == Shifted(value, i + 1)
  {
    if i == 1 {
      assert (value >> 8) >> 8 == value >> 16;
    } else if i == 2 {
      assert (value >> 16) >> 8 == value >> 24;
    } else if i == 3 {
      assert (value >> 24) >> 8 == 0;
    } else if 4 <= i {
      assert (0 as bv32) >> 8 == 0;
    }
  }

  function Low(value: bv32): bv8 {
    (value & 0xFF) as bv8
  }

  function ByteOf(value: bv32, i: nat): bv8 {
    Low(Shifted(value, i))
  }

  /** WriteConfig. */
  function Written(p: Pci, reg: nat, value: bv32, size: nat): (q: Pci)
    requires Valid(p) && reg + size <= SPACE_SIZE
    ensures Valid(q)
  {
    p.(space := seq(SPACE_SIZE, k requires 0 <= k < SPACE_SIZE =>
      if reg <= k < reg + size then Merge(p.space[k], p.writeMask[k], p.w1c[k], ByteOf(value, k - reg))
      else p.space[k]))
  }

  /** A little-endian word of the configuration space. */
  function Word(s: seq<bv8>, a: nat): bv32
    requires a + 4 <= |s|
  {
    Assemble(s[a], s[a + 1], s[a + 2], s[a + 3])
  }

  function Assemble(b0: bv8, b1: bv8, b2: bv8, b3: bv8): bv32 {
    b0 as bv32 | (b1 as bv32 << 8) | (b2 as bv32 << 16) | (b3 as bv32 << 24)
  }

  function PutWord(s: seq<bv8>, a: nat, w: bv32): (t: seq<bv8>)
    requires a + 4 <= |s|
    ensures |t| == |s|
    ensures forall k :: 0 <= k < |s| ==> t[k] == if a <= k < a + 4 then ByteOf(w, k - a) else s[k]
  {
    s[a := ByteOf(w, 0)][a + 1 := ByteOf(w, 1)][a + 2 := ByteOf(w, 2)][a + 3 := ByteOf(w, 3)]
  }

  function NumBars(p: Pci): nat
    requires Valid(p)
  {
    if p.space[HEADER_TYPE] == TYPE_NORMAL then 6 else if p.space[HEADER_TYPE] == TYPE_BRIDGE then 2 else 0
  }

  function BarAddress(i: nat): nat {
    BASE_ADDRESS_0 + 4 * i
  }

  /** RegisterBAR: fails for a header type without such a register, and for one already taken. */
  predicate CanRegister(p: Pci, i: nat)
    requires Valid(p)
  {
    i < NumBars(p) && p.barSizes[i] == 0
  }

  function Registered(p: Pci, i: nat, size: bv32, kind: bv32): (q: Pci)
    requires Valid(p)
    ensures |q.space| == |q.writeMask| == |q.w1c| == SPACE_SIZE && |q.barSizes| == MAX_BARS && q.w1c == p.w1c
  {
    if !CanRegister(p, i) then p
    else
      p.(barSizes := p.barSizes[i := size],
         space := PutWord(p.space, BarAddress(i), kind),
         writeMask := PutWord(p.writeMask, BarAddress(i), AddressMask(size)))
  }

  /** ~(size - 1). */
  function AddressMask(size: bv32): bv32 {
    (size - 1) ^ 0xFFFF_FFFF
  }

  function Bar(p: Pci, i: nat): bv32
    requires Valid(p) && i < MAX_BARS
  {
    Word(p.space, BarAddress(i))
  }

  /** The address fields of the two kinds of base address register. */
  function IoBase(bar: bv32): bv32 {
    (bar >> 2) << 2
  }

  function MemoryBase(bar: bv32): bv32 {
    (bar >> 4) << 4
  }

  predicate IsIo(bar: bv32) {
    bar & 1 == 1
  }

  /** The sum wraps around at 32 bits. */
  function End(base: bv32, size: bv32): bv32 {
    base + size
  }

  predicate Below(a: bv32, b: bv32) {
    a < b
  }

  /** The test of GetIOBar and GetMMIOBar. */
  predicate Covers(base: bv32, size: bv32, a: bv32) {
    !Below(a, base) && Below(a, End(base, size))
  }

  predicate DecodesIo(p: Pci, i: nat, port: bv32)
    requires Valid(p) && i < MAX_BARS
  {
    p.barSizes[i] != 0 && IsIo(Bar(p, i)) && Covers(IoBase(Bar(p, i)), p.barSizes[i], port)
  }

  predicate DecodesMemory(p: Pci, i: nat, a: bv32)
    requires Valid(p) && i < MAX_BARS
  {
    p.barSizes[i] != 0 && !IsIo(Bar(p, i)) && Covers(MemoryBase(Bar(p, i)), p.barSizes[i], a)
  }

  datatype Write = Write(reg: nat, value: bv32, size: nat)

  predicate InRange(op: Write) {
    op.reg + op.size <= SPACE_SIZE
  }

  predicate AllInRange(ops: seq<Write>) {
    forall k :: 0 <= k < |ops| ==> InRange(ops[k])
  }

  function Run(p: Pci, ops: seq<Write>): (q: Pci)
    requires Valid(p) && AllInRange(ops)
    ensures Valid(q)
    decreases |ops|
  {
    if ops == [] then p
    else
      var last := ops[|ops| - 1];
      assert InRange(last);
      Written(Run(p, ops[..|ops| - 1]), last.reg, last.value, last.size)
  }

  /** What a write says about byte k, if anything. */
  predicate Touches(op: Write, k: nat) {
    op.reg <= k < op.reg + op.size
  }

  /** All the bits that were written as ones to byte k. */
  function OnesWritten(ops: seq<Write>, k: nat): bv8
    decreases |ops|
  {
    if ops == [] then 0
    else
      var last := ops[|ops| - 1];
      var ones := OnesWritten(ops[..|ops| - 1], k);
      if Touches(last, k) then ones | ByteOf(last.value, k - last.reg) else ones
  }

  /** What was last written to byte k, or b. */
  function LastWritten(ops: seq<Write>, k: nat, b: bv8): bv8
    decreases |ops|
  {
    if ops == [] then b
    else
      var last := ops[|ops| - 1];
      if Touches(last, k) then ByteOf(last.value, k - last.reg) else LastWritten(ops[..|ops| - 1], k, b)
  }

  /**
  How a byte b came from b0: its writable bits are those last written, its
  write-one-to-clear bits are those never written as ones, and the rest is untouched.
  */
  predicate DecidedBy(b0: bv8, b: bv8, mask: bv8, w1c: bv8, last: bv8, ones: bv8) {
    && b & mask == last & mask
    && b & w1c == b0 & w1c & (ones ^ 0xFF)
    && b & ((mask | w1c) ^ 0xFF) == b0 & ((mask | w1c) ^ 0xFF)
  }

  lemma MergeBits(b: bv8, mask: bv8, w1c: bv8, v: bv8)
    requires mask & w1c == 0
    ensures Merge(b, mask, w1c, v) & mask == v & mask
    ensures Merge(b, mask, w1c, v) & w1c == b & w1c & (v ^ 0xFF)
    ensures Merge(b, mask, w1c, v) & ((mask | w1c) ^ 0xFF) == b & ((mask | w1c) ^ 0xFF)
  {
  }

  lemma OnesAccumulate(x: bv8, ones: bv8, v: bv8)
    ensures x & (ones ^ 0xFF) & (v ^ 0xFF) == x & ((ones | v) ^ 0xFF)
  {
  }

  lemma MergeDecides(b0: bv8, b: bv8, mask: bv8, w1c: bv8, last: bv8, ones: bv8, v: bv8)
    requires mask & w1c == 0 && DecidedBy(b0, b, mask, w1c, last, ones)
    ensures DecidedBy(b0, Merge(b, mask, w1c, v), mask, w1c, v, ones | v)
  {
    hide Merge;
    MergeBits(b, mask, w1c, v);
    OnesAccumulate(b0 & w1c, ones, v);
  }

  lemma InitiallyDecided(b: bv8, mask: bv8, w1c: bv8)
    ensures DecidedBy(b, b, mask, w1c, b, 0)
  {
  }

  lemma WriteDecidesByte(p: Pci, b0: bv8, op: Write, k: nat, last: bv8, ones: bv8)
    requires Valid(p) && InRange(op) && k < SPACE_SIZE
    requires DecidedBy(b0, p.space[k], p.writeMask[k], p.w1c[k], last, ones)
    ensures var q := Written(p, op.reg, op.value, op.size);
      if Touches(op, k) then
        var v := ByteOf(op.value, k - op.reg);
        DecidedBy(b0, q.space[k], p.writeMask[k], p.w1c[k], v, ones | v)
      else q.space[k] == p.space[k]
  {
    hide Merge, ByteOf, DecidedBy;
    if Touches(op, k) {
      MergeDecides(b0, p.space[k], p.writeMask[k], p.w1c[k], last, ones, ByteOf(op.value, k - op.reg));
    }
  }

  /** After any sequence of writes, each byte is decided bit by bit by what was written to it. */
  lemma {:induction false} HistoryDecidesByte(p: Pci, ops: seq<Write>, k: nat)
    requires Valid(p) && AllInRange(ops) && k < SPACE_SIZE
    ensures var q := Run(p, ops);
      && q.writeMask == p.writeMask && q.w1c == p.w1c && q.barSizes == p.barSizes
      && DecidedBy(p.space[k], q.space[k], p.writeMask[k], p.w1c[k], LastWritten(ops, k, p.space[k]), OnesWritten(ops, k))
    decreases |ops|
  {
    hide ByteOf, DecidedBy;
    if ops == [] {
      InitiallyDecided(p.space[k], p.writeMask[k], p.w1c[k]);
    } else {
      var before := ops[..|ops| - 1];
      var last := ops[|ops| - 1];
      assert InRange(last);
      HistoryDecidesByte(p, before, k);
      WriteDecidesByte(Run(p, before), p.space[k], last, k, LastWritten(before, k, p.space[k]), OnesWritten(before, k));
    }
  }
}
