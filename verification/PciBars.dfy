/**
Base address registers: sizing by writing ones, alignment, and what they decode
(PCI Local Bus Specification 3.0, section 6.2.5.1).
*/
module PciBars {
  import opened PciConfig

  const ONES: bv32 := 0xFFFF_FFFF

  predicate PowerOfTwo(size: bv32) {
    size != 0 && size & (size - 1) == 0
  }

  lemma BytesOfWord(w: bv32)
    ensures Assemble(ByteOf(w, 0), ByteOf(w, 1), ByteOf(w, 2), ByteOf(w, 3)) == w
  {
    hide Low, Assemble;
    AssembleLow(w);
  }

  lemma AssembleLow(w: bv32)
    ensures Assemble(Low(w), Low(w >> 8), Low(w >> 16), Low(w >> 24)) == w
  {
  }

  lemma PutWordThenWord(s: seq<bv8>, a: nat, w: bv32)
    requires a + 4 <= |s|
    ensures Word(PutWord(s, a, w), a) == w
  {
    hide ByteOf, Assemble;
    BytesOfWord(w);
  }

  /** The bits below the size are those of the type. */
  predicate TypeBits(bar: bv32, size: bv32, kind: bv32) {
    bar & (size - 1) == kind & (size - 1)
  }

  /** Base address register i was registered with this size and these type bits, and has only been written since. */
  predicate IsBar(p: Pci, i: nat, size: bv32, kind: bv32) {
    && Valid(p) && i < MAX_BARS && size != 0 && p.barSizes[i] == size
    && Word(p.writeMask, BarAddress(i)) == AddressMask(size)
    && TypeBits(Bar(p, i), size, kind)
  }

  lemma RegisteredIsValid(p: Pci, i: nat, size: bv32, kind: bv32)
    requires Valid(p)
    ensures Valid(Registered(p, i, size, kind))
  {
    hide ByteOf, AddressMask;
    var q := Registered(p, i, size, kind);
    forall k | 0 <= k < SPACE_SIZE ensures q.writeMask[k] & q.w1c[k] == 0 {
      if CanRegister(p, i) && BarAddress(i) <= k < BarAddress(i) + 4 {
        assert q.w1c[k] == 0;
        AndZero(q.writeMask[k]);
      }
    }
  }

  lemma AndZero(b: bv8)
    ensures b & 0 == 0
  {
  }

  lemma OwnTypeBits(size: bv32, kind: bv32)
    ensures TypeBits(kind, size, kind)
  {
  }

  lemma RegisteringMakesBar(p: Pci, i: nat, size: bv32, kind: bv32)
    requires Valid(p) && CanRegister(p, i) && size != 0
    ensures IsBar(Registered(p, i, size, kind), i, size, kind)
  {
    hide ByteOf, AddressMask, Word, TypeBits;
    assert TypeBits(kind, size, kind) by { OwnTypeBits(size, kind); }
    RegisteredIsValid(p, i, size, kind);
    PutWordThenWord(p.space, BarAddress(i), kind);
    PutWordThenWord(p.writeMask, BarAddress(i), AddressMask(size));
  }

  lemma OtherWordKept(s: seq<bv8>, a: nat, w: bv32, c: nat)
    requires a + 4 <= |s| && c + 4 <= |s| && (c + 4 <= a || a + 4 <= c)
    ensures Word(PutWord(s, a, w), c) == Word(s, c)
  {
    hide ByteOf, Assemble;
  }

  /** Registering another one, or trying to register this one again, changes nothing about it. */
  lemma RegisteringKeepsBar(p: Pci, i: nat, size: bv32, kind: bv32, j: nat, size': bv32, kind': bv32)
    requires IsBar(p, i, size, kind)
    ensures IsBar(Registered(p, j, size', kind'), i, size, kind)
    ensures Bar(Registered(p, j, size', kind'), i) == Bar(p, i)
  {
    hide ByteOf, AddressMask, Word, PutWord;
    RegisteredIsValid(p, j, size', kind');
    if CanRegister(p, j) {
      assert j != i;
      OtherWordKept(p.space, BarAddress(j), kind', BarAddress(i));
      OtherWordKept(p.writeMask, BarAddress(j), AddressMask(size'), BarAddress(i));
    }
  }

  /** Bits outside a byte's masks survive in the word as well. */
  lemma OutsideMask(a0: bv8, a1: bv8, a2: bv8, a3: bv8, b0: bv8, b1: bv8, b2: bv8, b3: bv8,
                    m0: bv8, m1: bv8, m2: bv8, m3: bv8)
    requires a0 & (m0 ^ 0xFF) == b0 & (m0 ^ 0xFF) && a1 & (m1 ^ 0xFF) == b1 & (m1 ^ 0xFF)
    requires a2 & (m2 ^ 0xFF) == b2 & (m2 ^ 0xFF) && a3 & (m3 ^ 0xFF) == b3 & (m3 ^ 0xFF)
    ensures Assemble(a0, a1, a2, a3) & (Assemble(m0, m1, m2, m3) ^ ONES)
         == Assemble(b0, b1, b2, b3) & (Assemble(m0, m1, m2, m3) ^ ONES)
  {
  }

  lemma MergeWithoutW1c(b: bv8, mask: bv8, v: bv8)
    ensures Merge(b, mask, 0, v) & (mask ^ 0xFF) == b & (mask ^ 0xFF)
    ensures Merge(b, mask, 0, v) == (b & (mask ^ 0xFF)) | (v & mask)
  {
  }

  lemma MaskComplement(size: bv32)
    ensures AddressMask(size) ^ ONES == size - 1
  {
  }

  lemma WriteKeepsByte(p: Pci, op: Write, k: nat)
    requires Valid(p) && InRange(op) && BASE_ADDRESS_0 <= k < BASE_ADDRESS_0 + 4 * MAX_BARS
    ensures var q := Written(p, op.reg, op.value, op.size);
      q.space[k] & (p.writeMask[k] ^ 0xFF) == p.space[k] & (p.writeMask[k] ^ 0xFF)
  {
    hide Merge, ByteOf;
    if Touches(op, k) {
      MergeWithoutW1c(p.space[k], p.writeMask[k], ByteOf(op.value, k - op.reg));
    }
  }

  predicate SameOutside(w: bv32, w': bv32, mask: bv32) {
    w & (mask ^ ONES) == w' & (mask ^ ONES)
  }

  lemma WriteKeepsWord(p: Pci, op: Write, i: nat)
    requires Valid(p) && InRange(op) && i < MAX_BARS
    ensures SameOutside(Bar(p, i), Bar(Written(p, op.reg, op.value, op.size), i), Word(p.writeMask, BarAddress(i)))
  {
    hide Written, Assemble;
    var q := Written(p, op.reg, op.value, op.size);
    var a := BarAddress(i);
    WriteKeepsByte(p, op, a);
    WriteKeepsByte(p, op, a + 1);
    WriteKeepsByte(p, op, a + 2);
    WriteKeepsByte(p, op, a + 3);
    OutsideMask(q.space[a], q.space[a + 1], q.space[a + 2], q.space[a + 3],
                p.space[a], p.space[a + 1], p.space[a + 2], p.space[a + 3],
                p.writeMask[a], p.writeMask[a + 1], p.writeMask[a + 2], p.writeMask[a + 3]);
  }

  lemma TypeBitsKept(bar: bv32, bar': bv32, size: bv32, kind: bv32)
    requires TypeBits(bar, size, kind)
    requires SameOutside(bar, bar', AddressMask(size))
    ensures TypeBits(bar', size, kind)
  {
    hide AddressMask;
    MaskComplement(size);
  }

  /** Any write, wherever and however wide, leaves the register a register of its size and type. */
  lemma WriteKeepsBar(p: Pci, i: nat, size: bv32, kind: bv32, op: Write)
    requires IsBar(p, i, size, kind) && InRange(op)
    ensures IsBar(Written(p, op.reg, op.value, op.size), i, size, kind)
  {
    hide Word, Bar, AddressMask, TypeBits, SameOutside, Merge, ByteOf;
    WriteKeepsWord(p, op, i);
    TypeBitsKept(Bar(p, i), Bar(Written(p, op.reg, op.value, op.size), i), size, kind);
  }

  lemma {:induction false} RunKeepsBar(p: Pci, i: nat, size: bv32, kind: bv32, ops: seq<Write>)
    requires IsBar(p, i, size, kind) && AllInRange(ops)
    ensures IsBar(Run(p, ops), i, size, kind)
    decreases |ops|
  {
    hide Written, TypeBits, AddressMask, Word;
    if ops != [] {
      var last := ops[|ops| - 1];
      assert InRange(last);
      RunKeepsBar(p, i, size, kind, ops[..|ops| - 1]);
      WriteKeepsBar(Run(p, ops[..|ops| - 1]), i, size, kind, last);
    }
  }

  lemma MergeWord(b0: bv8, b1: bv8, b2: bv8, b3: bv8, m0: bv8, m1: bv8, m2: bv8, m3: bv8,
                  v0: bv8, v1: bv8, v2: bv8, v3: bv8)
    ensures var m := Assemble(m0, m1, m2, m3);
      Assemble((b0 & (m0 ^ 0xFF)) | (v0 & m0), (b1 & (m1 ^ 0xFF)) | (v1 & m1),
               (b2 & (m2 ^ 0xFF)) | (v2 & m2), (b3 & (m3 ^ 0xFF)) | (v3 & m3))
      == (Assemble(b0, b1, b2, b3) & (m ^ ONES)) | (Assemble(v0, v1, v2, v3) & m)
  {
  }

  /** A 32-bit write to the register: the address bits are the written ones, the others the type's. */
  lemma WriteBar(p: Pci, i: nat, size: bv32, kind: bv32, v: bv32)
    requires IsBar(p, i, size, kind)
    ensures Bar(Written(p, BarAddress(i), v, 4), i) == (kind & (size - 1)) | (v & AddressMask(size))
  {
    hide Merge, ByteOf, Assemble, AddressMask;
    var a := BarAddress(i);
    var q := Written(p, a, v, 4);
    forall k | a <= k < a + 4
      ensures q.space[k] == (p.space[k] & (p.writeMask[k] ^ 0xFF)) | (ByteOf(v, k - a) & p.writeMask[k])
    {
      MergeWithoutW1c(p.space[k], p.writeMask[k], ByteOf(v, k - a));
    }
    MergeWord(p.space[a], p.space[a + 1], p.space[a + 2], p.space[a + 3],
              p.writeMask[a], p.writeMask[a + 1], p.writeMask[a + 2], p.writeMask[a + 3],
              ByteOf(v, 0), ByteOf(v, 1), ByteOf(v, 2), ByteOf(v, 3));
    BytesOfWord(v);
    MaskComplement(size);
  }

  /** The size that the guest computes from what it reads back after writing ones. */
  function ProbedMemorySize(bar: bv32): bv32 {
    ((bar & 0xFFFF_FFF0) ^ ONES) + 1
  }

  function ProbedIoSize(bar: bv32): bv32 {
    ((bar & 0xFFFF_FFFC) ^ ONES) + 1
  }

  /** Sizing gives the registered size exactly if that is a multiple of what the type bits leave addressable. */
  lemma ProbingMemory(p: Pci, i: nat, size: bv32, kind: bv32)
    requires IsBar(p, i, size, kind) && kind < 16
    ensures ProbedMemorySize(Bar(Written(p, BarAddress(i), ONES, 4), i)) == size <==> size & 0xF == 0
  {
    hide Written, TypeBits, AddressMask, Word, ProbedMemorySize, ProbedIoSize;
    WriteBar(p, i, size, kind, ONES);
    ProbedMemory(size, kind);
  }

  lemma ProbedMemory(size: bv32, kind: bv32)
    requires kind < 16 && size != 0
    ensures ProbedMemorySize((kind & (size - 1)) | (ONES & AddressMask(size))) == size <==> size & 0xF == 0
  {
  }

  lemma ProbingIo(p: Pci, i: nat, size: bv32, kind: bv32)
    requires IsBar(p, i, size, kind) && kind < 4
    ensures ProbedIoSize(Bar(Written(p, BarAddress(i), ONES, 4), i)) == size <==> size & 0x3 == 0
  {
    hide Written, TypeBits, AddressMask, Word, ProbedMemorySize, ProbedIoSize;
    WriteBar(p, i, size, kind, ONES);
    ProbedIo(size, kind);
  }

  lemma ProbedIo(size: bv32, kind: bv32)
    requires kind < 4 && size != 0
    ensures ProbedIoSize((kind & (size - 1)) | (ONES & AddressMask(size))) == size <==> size & 0x3 == 0
  {
  }

  function Prev(a: bv32): bv32 {
    a - 1
  }

  /** The last address of a block, were it not to wrap around. */
  function Last(base: bv32, size: bv32): bv32 {
    End(base, Prev(size))
  }

  /** The addresses from base to base + size - 1; none if base + size is the top of the address space. */
  predicate InBlock(base: bv32, size: bv32, a: bv32) {
    End(base, size) != 0 && !Below(a, base) && !Below(Last(base, size), a)
  }

  predicate AlignedTo(base: bv32, size: bv32) {
    base & Prev(size) == 0
  }

  /** Adding bits that are clear does not carry. */
  lemma DisjointSum(base: bv32, m: bv32)
    requires base & m == 0
    ensures !Below(End(base, m), base)
  {
    assert base + m == base | m;
  }

  lemma AlignedDoesNotWrap(base: bv32, size: bv32)
    requires AlignedTo(base, size)
    ensures !Below(Last(base, size), base)
  {
    hide Below, End, Prev;
    DisjointSum(base, Prev(size));
  }

  lemma EndOfPrev(base: bv32, size: bv32)
    ensures End(base, size - 1) == base + size - 1
  {
  }

  lemma PrevIs(a: bv32)
    ensures Prev(a) == a - 1
  {
  }

  lemma LastAsSum(base: bv32, size: bv32)
    ensures Last(base, size) == base + size - 1
  {
    hide End;
    EndOfPrev(base, size);
    assert Prev(size) == size - 1;
  }

  lemma PrevOfEnd(base: bv32, size: bv32)
    ensures Prev(End(base, size)) == base + size - 1
  {
    hide Prev;
    PrevIs(base + size);
    assert End(base, size) == base + size;
  }

  lemma LastBeforeEnd(base: bv32, size: bv32)
    ensures Last(base, size) == Prev(End(base, size))
  {
    hide Last, End, Prev;
    LastAsSum(base, size);
    PrevOfEnd(base, size);
  }

  lemma BelowIffUpTo(next: bv32, a: bv32)
    ensures Below(a, next) <==> next != 0 && !Below(Prev(next), a)
  {
    hide Below, Prev;
    NotBelowNext(next, a);
    BelowNext(next, a);
  }

  lemma NotBelowNext(next: bv32, a: bv32)
    ensures Below(a, next) ==> next != 0 && !Below(Prev(next), a)
  {
    hide Below;
    var top := Prev(next);
    assert next == top + 1;
    AtLeastNext(top, next, a);
    NoneBelowZero(a);
  }

  lemma AtLeastNext(top: bv32, next: bv32, a: bv32)
    requires next == top + 1
    ensures Below(top, a) ==> !Below(a, next)
  {
  }

  lemma NoneBelowZero(a: bv32)
    ensures !Below(a, 0)
  {
  }

  lemma BelowNext(next: bv32, a: bv32)
    ensures !Below(a, next) ==> Below(Prev(next), a) || next == 0
  {
  }

  /** An aligned block does not wrap around, except for an end at the top of the address space. */
  lemma CoversBlock(base: bv32, size: bv32, a: bv32)
    requires AlignedTo(base, size)
    ensures Covers(base, size, a) <==> InBlock(base, size, a)
    ensures !Below(Last(base, size), base)
  {
    hide Below, AlignedTo, End, Last, Prev;
    LastBeforeEnd(base, size);
    BelowIffUpTo(End(base, size), a);
    AlignedDoesNotWrap(base, size);
  }

  predicate MemorySize(size: bv32, kind: bv32) {
    PowerOfTwo(size) && 16 <= size && kind < 16 && kind & 1 == 0
  }

  predicate IoSize(size: bv32, kind: bv32) {
    PowerOfTwo(size) && 4 <= size && kind < 4 && kind & 1 == 1
  }

  lemma MemoryBlock(bar: bv32, size: bv32, kind: bv32)
    requires MemorySize(size, kind) && TypeBits(bar, size, kind)
    ensures AlignedTo(MemoryBase(bar), size) && !IsIo(bar)
  {
  }

  lemma IoBlock(bar: bv32, size: bv32, kind: bv32)
    requires IoSize(size, kind) && TypeBits(bar, size, kind)
    ensures AlignedTo(IoBase(bar), size) && IsIo(bar)
  {
  }

  /** A memory register of a power-of-two size decodes the aligned block at its base. */
  lemma MemoryBarDecodes(p: Pci, i: nat, size: bv32, kind: bv32, a: bv32)
    requires IsBar(p, i, size, kind) && MemorySize(size, kind)
    ensures AlignedTo(MemoryBase(Bar(p, i)), size)
    ensures DecodesMemory(p, i, a) <==> InBlock(MemoryBase(Bar(p, i)), size, a)
    ensures !DecodesIo(p, i, a)
  {
    hide Word, Bar, MemoryBase, Covers, InBlock, AlignedTo, MemorySize, TypeBits, IsIo, AddressMask;
    MemoryBlock(Bar(p, i), size, kind);
    CoversBlock(MemoryBase(Bar(p, i)), size, a);
  }

  lemma IoBarDecodes(p: Pci, i: nat, size: bv32, kind: bv32, port: bv32)
    requires IsBar(p, i, size, kind) && IoSize(size, kind)
    ensures AlignedTo(IoBase(Bar(p, i)), size)
    ensures DecodesIo(p, i, port) <==> InBlock(IoBase(Bar(p, i)), size, port)
    ensures !DecodesMemory(p, i, port)
  {
    hide Word, Bar, IoBase, Covers, InBlock, AlignedTo, IoSize, TypeBits, IsIo, AddressMask;
    IoBlock(Bar(p, i), size, kind);
    CoversBlock(IoBase(Bar(p, i)), size, port);
  }

  /** Left as the sizing leaves it, a register decodes nothing. */
  lemma ProbedDecodesNothing(p: Pci, i: nat, size: bv32, kind: bv32, a: bv32)
    requires IsBar(p, i, size, kind) && MemorySize(size, kind)
    ensures !DecodesMemory(Written(p, BarAddress(i), ONES, 4), i, a)
  {
    hide Word, MemoryBase, Covers, InBlock, AlignedTo, MemorySize, TypeBits, IsIo, AddressMask, Written;
    var q := Written(p, BarAddress(i), ONES, 4);
    WriteBar(p, i, size, kind, ONES);
    WriteKeepsBar(p, i, size, kind, Write(BarAddress(i), ONES, 4));
    MemoryBarDecodes(q, i, size, kind, a);
    TopBlock(size, kind, a);
  }

  lemma TopBlock(size: bv32, kind: bv32, a: bv32)
    requires MemorySize(size, kind)
    ensures !InBlock(MemoryBase((kind & (size - 1)) | (ONES & AddressMask(size))), size, a)
  {
  }

  /** A base that the guest writes is taken as it is exactly if it is aligned. */
  lemma WritingBase(p: Pci, i: nat, size: bv32, kind: bv32, v: bv32)
    requires IsBar(p, i, size, kind) && MemorySize(size, kind)
    ensures MemoryBase(Bar(Written(p, BarAddress(i), v, 4), i)) == v <==> AlignedTo(v, size)
  {
    hide Word, MemoryBase, AlignedTo, MemorySize, TypeBits, AddressMask, Written;
    WriteBar(p, i, size, kind, v);
    WrittenBase(size, kind, v);
  }

  lemma WrittenBase(size: bv32, kind: bv32, v: bv32)
    requires MemorySize(size, kind)
    ensures MemoryBase((kind & (size - 1)) | (v & AddressMask(size))) == v <==> AlignedTo(v, size)
  {
  }
}
