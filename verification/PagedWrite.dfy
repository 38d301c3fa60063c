/**
Writing virtual memory: a write piece by piece is the write byte by byte, and what
can be read back afterwards.
*/
module PagedWrite {
  import opened Bytes
  import opened PhysMem
  import opened Paging

  /** Physical byte p belongs to a table entry that translating v reads. */
  predicate Touches(mem: Memory, cr3: nat, v: nat, p: nat)
    requires TablesMapped(mem, cr3, v)
  {
    var a := PdeAddr(cr3, v);
    var pde := Entry(mem, a).value;
    || a <= p < a + 4
    || (!IsLarge(pde) && IsValid(pde) && PteAddr(pde, v) <= p < PteAddr(pde, v) + 4)
  }

  /** No byte of the range is a byte of the tables that translate v. */
  predicate ClearOf(mem: Memory, cr3: nat, vaddr: nat, size: nat, v: nat)
    requires RangeMapped(mem, cr3, vaddr, size) && TablesMapped(mem, cr3, v)
  {
    forall j :: 0 <= j < size && VByte(mem, cr3, Nth(vaddr, j)).Some? ==>
      !Touches(mem, cr3, v, Phys(mem, cr3, vaddr, j))
  }

  /** The range misses the paging structures that translate it. */
  predicate ClearOfTables(mem: Memory, cr3: nat, vaddr: nat, size: nat)
    requires RangeMapped(mem, cr3, vaddr, size)
  {
    forall k :: 0 <= k < size ==> ClearOf(mem, cr3, vaddr, size, Nth(vaddr, k))
  }

  // ----- Translations survive writes elsewhere -----

  lemma StoreKeepsEntry(mem: Memory, p: nat, b: byte, a: nat)
    requires ByteAt(mem, p).Some? && !(a <= p < a + 4)
    ensures Entry(Store(mem, p, b), a) == Entry(mem, a)
  {
    StoreChangesOneByte(mem, p, b, a, 4);
  }

  lemma StoreKeepsTranslation(mem: Memory, p: nat, b: byte, cr3: nat, v: nat)
    requires ByteAt(mem, p).Some? && TablesMapped(mem, cr3, v) && !Touches(mem, cr3, v, p)
    ensures var m := Store(mem, p, b);
            && TablesMapped(m, cr3, v)
            && Translate(m, cr3, v) == Translate(mem, cr3, v)
            && forall q :: Touches(m, cr3, v, q) == Touches(mem, cr3, v, q)
  {
    var pde := Entry(mem, PdeAddr(cr3, v)).value;
    StoreKeepsEntry(mem, p, b, PdeAddr(cr3, v));
    if !IsLarge(pde) && IsValid(pde) {
      StoreKeepsEntry(mem, p, b, PteAddr(pde, v));
    }
    hide Entry, Store, PdeAddr, PteAddr, IsLarge, IsValid, InFrame, LargeFrame;
  }

  lemma {:induction false} VWriteKeepsTranslation(mem: Memory, cr3: nat, vaddr: nat, data: seq<byte>, v: nat)
    requires RangeMapped(mem, cr3, vaddr, |data|) && Backed(mem, cr3, vaddr, |data|)
    requires TablesMapped(mem, cr3, v) && ClearOf(mem, cr3, vaddr, |data|, v)
    ensures var m := VWrite(mem, cr3, vaddr, data);
            && TablesMapped(m, cr3, v)
            && Translate(m, cr3, v) == Translate(mem, cr3, v)
            && forall q :: Touches(m, cr3, v, q) == Touches(mem, cr3, v, q)
    decreases |data|
  {
    hide Touches, TablesMapped, Translate, Nth, Store, ByteAt;
    if data != [] {
      var last := |data| - 1;
      VWriteKeepsTranslation(mem, cr3, vaddr, data[..last], v);
      var m := VWrite(mem, cr3, vaddr, data[..last]);
      var p := Phys(mem, cr3, vaddr, last);
      assert VByte(mem, cr3, Nth(vaddr, last)).Some?;
      BackedStaysBacked(mem, cr3, vaddr, data[..last], p);
      StoreKeepsTranslation(m, p, data[last], cr3, v);
    }
  }

  lemma BackedStaysBacked(mem: Memory, cr3: nat, vaddr: nat, data: seq<byte>, q: nat)
    requires RangeMapped(mem, cr3, vaddr, |data|) && Backed(mem, cr3, vaddr, |data|)
    ensures ByteAt(VWrite(mem, cr3, vaddr, data), q).Some? == ByteAt(mem, q).Some?
  {
    SameFind(mem, VWrite(mem, cr3, vaddr, data), q, 1, 0);
  }

  // ----- One piece -----

  lemma BackedPrefix(mem: Memory, cr3: nat, vaddr: nat, size: nat, k: nat)
    requires RangeMapped(mem, cr3, vaddr, size) && Backed(mem, cr3, vaddr, size) && k < size
    ensures TablesMapped(mem, cr3, Nth(vaddr, k)) && Translate(mem, cr3, Nth(vaddr, k)).Some?
    ensures ByteAt(mem, Phys(mem, cr3, vaddr, k)).Some?
  {
    assert VByte(mem, cr3, Nth(vaddr, k)).Some?;
  }

  lemma VWriteOneMore(mem: Memory, cr3: nat, vaddr: nat, data: seq<byte>, n: nat)
    requires n < |data|
    requires RangeMapped(mem, cr3, vaddr, n + 1) && Backed(mem, cr3, vaddr, n + 1)
    ensures Translate(mem, cr3, Nth(vaddr, n)).Some?
    ensures var p := Phys(mem, cr3, vaddr, n);
            var m := VWrite(mem, cr3, vaddr, data[..n]);
            && ByteAt(m, p).Some?
            && VWrite(mem, cr3, vaddr, data[..n + 1]) == Store(m, p, data[n])
  {
    BackedPrefix(mem, cr3, vaddr, n + 1, n);
    BackedStaysBacked(mem, cr3, vaddr, data[..n], Phys(mem, cr3, vaddr, n));
    hide Translate, TablesMapped, Nth, Store, ByteAt;
    assert data[..n + 1][..n] == data[..n];
  }

  lemma PieceAddress(mem: Memory, cr3: nat, vaddr: nat, pos: nat, size: nat, k: nat)
    requires WithinPage(vaddr, pos, size) && k < size
    requires RangeMapped(mem, cr3, vaddr, pos + size) && Backed(mem, cr3, vaddr, pos + size)
    ensures Translate(mem, cr3, Nth(vaddr, pos)).Some? && Translate(mem, cr3, Nth(vaddr, pos + k)).Some?
    ensures Phys(mem, cr3, vaddr, pos + k) == Phys(mem, cr3, vaddr, pos) + k
  {
    BackedPrefix(mem, cr3, vaddr, pos + size, pos);
    NthWithinPage(vaddr, pos, size, k);
    TranslateWithinPage(mem, cr3, Nth(vaddr, pos), Nth(vaddr, pos + k));
    hide Translate, TablesMapped, Nth;
  }

  lemma {:induction false} StorePiece(mem: Memory, cr3: nat, vaddr: nat, data: seq<byte>, pos: nat, size: nat)
    requires WithinPage(vaddr, pos, size) && pos + size <= |data| && 0 < size
    requires RangeMapped(mem, cr3, vaddr, pos + size) && Backed(mem, cr3, vaddr, pos + size)
    ensures Translate(mem, cr3, Nth(vaddr, pos)).Some?
    ensures var p := Phys(mem, cr3, vaddr, pos);
            StoreAll(VWrite(mem, cr3, vaddr, data[..pos]), p, data[pos..pos + size])
              == Some(VWrite(mem, cr3, vaddr, data[..pos + size]))
    decreases size
  {
    hide Translate, TablesMapped, Nth, Store, ByteAt, VWrite;
    var last := size - 1;
    var piece := data[pos..pos + size];
    assert piece[..last] == data[pos..pos + last];
    PieceAddress(mem, cr3, vaddr, pos, size, last);
    VWriteOneMore(mem, cr3, vaddr, data, pos + last);
    if last > 0 {
      StorePiece(mem, cr3, vaddr, data, pos, last);
    } else {
      assert piece[..last] == [];
    }
  }

  lemma PieceBacked(mem: Memory, cr3: nat, vaddr: nat, pos: nat, size: nat, total: nat)
    requires PageAligned(mem) && WithinPage(vaddr, pos, size) && 0 < size && pos + size <= total
    requires RangeMapped(mem, cr3, vaddr, total) && Backed(mem, cr3, vaddr, pos)
    ensures var p := Translate(mem, cr3, Nth(vaddr, pos));
            if p.None? || Read(mem, p.value, size).None? then VByte(mem, cr3, Nth(vaddr, pos)).None?
            else Backed(mem, cr3, vaddr, pos + size)
  {
    hide Translate, TablesMapped, Nth, Read;
    forall k | pos <= k < pos + size
      ensures var p := Translate(mem, cr3, Nth(vaddr, pos));
              VByte(mem, cr3, Nth(vaddr, k)).None? == (p.None? || Read(mem, p.value, size).None?)
    {
      ReadPiece(mem, cr3, vaddr, pos, size, k - pos);
    }
  }

  lemma WriteLikeRead(mem: Memory, m: Memory, p: nat, data: seq<byte>)
    requires SameShape(mem, m)
    ensures Write(m, p, data).None? == Read(mem, p, |data|).None?
  {
    SameFind(mem, m, p, |data|, 0);
  }

  /**
  One translation and one physical write do what the byte-by-byte write does to
  the piece, and fail exactly when it would fail on the piece's first byte.
  */
  lemma WritePiece(mem: Memory, cr3: nat, vaddr: nat, data: seq<byte>, pos: nat, size: nat)
    requires PageAligned(mem) && WithinPage(vaddr, pos, size) && pos + size <= |data| && 0 < size
    requires RangeMapped(mem, cr3, vaddr, |data|) && Backed(mem, cr3, vaddr, pos)
    ensures var m := VWrite(mem, cr3, vaddr, data[..pos]);
            var p := Translate(mem, cr3, Nth(vaddr, pos));
            var w := if p.None? then None else Write(m, p.value, data[pos..pos + size]);
            && (w.None? ==> VByte(mem, cr3, Nth(vaddr, pos)).None?)
            && (w.Some? ==> Backed(mem, cr3, vaddr, pos + size)
                            && w.value == VWrite(mem, cr3, vaddr, data[..pos + size]))
  {
    hide Translate, TablesMapped, Nth, Read, Write, StoreAll, VByte;
    var m := VWrite(mem, cr3, vaddr, data[..pos]);
    var p := Translate(mem, cr3, Nth(vaddr, pos));
    PieceBacked(mem, cr3, vaddr, pos, size, |data|);
    if p.Some? {
      var piece := data[pos..pos + size];
      WriteLikeRead(mem, m, p.value, piece);
      if Write(m, p.value, piece).Some? {
        ShapeKeepsAligned(mem, m);
        WriteWithinPage(m, p.value, piece);
        StorePiece(mem, cr3, vaddr, data, pos, size);
      }
    }
  }

  // ----- Reading back -----

  /** The last k < n whose byte of the range is at physical address q. */
  function LastAt(mem: Memory, cr3: nat, vaddr: nat, n: nat, q: nat): (k: Option<nat>)
    requires RangeMapped(mem, cr3, vaddr, n)
    ensures k.Some? ==> k.value < n && Translate(mem, cr3, Nth(vaddr, k.value)) == Some(q)
    ensures forall j :: 0 <= j < n && (k.Some? ==> k.value < j) ==> Translate(mem, cr3, Nth(vaddr, j)) != Some(q)
  {
    if n == 0 then None
    else if Translate(mem, cr3, Nth(vaddr, n - 1)) == Some(q) then Some(n - 1)
    else LastAt(mem, cr3, vaddr, n - 1, q)
  }

  /** After a write, a physical byte holds the last byte written to it, or what it held before. */
  lemma {:induction false} WrittenByte(mem: Memory, cr3: nat, vaddr: nat, data: seq<byte>, q: nat)
    requires RangeMapped(mem, cr3, vaddr, |data|) && Backed(mem, cr3, vaddr, |data|)
    ensures var k := LastAt(mem, cr3, vaddr, |data|, q);
            ByteAt(VWrite(mem, cr3, vaddr, data), q) == if k.None? then ByteAt(mem, q) else Some(data[k.value])
    decreases |data|
  {
    hide Translate, TablesMapped, Nth, Store, ByteAt;
    if data != [] {
      var last := |data| - 1;
      WrittenByte(mem, cr3, vaddr, data[..last], q);
      BackedPrefix(mem, cr3, vaddr, |data|, last);
      var p := Phys(mem, cr3, vaddr, last);
      BackedStaysBacked(mem, cr3, vaddr, data[..last], p);
      StoreKeepsOtherBytes(VWrite(mem, cr3, vaddr, data[..last]), p, data[last], q);
    }
  }

  lemma StoreKeepsOtherBytes(mem: Memory, p: nat, b: byte, q: nat)
    requires ByteAt(mem, p).Some?
    ensures ByteAt(Store(mem, p, b), q) == if q == p then Some(b) else ByteAt(mem, q)
  {
    StoreChangesOneByte(mem, p, b, q, 1);
  }

  /** A write changes no physical byte outside the range. */
  lemma WriteKeepsOutside(mem: Memory, cr3: nat, vaddr: nat, data: seq<byte>, q: nat)
    requires RangeMapped(mem, cr3, vaddr, |data|) && Backed(mem, cr3, vaddr, |data|)
    requires forall k :: 0 <= k < |data| ==> Translate(mem, cr3, Nth(vaddr, k)) != Some(q)
    ensures ByteAt(VWrite(mem, cr3, vaddr, data), q) == ByteAt(mem, q)
  {
    hide Translate, TablesMapped, Nth, ByteAt;
    WrittenByte(mem, cr3, vaddr, data, q);
  }

  /** Bytes of the range that share a physical byte are given equal values. */
  predicate AliasesAgree(mem: Memory, cr3: nat, vaddr: nat, data: seq<byte>)
    requires RangeMapped(mem, cr3, vaddr, |data|)
  {
    forall j, k ::
      0 <= j < k < |data| && Translate(mem, cr3, Nth(vaddr, j)) == Translate(mem, cr3, Nth(vaddr, k)) ==>
        data[j] == data[k]
  }

  /** Reading the range gives `data`. */
  predicate Reads(mem: Memory, cr3: nat, vaddr: nat, data: seq<byte>)
    requires RangeMapped(mem, cr3, vaddr, |data|)
  {
    forall k :: 0 <= k < |data| ==> VByte(mem, cr3, Nth(vaddr, k)) == Some(data[k])
  }

  lemma WrittenVByte(mem: Memory, cr3: nat, vaddr: nat, data: seq<byte>, k: nat)
    requires k < |data|
    requires RangeMapped(mem, cr3, vaddr, |data|) && Backed(mem, cr3, vaddr, |data|)
    requires ClearOfTables(mem, cr3, vaddr, |data|)
    ensures Translate(mem, cr3, Nth(vaddr, k)).Some?
    ensures var m := VWrite(mem, cr3, vaddr, data);
            var last := LastAt(mem, cr3, vaddr, |data|, Phys(mem, cr3, vaddr, k));
            && TablesMapped(m, cr3, Nth(vaddr, k))
            && Translate(m, cr3, Nth(vaddr, k)) == Translate(mem, cr3, Nth(vaddr, k))
            && last.Some? && k <= last.value
            && VByte(m, cr3, Nth(vaddr, k)) == Some(data[last.value])
  {
    hide Translate, TablesMapped, Nth, ByteAt;
    BackedPrefix(mem, cr3, vaddr, |data|, k);
    VWriteKeepsTranslation(mem, cr3, vaddr, data, Nth(vaddr, k));
    WrittenByte(mem, cr3, vaddr, data, Phys(mem, cr3, vaddr, k));
  }

  /** A write that misses the paging structures leaves the range mapped as it was. */
  lemma WriteKeepsRange(mem: Memory, cr3: nat, vaddr: nat, data: seq<byte>)
    requires RangeMapped(mem, cr3, vaddr, |data|) && Backed(mem, cr3, vaddr, |data|)
    requires ClearOfTables(mem, cr3, vaddr, |data|)
    ensures RangeMapped(VWrite(mem, cr3, vaddr, data), cr3, vaddr, |data|)
    ensures Backed(VWrite(mem, cr3, vaddr, data), cr3, vaddr, |data|)
  {
    hide TablesMapped, Nth, VByte, VWrite, Translate, LastAt;
    var m := VWrite(mem, cr3, vaddr, data);
    forall k | 0 <= k < |data|
      ensures TablesMapped(m, cr3, Nth(vaddr, k)) && VByte(m, cr3, Nth(vaddr, k)).Some?
    {
      WrittenVByte(mem, cr3, vaddr, data, k);
    }
  }

  /**
  Reading back a range that was written clear of the paging structures returns
  the data exactly when bytes of the range that share a physical byte were given
  equal values.
  */
  lemma ReadBackIffAliasesAgree(mem: Memory, cr3: nat, vaddr: nat, data: seq<byte>)
    requires RangeMapped(mem, cr3, vaddr, |data|) && Backed(mem, cr3, vaddr, |data|)
    requires ClearOfTables(mem, cr3, vaddr, |data|)
    ensures RangeMapped(VWrite(mem, cr3, vaddr, data), cr3, vaddr, |data|)
    ensures Reads(VWrite(mem, cr3, vaddr, data), cr3, vaddr, data) <==> AliasesAgree(mem, cr3, vaddr, data)
  {
    hide TablesMapped, Nth, VByte, VWrite, Translate, LastAt;
    WriteKeepsRange(mem, cr3, vaddr, data);
    if AliasesAgree(mem, cr3, vaddr, data) {
      forall k | 0 <= k < |data|
        ensures VByte(VWrite(mem, cr3, vaddr, data), cr3, Nth(vaddr, k)) == Some(data[k])
      {
        WrittenVByte(mem, cr3, vaddr, data, k);
      }
    } else {
      var j, k :| 0 <= j < k < |data|
        && Translate(mem, cr3, Nth(vaddr, j)) == Translate(mem, cr3, Nth(vaddr, k)) && data[j] != data[k];
      WrittenVByte(mem, cr3, vaddr, data, j);
      WrittenVByte(mem, cr3, vaddr, data, k);
    }
  }
}
