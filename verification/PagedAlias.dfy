/** A range in which two virtual pages share a physical one, and data that does not survive it. */
module PagedAlias {
  import opened Bytes
  import opened PhysMem
  import opened Paging
  import opened PagedWrite

  const SIZE := PAGE + 1

  /**
  Two pages of memory at address 0. The first four bytes are the directory entry
  of a large page whose frame number has bit 0 set, so that the virtual pages 0
  and 1 both go to physical page 1.
  */
  function Aliased(): (m: Memory) {
    [Region(0, [0x80, 0x10, 0, 0] + seq(2 * PAGE - 4, k => 0))]
  }

  lemma DirectoryEntry()
    ensures Entry(Aliased(), 0) == Some(0x1080)
  {
    var m := Aliased();
    assert Holds(m[0], 0, 4);
    assert Find(m, 0, 4, 0) == 0;
    assert m[0].bytes[0..4] == [0x80, 0x10, 0, 0];
  }

  lemma BothPagesShareAFrame(page: nat)
    requires page <= 1
    ensures Or(1, page, 10) == 1
  {
    NothingOrNothing(9);
  }

  lemma NothingOrNothing(n: nat)
    ensures Or(0, 0, n) == 0
  {
  }

  lemma AliasedFrame(v: nat)
    requires v < 2 * PAGE
    ensures LargeFrame(0x1080, v) == 1
  {
    hide Or;
    assert v / PAGE <= 1;
    BothPagesShareAFrame(v / PAGE);
    assert FrameNumber(0x1080) == 1;
  }

  lemma LowAddress(v: nat)
    requires v < 2 * PAGE
    ensures PdeAddr(0, v) == 0 && IsLarge(0x1080) && InFrame(1, v) == PAGE + v % PAGE
  {
    assert v / 0x40_0000 == 0;
  }

  lemma AliasedTranslation(v: nat)
    requires v < 2 * PAGE
    ensures TablesMapped(Aliased(), 0, v) && Translate(Aliased(), 0, v) == Some(PAGE + v % PAGE)
    ensures PdeAddr(0, v) == 0
  {
    DirectoryEntry();
    AliasedFrame(v);
    LowAddress(v);
    hide Aliased, Entry, LargeFrame, PdeAddr, PteAddr, InFrame, IsLarge;
  }

  lemma AliasedByte(p: nat)
    requires p < 2 * PAGE
    ensures ByteAt(Aliased(), p).Some?
  {
    assert Find(Aliased(), p, 1, 0) == 0;
  }

  lemma AliasedRange()
    ensures var m := Aliased();
            RangeMapped(m, 0, 0, SIZE) && Backed(m, 0, 0, SIZE) && ClearOfTables(m, 0, 0, SIZE)
  {
    var m := Aliased();
    DirectoryEntry();
    hide Aliased, Translate, TablesMapped, Entry;
    forall k | 0 <= k < SIZE
      ensures Nth(0, k) == k && TablesMapped(m, 0, k) && VByte(m, 0, k).Some? && PdeAddr(0, k) == 0
      ensures PAGE <= Translate(m, 0, k).value
    {
      AliasedTranslation(k);
      AliasedByte(PAGE + k % PAGE);
    }
  }

  /** Bytes 0 and 4096 of the range are one physical byte, and the second overwrites the first. */
  lemma AliasedDataIsLost(data: seq<byte>)
    requires |data| == SIZE && data[0] != data[PAGE]
    ensures var m := Aliased();
            && RangeMapped(m, 0, 0, SIZE) && Backed(m, 0, 0, SIZE) && ClearOfTables(m, 0, 0, SIZE)
            && RangeMapped(VWrite(m, 0, 0, data), 0, 0, SIZE)
            && !Reads(VWrite(m, 0, 0, data), 0, 0, data)
  {
    var m := Aliased();
    AliasedRange();
    AliasedTranslation(0);
    AliasedTranslation(PAGE);
    hide Aliased, Translate, TablesMapped, VWrite, Reads, Backed, ClearOfTables;
    assert Nth(0, 0) == 0 && Nth(0, PAGE) == PAGE;
    assert !AliasesAgree(m, 0, 0, data);
    ReadBackIffAliasesAgree(m, 0, 0, data);
  }
}
