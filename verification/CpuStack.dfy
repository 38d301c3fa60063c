/** Push and Pop on top of virtual memory (cpu.cpp), and runs of them. */
module CpuStack {
  import opened Bytes
  import opened PhysMem
  import opened Paging
  import opened PagedWrite

  datatype Core = Core(mem: Memory, cr3: nat, esp: nat)

  /** esp - 4 in uint32_t arithmetic. */
  function Below(esp: nat): nat {
    (esp + (WORD - 4)) % WORD
  }

  function Above(esp: nat): nat {
    (esp + 4) % WORD
  }

  /** A successful Push. */
  function Pushed(c: Core, value: word): Core
    requires RangeMapped(c.mem, c.cr3, Below(c.esp), 4) && Backed(c.mem, c.cr3, Below(c.esp), 4)
  {
    Core(VWrite(c.mem, c.cr3, Below(c.esp), BytesOf(value)), c.cr3, Below(c.esp))
  }

  /** The word that a successful Pop returns. */
  function Top(c: Core): word
    requires RangeMapped(c.mem, c.cr3, c.esp, 4) && Backed(c.mem, c.cr3, c.esp, 4)
  {
    WordOf(seq(4, k requires 0 <= k < 4 => VByte(c.mem, c.cr3, Nth(c.esp, k)).value))
  }

  /** Pushes all of `values`, first one first; None if a push fails. */
  function PushAll(c: Core, values: seq<word>): Option<Core>
    decreases |values|
  {
    if values == [] then Some(c)
    else if RangeMapped(c.mem, c.cr3, Below(c.esp), 4) && Backed(c.mem, c.cr3, Below(c.esp), 4) then
      PushAll(Pushed(c, values[0]), values[1..])
    else None
  }

  /** Pops n words; None if a pop fails. */
  function PopAll(c: Core, n: nat): Option<(seq<word>, Core)>
    decreases n
  {
    if n == 0 then Some(([], c))
    else if RangeMapped(c.mem, c.cr3, c.esp, 4) && Backed(c.mem, c.cr3, c.esp, 4) then
      var rest := PopAll(c.(esp := Above(c.esp)), n - 1);
      if rest.None? then None else Some(([Top(c)] + rest.value.0, rest.value.1))
    else None
  }

  function Reverse(s: seq<word>): (r: seq<word>)
    ensures |r| == |s|
    ensures forall i :: 0 <= i < |s| ==> r[i] == s[|s| - 1 - i]
  {
    if s == [] then [] else Reverse(s[1..]) + [s[0]]
  }

  // ----- Windows of virtual memory -----

  /** A mapped range clear of the paging structures whose bytes are all different physical bytes. */
  predicate GoodWindow(mem: Memory, cr3: nat, base: nat, size: nat) {
    && RangeMapped(mem, cr3, base, size)
    && Backed(mem, cr3, base, size)
    && ClearOfTables(mem, cr3, base, size)
    && forall j, k :: 0 <= j < k < size ==> Translate(mem, cr3, Nth(base, j)) != Translate(mem, cr3, Nth(base, k))
  }

  lemma NthNth(base: nat, o: nat, k: nat)
    ensures Nth(Nth(base, o), k) == Nth(base, o + k)
  {
    var q := (base + o) / WORD;
    assert base + o == q * WORD + Nth(base, o);
    var t := Nth(base, o) + k;
    assert base + (o + k) == q * WORD + t;
    AddMultiple(t, q);
  }

  lemma AddMultiple(t: nat, q: nat)
    ensures (q * WORD + t) % WORD == t % WORD
  {
  }

  lemma SubWindow(mem: Memory, cr3: nat, base: nat, size: nat, o: nat, n: nat)
    requires GoodWindow(mem, cr3, base, size) && o + n <= size
    ensures GoodWindow(mem, cr3, Nth(base, o), n)
  {
    hide TablesMapped, Translate, VByte, Touches, Nth;
    forall k | 0 <= k < n ensures Nth(Nth(base, o), k) == Nth(base, o + k) {
      NthNth(base, o, k);
    }
    forall k | 0 <= k < n
      ensures TablesMapped(mem, cr3, Nth(Nth(base, o), k)) && VByte(mem, cr3, Nth(Nth(base, o), k)).Some?
    {
      assert TablesMapped(mem, cr3, Nth(base, o + k));
    }
    SubWindowClear(mem, cr3, base, size, o, n);
  }

  /** A part of a window is clear of the tables of every address of the window. */
  lemma PartIsClear(mem: Memory, cr3: nat, base: nat, size: nat, o: nat, n: nat, k: nat)
    requires RangeMapped(mem, cr3, base, size) && ClearOfTables(mem, cr3, base, size) && o + n <= size
    requires RangeMapped(mem, cr3, Nth(base, o), n) && k < size
    ensures ClearOf(mem, cr3, Nth(base, o), n, Nth(base, k))
  {
    hide TablesMapped, Translate, Touches, Nth, ByteAt;
    assert ClearOf(mem, cr3, base, size, Nth(base, k));
    forall j | 0 <= j < n && VByte(mem, cr3, Nth(Nth(base, o), j)).Some?
      ensures !Touches(mem, cr3, Nth(base, k), Phys(mem, cr3, Nth(base, o), j))
    {
      NthNth(base, o, j);
      assert VByte(mem, cr3, Nth(base, o + j)).Some?;
    }
  }

  lemma SubWindowClear(mem: Memory, cr3: nat, base: nat, size: nat, o: nat, n: nat)
    requires RangeMapped(mem, cr3, base, size) && ClearOfTables(mem, cr3, base, size) && o + n <= size
    requires RangeMapped(mem, cr3, Nth(base, o), n)
    ensures ClearOfTables(mem, cr3, Nth(base, o), n)
  {
    hide TablesMapped, Nth, ClearOf;
    forall k | 0 <= k < n
      ensures ClearOf(mem, cr3, Nth(base, o), n, Nth(Nth(base, o), k))
    {
      NthNth(base, o, k);
      PartIsClear(mem, cr3, base, size, o, n, o + k);
    }
  }

  // ----- One write inside a window -----

  /** The bytes of a window after `data` is written at offset o of it: the data there, and the old bytes elsewhere. */
  lemma WriteInWindow(mem: Memory, cr3: nat, base: nat, size: nat, o: nat, data: seq<byte>, k: nat)
    requires GoodWindow(mem, cr3, base, size) && o + |data| <= size && k < size
    requires GoodWindow(mem, cr3, Nth(base, o), |data|)
    ensures var m := VWrite(mem, cr3, Nth(base, o), data);
            && TablesMapped(m, cr3, Nth(base, k))
            && Translate(m, cr3, Nth(base, k)) == Translate(mem, cr3, Nth(base, k))
            && (forall q :: Touches(m, cr3, Nth(base, k), q) == Touches(mem, cr3, Nth(base, k), q))
            && VByte(m, cr3, Nth(base, k))
                 == if o <= k < o + |data| then Some(data[k - o]) else VByte(mem, cr3, Nth(base, k))
  {
    hide TablesMapped, Touches, Nth, ByteAt, VWrite, Translate;
    var at := Nth(base, o);
    PartIsClear(mem, cr3, base, size, o, |data|, k);
    VWriteKeepsTranslation(mem, cr3, at, data, Nth(base, k));
    BackedPrefix(mem, cr3, base, size, k);
    var q := Phys(mem, cr3, base, k);
    WrittenByte(mem, cr3, at, data, q);
    if o <= k < o + |data| {
      NthNth(base, o, k - o);
      assert Translate(mem, cr3, Nth(at, k - o)) == Some(q);
    }
    var last := LastAt(mem, cr3, at, |data|, q);
    if last.Some? {
      NthNth(base, o, last.value);
      assert Translate(mem, cr3, Nth(base, o + last.value)) == Some(q);
      assert o + last.value == k;
    }
  }

  lemma WindowStaysGood(mem: Memory, cr3: nat, base: nat, size: nat, o: nat, data: seq<byte>)
    requires GoodWindow(mem, cr3, base, size) && o + |data| <= size
    requires GoodWindow(mem, cr3, Nth(base, o), |data|)
    ensures GoodWindow(VWrite(mem, cr3, Nth(base, o), data), cr3, base, size)
  {
    hide TablesMapped, Touches, Nth, ByteAt, VWrite, Translate;
    var m := VWrite(mem, cr3, Nth(base, o), data);
    forall k | 0 <= k < size
      ensures TablesMapped(m, cr3, Nth(base, k))
      ensures VByte(m, cr3, Nth(base, k)).Some?
      ensures Translate(m, cr3, Nth(base, k)) == Translate(mem, cr3, Nth(base, k))
      ensures forall q :: Touches(m, cr3, Nth(base, k), q) == Touches(mem, cr3, Nth(base, k), q)
    {
      assert VByte(mem, cr3, Nth(base, k)).Some?;
      WriteInWindow(mem, cr3, base, size, o, data, k);
    }
    forall k | 0 <= k < size
      ensures ClearOf(m, cr3, base, size, Nth(base, k))
    {
      assert ClearOf(mem, cr3, base, size, Nth(base, k));
      forall j | 0 <= j < size && VByte(m, cr3, Nth(base, j)).Some?
        ensures !Touches(m, cr3, Nth(base, k), Phys(m, cr3, base, j))
      {
        assert VByte(mem, cr3, Nth(base, j)).Some?;
      }
    }
  }

  // ----- Pushes and pops -----

  lemma BelowNth(base: nat, o: nat)
    requires 4 <= o
    ensures Below(Nth(base, o)) == Nth(base, o - 4)
  {
    var q := (base + o) / WORD;
    assert base + o == q * WORD + Nth(base, o);
    assert base + (o - 4) + WORD == q * WORD + (Nth(base, o) + (WORD - 4));
    AddMultiple(Nth(base, o) + (WORD - 4), q);
    AddMultiple(base + (o - 4), 1);
  }

  lemma AboveNth(base: nat, o: nat)
    ensures Above(Nth(base, o)) == Nth(base, o + 4)
  {
    NthNth(base, o, 4);
  }

  /** The word at offset o of a window. */
  predicate HoldsWord(mem: Memory, cr3: nat, base: nat, size: nat, o: nat, w: word)
    requires RangeMapped(mem, cr3, base, size) && o + 4 <= size
  {
    forall j :: 0 <= j < 4 ==> VByte(mem, cr3, Nth(base, o + j)) == Some(BytesOf(w)[j])
  }

  lemma TopIsWord(c: Core, base: nat, size: nat, o: nat, w: word)
    requires RangeMapped(c.mem, c.cr3, base, size) && o + 4 <= size && c.esp == Nth(base, o)
    requires HoldsWord(c.mem, c.cr3, base, size, o, w)
    ensures RangeMapped(c.mem, c.cr3, c.esp, 4) && Backed(c.mem, c.cr3, c.esp, 4)
    ensures Top(c) == w
  {
    hide TablesMapped, Nth, VByte, BytesOf, WordOf;
    forall j | 0 <= j < 4
      ensures TablesMapped(c.mem, c.cr3, Nth(c.esp, j))
      ensures VByte(c.mem, c.cr3, Nth(c.esp, j)) == Some(BytesOf(w)[j])
    {
      NthNth(base, o, j);
      assert VByte(c.mem, c.cr3, Nth(base, o + j)) == Some(BytesOf(w)[j]);
    }
    assert seq(4, k requires 0 <= k < 4 => VByte(c.mem, c.cr3, Nth(c.esp, k)).value) == BytesOf(w);
    WordRoundTrip(w);
  }

  /** A window holds `words` from offset o up. */
  predicate HoldsWords(mem: Memory, cr3: nat, base: nat, size: nat, o: nat, words: seq<word>)
    requires RangeMapped(mem, cr3, base, size) && o + 4 * |words| <= size
  {
    forall i :: 0 <= i < |words| ==> HoldsWord(mem, cr3, base, size, o + 4 * i, words[i])
  }

  lemma {:induction false} PopsReturn(c: Core, base: nat, size: nat, o: nat, words: seq<word>)
    requires RangeMapped(c.mem, c.cr3, base, size) && o + 4 * |words| <= size && c.esp == Nth(base, o)
    requires HoldsWords(c.mem, c.cr3, base, size, o, words)
    ensures PopAll(c, |words|) == Some((words, c.(esp := Nth(base, o + 4 * |words|))))
    decreases |words|
  {
    hide TablesMapped, Nth, VByte, HoldsWord, Top, Backed, RangeMapped, Above;
    if words != [] {
      assert HoldsWord(c.mem, c.cr3, base, size, o + 4 * 0, words[0]);
      TopIsWord(c, base, size, o, words[0]);
      AboveNth(base, o);
      forall i | 0 <= i < |words[1..]|
        ensures HoldsWord(c.mem, c.cr3, base, size, o + 4 + 4 * i, words[1..][i])
      {
        assert HoldsWord(c.mem, c.cr3, base, size, o + 4 * (i + 1), words[i + 1]);
      }
      PopsReturn(c.(esp := Above(c.esp)), base, size, o + 4, words[1..]);
      assert [words[0]] + words[1..] == words;
    }
  }

  /** A push stores the word's bytes, lowest first, in the four bytes below ESP, around the end of the address space. */
  lemma PushStores(c: Core, value: word, k: nat)
    requires k < 4 && c.esp < 0x1_0000_0000
    requires GoodWindow(c.mem, c.cr3, (c.esp + 0xFFFF_FFFC) % 0x1_0000_0000, 4)
    ensures RangeMapped(c.mem, c.cr3, Below(c.esp), 4) && Backed(c.mem, c.cr3, Below(c.esp), 4)
    ensures var d := Pushed(c, value);
      var at := (c.esp + 0xFFFF_FFFC + k) % 0x1_0000_0000;
      && d.esp == (c.esp + 0xFFFF_FFFC) % 0x1_0000_0000
      && TablesMapped(d.mem, d.cr3, at)
      && VByte(d.mem, d.cr3, at)
           == Some([value % 256, value / 256 % 256, value / 65536 % 256, value / 16777216 % 256][k])
  {
    hide TablesMapped, VByte, VWrite, Translate, Touches, ClearOf, ClearOfTables;
    var base := Below(c.esp);
    NthNth(c.esp, 0xFFFF_FFFC, k);
    assert Nth(base, 0) == base;
    assert value / 16777216 < 256;
    WriteInWindow(c.mem, c.cr3, base, 4, 0, BytesOf(value), k);
  }

  /** A push into a window: it succeeds, the window stays good, and only the pushed word changes. */
  lemma PushInWindow(c: Core, base: nat, size: nat, o: nat, value: word)
    requires GoodWindow(c.mem, c.cr3, base, size) && 4 <= o <= size && c.esp == Nth(base, o)
    ensures RangeMapped(c.mem, c.cr3, Below(c.esp), 4) && Backed(c.mem, c.cr3, Below(c.esp), 4)
    ensures var d := Pushed(c, value);
            && d.esp == Nth(base, o - 4)
            && GoodWindow(d.mem, d.cr3, base, size)
            && HoldsWord(d.mem, d.cr3, base, size, o - 4, value)
            && forall k :: 0 <= k < size && !(o - 4 <= k < o) ==>
                 VByte(d.mem, d.cr3, Nth(base, k)) == VByte(c.mem, c.cr3, Nth(base, k))
  {
    hide TablesMapped, Nth, VByte, BytesOf, VWrite, Translate, Touches, ClearOf, Below;
    BelowNth(base, o);
    SubWindow(c.mem, c.cr3, base, size, o - 4, 4);
    WindowStaysGood(c.mem, c.cr3, base, size, o - 4, BytesOf(value));
    forall k | 0 <= k < size
      ensures var m := VWrite(c.mem, c.cr3, Nth(base, o - 4), BytesOf(value));
              VByte(m, c.cr3, Nth(base, k))
                == if o - 4 <= k < o then Some(BytesOf(value)[k - (o - 4)]) else VByte(c.mem, c.cr3, Nth(base, k))
    {
      WriteInWindow(c.mem, c.cr3, base, size, o - 4, BytesOf(value), k);
    }
  }

  lemma {:induction false} PushesHold(c: Core, base: nat, size: nat, o: nat, values: seq<word>)
    requires GoodWindow(c.mem, c.cr3, base, size) && 4 * |values| <= o <= size && c.esp == Nth(base, o)
    ensures PushAll(c, values).Some?
    ensures var d := PushAll(c, values).value;
            && d.cr3 == c.cr3
            && d.esp == Nth(base, o - 4 * |values|)
            && GoodWindow(d.mem, d.cr3, base, size)
            && HoldsWords(d.mem, d.cr3, base, size, o - 4 * |values|, Reverse(values))
            && forall k :: o <= k < size ==> VByte(d.mem, d.cr3, Nth(base, k)) == VByte(c.mem, c.cr3, Nth(base, k))
    decreases |values|
  {
    hide TablesMapped, Nth, VByte, BytesOf, VWrite, Translate, Touches, ClearOf, Below, Pushed, ClearOfTables;
    if values != [] {
      PushInWindow(c, base, size, o, values[0]);
      var e := Pushed(c, values[0]);
      assert e.cr3 == c.cr3 by { PushedKeepsCr3(c, values[0]); }
      PushesHold(e, base, size, o - 4, values[1..]);
      var d := PushAll(c, values).value;
      var n := |values|;
      forall i | 0 <= i < n
        ensures HoldsWord(d.mem, d.cr3, base, size, o - 4 * n + 4 * i, Reverse(values)[i])
      {
        if i < n - 1 {
          assert Reverse(values)[i] == Reverse(values[1..])[i];
        } else {
          assert o - 4 * n + 4 * i == o - 4;
          assert HoldsWord(e.mem, e.cr3, base, size, o - 4, values[0]);
        }
      }
    }
  }

  lemma PushedKeepsCr3(c: Core, value: word)
    requires RangeMapped(c.mem, c.cr3, Below(c.esp), 4) && Backed(c.mem, c.cr3, Below(c.esp), 4)
    ensures Pushed(c, value).cr3 == c.cr3
  {
  }

  /**
  On a mapped, unaliased stack clear of the page tables, any number of pushes
  followed by as many pops returns the values in reverse order and restores ESP,
  also for words that straddle a page or the end of the address space.
  */
  lemma PushesThenPops(c: Core, base: nat, values: seq<word>)
    requires c.esp == Nth(base, 4 * |values|) && GoodWindow(c.mem, c.cr3, base, 4 * |values|)
    ensures PushAll(c, values).Some?
    ensures var d := PushAll(c, values).value;
            PopAll(d, |values|) == Some((Reverse(values), d.(esp := c.esp)))
  {
    hide *;
    var size := 4 * |values|;
    PushesHold(c, base, size, size, values);
    WindowIsMapped(PushAll(c, values).value.mem, c.cr3, base, size);
    PopsReturn(PushAll(c, values).value, base, size, 0, Reverse(values));
  }

  lemma WindowIsMapped(mem: Memory, cr3: nat, base: nat, size: nat)
    requires GoodWindow(mem, cr3, base, size)
    ensures RangeMapped(mem, cr3, base, size)
  {
  }
}
