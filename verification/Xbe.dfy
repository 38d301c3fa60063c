/**
The logo bitmap inside an executable image: the part of the Xbe class (xbe.cpp)
that finds it, replaces it and shows it.
*/
module XbeImage {
  import opened Bytes
  import opened LogoCodec

  /** sizeof(Header) */
  const HEADER_SIZE := 0x178

  /** Where GetAddr finds a virtual address. */
  datatype Place = InHeader(offset: nat) | InExtra(offset: nat) | InSection(index: nat, offset: nat) | Nowhere

  class Xbe {
    var dwBaseAddr: word
    var dwSizeofHeaders: word
    var dwLogoBitmapAddr: word
    var dwSizeofLogoBitmap: word
    /** The virtual address and size of each section. */
    var sections: seq<(word, word)>
    /** m_HeaderEx: what the file has after the header structure. */
    const headerEx: array<byte>
    /** GetError() != 0 */
    var error: bool

    constructor (headerEx: array<byte>)
      ensures this.headerEx == headerEx && !error
    {
      this.headerEx := headerEx;
      dwBaseAddr, dwSizeofHeaders, dwLogoBitmapAddr, dwSizeofLogoBitmap := 0, 0, 0, 0;
      sections, error := [], false;
    }

    /** dwLogoBitmapAddr - dwBaseAddr in uint32 arithmetic. */
    function LogoOffset(): word
      reads this
    {
      (dwLogoBitmapAddr + (WORD - dwBaseAddr)) % WORD
    }

    function FindSection(addr: word, v: nat): (p: Place)
      requires v <= |sections|
      reads this
      ensures p.Nowhere? || p.InSection?
      decreases |sections| - v
    {
      if v == |sections| then Nowhere
      else if sections[v].0 <= addr < (sections[v].0 + sections[v].1) % WORD then InSection(v, addr - sections[v].0)
      else FindSection(addr, v + 1)
    }

    function GetAddr(addr: word): Place
      reads this
    {
      var dwOffs := (addr + (WORD - dwBaseAddr)) % WORD;
      if dwOffs < HEADER_SIZE then InHeader(dwOffs)
      else if dwOffs < dwSizeofHeaders then InExtra(dwOffs - HEADER_SIZE)
      else FindSection(addr, 0)
    }

    /** A logo bitmap that the headers announce lies after the header structure and within the bytes kept of it. */
    predicate LogoInBounds()
      reads this
    {
      LogoOffset() != 0 && dwSizeofLogoBitmap != 0 && LogoOffset() < dwSizeofHeaders ==>
        && HEADER_SIZE <= LogoOffset()
        && LogoOffset() + dwSizeofLogoBitmap <= dwSizeofHeaders <= HEADER_SIZE + headerEx.Length
    }

    /** There is a bitmap in the headers, of at least the given size. */
    predicate HasRoom(size: nat)
      reads this
    {
      && LogoOffset() != 0 && dwSizeofLogoBitmap != 0
      && size <= dwSizeofLogoBitmap && LogoOffset() < dwSizeofHeaders
    }

    /**
    The offset of the bitmap is its address less the base address, around 2^32; there
    is room if that is within the headers, not zero, and the bitmap large enough.
    */
    lemma HasRoomMeans(size: nat)
      requires size > 0
      ensures LogoOffset() as int == (dwLogoBitmapAddr as int - dwBaseAddr as int) % 0x1_0000_0000
      ensures HasRoom(size) <==>
                && dwLogoBitmapAddr != dwBaseAddr && size <= dwSizeofLogoBitmap
                && (dwLogoBitmapAddr as int - dwBaseAddr as int) % 0x1_0000_0000 < dwSizeofHeaders
    {
      OffsetIs(dwLogoBitmapAddr, dwBaseAddr);
    }

    /** The bytes of the bitmap. */
    function Logo(): seq<byte>
      requires HEADER_SIZE <= LogoOffset()
      requires LogoOffset() - HEADER_SIZE + dwSizeofLogoBitmap <= headerEx.Length
      reads this, headerEx
    {
      headerEx[LogoOffset() - HEADER_SIZE..LogoOffset() - HEADER_SIZE + dwSizeofLogoBitmap]
    }

    /** Shrinks the bitmap to `size` bytes and finds it, or answers Nowhere. */
    method GetLogoBitmap(size: nat) returns (place: Place)
      requires LogoInBounds() && 0 < size
      modifies this`dwSizeofHeaders, this`dwSizeofLogoBitmap
      ensures old(HasRoom(size)) ==>
                && place == InExtra(LogoOffset() - HEADER_SIZE)
                && dwSizeofLogoBitmap == size
                && dwSizeofHeaders == old(dwSizeofHeaders) - old(dwSizeofLogoBitmap) + size
                && LogoInBounds()
      ensures !old(HasRoom(size)) ==>
                && place == Nowhere
                && dwSizeofHeaders == old(dwSizeofHeaders) && dwSizeofLogoBitmap == old(dwSizeofLogoBitmap)
    {
      var dwOffs := LogoOffset();
      var dwLength := dwSizeofLogoBitmap;
      if dwOffs == 0 || dwLength == 0 {
        return Nowhere;
      }
      if dwLength >= size {
        if dwOffs < dwSizeofHeaders {
          dwSizeofHeaders := (dwSizeofHeaders + (WORD - dwLength)) % WORD;
          dwSizeofHeaders := (dwSizeofHeaders + size) % WORD;
          dwSizeofLogoBitmap := size;
          return GetAddr(dwLogoBitmapAddr);
        }
      }
      return Nowhere;
    }

    /** The encoding loops of ImportLogoBitmap: fills the front of LogoBuffer and returns the size used. */
    method EncodeLogo(gray: array<byte>, logoBuffer: array<byte>) returns (logoSize: nat)
      requires gray.Length == PIXELS && logoBuffer.Length == 4 * 1024 && gray != logoBuffer
      modifies logoBuffer
      ensures 0 < logoSize < PIXELS && logoSize <= logoBuffer.Length
      ensures logoBuffer[..logoSize] == EncodeImage(gray[..])
    {
      hide Encode, Records, RecordBytes, Run;
      ghost var g: Image := gray[..];
      logoSize := 0;
      var v := 1;
      EncodeFits(g, 1);
      assert logoBuffer[..0] + Encode(Records(g, 1)) == Encode(Records(g, 1));
      while v < PIXELS
        invariant 1 <= v <= PIXELS && logoSize <= logoBuffer.Length
        invariant gray[..] == g
        invariant logoBuffer[..logoSize] + Encode(Records(g, v)) == Encode(Records(g, 1))
        invariant logoSize + |Encode(Records(g, v))| == |Encode(Records(g, 1))| < PIXELS
        invariant v == 1 || 0 < logoSize
      {
        EncodeUnfolds(g, v);
        var color: nibble := gray[v] / 16;
        var len := ScanRun(gray, v);
        ghost var done := logoBuffer[..logoSize];
        logoSize := PutRecord(logoBuffer, logoSize, len, color);
        v := v + len;
        Regroup(done, RecordBytes(Record(len, color)), Encode(Records(g, v)));
      }
      NothingToEncode(g);
    }

    /** The inner loop of ImportLogoBitmap: how many pixels from v on have one shade, counted up to 1024. */
    static method ScanRun(gray: array<byte>, v: nat) returns (len: nat)
      requires gray.Length == PIXELS && v < PIXELS
      ensures len == Run(gray[..], v)
    {
      ghost var g: Image := gray[..];
      len := 1;
      var u := v + 1;
      while u < PIXELS - 1 && len < 1024 && gray[v] / 16 == gray[u] / 16
        invariant 1 <= len <= 1024 && u == v + len <= PIXELS
        invariant forall i :: v <= i < u ==> Shade(g[i]) == Shade(g[v])
        invariant RunFrom(g, v, len) == Run(g, v)
        decreases PIXELS - u
      {
        len := len + 1;
        u := u + 1;
      }
    }

    /** Writes one record through the LogoRLE union. */
    method PutRecord(logoBuffer: array<byte>, logoSize: nat, len: nat, color: nibble) returns (size: nat)
      requires 1 <= len <= MAX_RUN
      requires logoSize + |RecordBytes(Record(len, color))| <= logoBuffer.Length
      modifies logoBuffer
      ensures size == logoSize + |RecordBytes(Record(len, color))|
      ensures logoBuffer[..size] == old(logoBuffer[..logoSize]) + RecordBytes(Record(len, color))
    {
      size := logoSize;
      if len <= 7 {
        logoBuffer[size] := 1 + 2 * len + 16 * color as int;
      } else {
        var w := 2 + 4 * (len % 0x400) + 0x1000 * color as int;
        logoBuffer[size], logoBuffer[size + 1] := w % 0x100, w / 0x100;
        size := size + 1;
      }
      size := size + 1;
    }

    /**
    Encodes the image and stores it if the file has room for it; otherwise the
    file keeps its logo and an error is set.
    */
    method ImportLogoBitmap(gray: array<byte>)
      requires gray.Length == PIXELS && gray != headerEx && LogoInBounds()
      modifies this`dwSizeofHeaders, this`dwSizeofLogoBitmap, this`error, headerEx
      ensures var code := EncodeImage(gray[..]);
              if old(HasRoom(|code|)) then
                && LogoInBounds() && HasRoom(|code|) && dwSizeofLogoBitmap == |code|
                && Logo() == code
                && headerEx[..LogoOffset() - HEADER_SIZE] == old(headerEx[..LogoOffset() - HEADER_SIZE])
                && headerEx[LogoOffset() - HEADER_SIZE + |code|..]
                     == old(headerEx[LogoOffset() - HEADER_SIZE + |code|..])
                && error == old(error)
              else
                && headerEx[..] == old(headerEx[..])
                && dwSizeofLogoBitmap == old(dwSizeofLogoBitmap) && dwSizeofHeaders == old(dwSizeofHeaders)
                && error
    {
      hide EncodeImage;
      ghost var g := gray[..];
      ghost var code := EncodeImage(g);
      ghost var room := HasRoom(|code|);
      var logoBuffer := new byte[4 * 1024];
      var logoSize := EncodeLogo(gray, logoBuffer);
      assert gray[..] == g && logoBuffer[..logoSize] == code;
      assert HasRoom(logoSize) == room == old(HasRoom(|code|));
      var place := GetLogoBitmap(logoSize);
      if place == Nowhere {
        error := true;
        assert gray[..] == g;
        return;
      }
      var at := place.offset;
      forall k | 0 <= k < logoSize {
        headerEx[at + k] := logoBuffer[k];
      }
      assert gray[..] == g;
      assert Logo() == logoBuffer[..logoSize];
    }

    /** Reads the record at position v of the bitmap through the LogoRLE union, and gives the position after it. */
    method FetchRecord(at: nat, v: nat) returns (len: nat, data: nibble, next: nat)
      requires at == LogoOffset() - HEADER_SIZE && at + dwSizeofLogoBitmap <= headerEx.Length
      requires v < dwSizeofLogoBitmap && RecordAt(Logo(), v).Some?
      ensures RecordAt(Logo(), v) == Some((Record(len, data), next - v))
    {
      len, data, next := 0, 0, v;
      var b := headerEx[at + v];
      assert b == Logo()[v];
      if b % 2 == 1 {
        len := b / 2 % 8;
        data := b / 16;
      } else {
        if b / 2 % 2 == 1 {
          assert headerEx[at + v + 1] == Logo()[v + 1];
          var w := b as int + 0x100 * headerEx[at + v + 1] as int;
          len := w / 4 % 0x400;
          data := w / 0x1000;
          next := next + 1;
        }
      }
      next := next + 1;
    }

    /** The inner loop of ExportLogoBitmap: shows one record's pixels after the o-th. */
    static method ShowRun(gray: array<byte>, o: nat, len: nat, data: nibble, ghost before: seq<nibble>)
      returns (next: nat)
      requires gray.Length == PIXELS && gray[..] == ToImage(before) && o == |before|
      modifies gray
      ensures gray[..] == ToImage(before + Repeat(len, data))
      ensures next == o + len
    {
      next := o;
      var j := 0;
      assert before + Repeat(0, data) == before;
      while j < len
        invariant 0 <= j <= len && next == o + j
        invariant gray[..] == ToImage(before + Repeat(j, data))
      {
        next := next + 1;
        if next < PIXELS {
          gray[next] := 16 * data as int;
        }
        j := j + 1;
      }
    }

    /** Shows the logo: a black image if there is none or an error is pending. */
    method ExportLogoBitmap(gray: array<byte>)
      requires gray.Length == PIXELS && gray != headerEx
      requires var p := GetAddr(dwLogoBitmapAddr);
               || p.Nowhere?
               || (p.InExtra? && LogoOffset() - HEADER_SIZE + dwSizeofLogoBitmap <= headerEx.Length
                   && Whole(Logo(), 0))
      modifies gray
      ensures gray[..] ==
                if GetAddr(dwLogoBitmapAddr).Nowhere? || error then ToImage([]) else ToImage(Decode(Logo(), 0))
    {
      forall k | 0 <= k < PIXELS {
        gray[k] := 0;
      }
      assert gray[..] == ToImage([]);
      var place := GetAddr(dwLogoBitmapAddr);
      if place.Nowhere? || error {
        return;
      }
      hide Decode, ToImage, Whole, RecordAt;
      ShowLogo(gray, place.offset);
    }

    /** The loop of ExportLogoBitmap, over a black image. */
    method ShowLogo(gray: array<byte>, at: nat)
      requires gray.Length == PIXELS && gray != headerEx && gray[..] == ToImage([])
      requires at == LogoOffset() - HEADER_SIZE && at + dwSizeofLogoBitmap <= headerEx.Length && Whole(Logo(), 0)
      modifies gray
      ensures gray[..] == ToImage(Decode(Logo(), 0))
    {
      hide Decode, ToImage, RecordAt;
      ghost var s := Logo();
      ghost var all := Decode(s, 0);
      ghost var shown: seq<nibble> := [];
      var o := 0;
      var v := 0;
      while v < dwSizeofLogoBitmap
        invariant 0 <= v <= dwSizeofLogoBitmap && Logo() == s && Whole(s, v)
        invariant shown + Decode(s, v) == all && o == |shown|
        invariant gray[..] == ToImage(shown)
      {
        ghost var u := v;
        var len, data;
        len, data, v := FetchRecord(at, v);
        ghost var before := shown;
        o := ShowRun(gray, o, len, data, before);
        shown := before + Repeat(len, data);
        DecodeUnfolds(s, u);
        Regroup(before, Repeat(len, data), Decode(s, v));
      }
      DecodeEnds(s);
      assert shown == all;
    }
  }

  /**
  A logo that fits is shown again with the high nibbles of its pixels, exactly
  when its runs of 1024 equal pixels are black tails.
  */
  method ImportThenExport(x: Xbe, gray: array<byte>, shown: array<byte>)
    requires gray.Length == shown.Length == PIXELS
    requires gray != shown && gray != x.headerEx && shown != x.headerEx
    requires x.LogoInBounds() && x.HasRoom(|EncodeImage(gray[..])|) && !x.error
    modifies x, x.headerEx, shown
    ensures gray[..] == old(gray[..])
    ensures shown[..] == HighNibbles(gray[..]) <==> LongRunsAreBlackTails(gray[..], 1)
  {
    hide EncodeImage, Whole, Decode, ToImage, HighNibbles, LongRunsAreBlackTails;
    ghost var g := gray[..];
    x.ImportLogoBitmap(gray);
    SurvivesIffLongRunsAreBlackTails(g);
    x.ExportLogoBitmap(shown);
    assert gray[..] == g;
  }

  lemma OffsetIs(addr: word, base: word)
    ensures var offset := (addr as int - base as int) % 0x1_0000_0000;
      (addr + (WORD - base)) % WORD == offset && 0 <= offset && (offset == 0 <==> addr == base)
  {
  }

  lemma DecodeUnfolds(s: seq<byte>, v: nat)
    requires v < |s| && Whole(s, v)
    ensures var (r, used) := RecordAt(s, v).value;
            Whole(s, v + used) && Decode(s, v) == Repeat(r.len, r.shade) + Decode(s, v + used)
  {
  }

  lemma Regroup<T>(a: seq<T>, b: seq<T>, c: seq<T>)
    ensures a + (b + c) == (a + b) + c
  {
  }

  lemma NothingToEncode(g: Image)
    ensures forall done: seq<byte> :: done + Encode(Records(g, PIXELS)) == done
  {
  }

  lemma DecodeEnds(s: seq<byte>)
    ensures Decode(s, |s|) == []
  {
  }

  lemma EncodeUnfolds(g: Image, v: nat)
    requires v < PIXELS
    ensures Encode(Records(g, v)) == RecordBytes(Record(Run(g, v), Shade(g[v]))) + Encode(Records(g, v + Run(g, v)))
  {
    assert Records(g, v)[1..] == Records(g, v + Run(g, v));
  }

  lemma EncodeFits(g: Image, v: nat)
    requires v <= PIXELS
    ensures |Encode(Records(g, v))| <= PIXELS - v
  {
    LengthsAddUp(g, v);
  }
}
