/**
The run-length coding of the logo bitmap (xbe.cpp, ImportLogoBitmap and
ExportLogoBitmap; record layout in xbe.h). A pixel counts with its high nibble.
*/
module LogoCodec {
  import opened Bytes

  /** Pixels of the bitmap. */
  const PIXELS := 1700

  /** The longest run that the encoder puts in one record; the length field has ten bits. */
  const MAX_RUN := 1024

  type nibble = n: int | 0 <= n < 16

  type Image = g: seq<byte> | |g| == PIXELS witness seq(PIXELS, _ => 0)

  function Shade(b: byte): nibble {
    b / 16
  }

  function Shades(g: seq<byte>): (s: seq<nibble>)
    ensures |s| == |g|
  {
    seq(|g|, i requires 0 <= i < |g| => Shade(g[i]))
  }

  datatype Record = Record(len: nat, shade: nibble)

  // ----- Encoding -----

  /** The length of the record that starts at pixel v, once `len` pixels are in it. The last pixel is never added. */
  function RunFrom(g: Image, v: nat, len: nat): (r: nat)
    requires 1 <= len <= MAX_RUN && v + len <= PIXELS
    requires forall i :: v <= i < v + len ==> Shade(g[i]) == Shade(g[v])
    ensures len <= r <= MAX_RUN && v + r <= PIXELS
    ensures forall i :: v <= i < v + r ==> Shade(g[i]) == Shade(g[v])
    ensures r < MAX_RUN && v + r < PIXELS - 1 ==> Shade(g[v + r]) != Shade(g[v])
    decreases MAX_RUN - len
  {
    if v + len < PIXELS - 1 && len < MAX_RUN && Shade(g[v + len]) == Shade(g[v]) then RunFrom(g, v, len + 1)
    else len
  }

  function Run(g: Image, v: nat): (r: nat)
    requires v < PIXELS
    ensures 1 <= r <= MAX_RUN && v + r <= PIXELS
    ensures forall i :: v <= i < v + r ==> Shade(g[i]) == Shade(g[v])
    ensures r < MAX_RUN && v + r < PIXELS - 1 ==> Shade(g[v + r]) != Shade(g[v])
  {
    RunFrom(g, v, 1)
  }

  function Records(g: Image, v: nat): (rs: seq<Record>)
    requires v <= PIXELS
    ensures forall r :: r in rs ==> 1 <= r.len <= MAX_RUN
    decreases PIXELS - v
  {
    if v == PIXELS then [] else [Record(Run(g, v), Shade(g[v]))] + Records(g, v + Run(g, v))
  }

  /** An 8-bit record holds lengths up to 7, a 16-bit record the low ten bits of the length. */
  function RecordBytes(r: Record): (s: seq<byte>)
    requires r.len <= MAX_RUN
    ensures |s| == if r.len <= 7 then 1 else 2
  {
    if r.len <= 7 then
      [1 + 2 * r.len + 16 * r.shade as int]
    else
      var w := 2 + 4 * (r.len % 0x400) + 0x1000 * r.shade as int;
      [w % 0x100, w / 0x100]
  }

  function Encode(rs: seq<Record>): seq<byte>
    requires forall r :: r in rs ==> r.len <= MAX_RUN
  {
    if rs == [] then [] else assert rs[0] in rs; RecordBytes(rs[0]) + Encode(rs[1..])
  }

  function EncodeImage(g: Image): seq<byte> {
    Encode(Records(g, 1))
  }

  // ----- Decoding -----

  function Repeat(n: nat, x: nibble): (s: seq<nibble>)
    ensures |s| == n && forall i :: 0 <= i < n ==> s[i] == x
  {
    seq(n, _ => x)
  }

  /** The bytes at position v: what they stand for, and how many they are. */
  function RecordAt(s: seq<byte>, v: nat): (r: Option<(Record, nat)>)
    requires v < |s|
    ensures r.Some? ==> 1 <= r.value.1 <= 2 && v + r.value.1 <= |s| && r.value.0.len < MAX_RUN
  {
    if s[v] % 2 == 1 then
      Some((Record(s[v] / 2 % 8, s[v] / 16), 1))
    else if s[v] / 2 % 2 == 1 then
      if v + 1 == |s| then None
      else
        var w := s[v] as int + 0x100 * s[v + 1] as int;
        Some((Record(w / 4 % 0x400, w / 0x1000), 2))
    else
      Some((Record(0, 0), 1))
  }

  datatype Option<+T> = None | Some(value: T)

  /** No 16-bit record is cut off by the end of the bitmap. */
  predicate Whole(s: seq<byte>, v: nat)
    requires v <= |s|
    decreases |s| - v
  {
    v == |s| || (RecordAt(s, v).Some? && Whole(s, v + RecordAt(s, v).value.1))
  }

  /** The pixels that the records from position v on stand for. */
  function Decode(s: seq<byte>, v: nat): seq<nibble>
    requires v <= |s| && Whole(s, v)
    decreases |s| - v
  {
    if v == |s| then []
    else
      var (r, used) := RecordAt(s, v).value;
      Repeat(r.len, r.shade) + Decode(s, v + used)
  }

  /** A stream of pixels at pixel 1 and on, in an image that is black elsewhere. */
  function ToImage(p: seq<nibble>): (g: Image)
    ensures g[0] == 0
    ensures forall k :: 1 <= k < PIXELS ==> g[k] == if k - 1 < |p| then 16 * p[k - 1] as int else 0
  {
    seq(PIXELS, k requires 0 <= k < PIXELS => if 1 <= k && k - 1 < |p| then 16 * p[k - 1] as int else 0)
  }

  // ----- Records survive their bytes -----

  /** The length that a record's bytes carry: 1024 does not fit ten bits and becomes 0. */
  function Carried(r: Record): Record {
    r.(len := r.len % MAX_RUN)
  }

  function Expand(rs: seq<Record>): seq<nibble> {
    if rs == [] then [] else Repeat(rs[0].len % MAX_RUN, rs[0].shade) + Expand(rs[1..])
  }

  lemma RecordRoundTrip(r: Record, s: seq<byte>, v: nat)
    requires r.len <= MAX_RUN && v + |RecordBytes(r)| <= |s|
    requires s[v..v + |RecordBytes(r)|] == RecordBytes(r)
    ensures RecordAt(s, v) == Some((Carried(r), |RecordBytes(r)|))
  {
    var b := RecordBytes(r);
    assert s[v] == s[v..v + |b|][0] == b[0];
    if r.len <= 7 {
      NarrowFields(r.len, r.shade);
    } else {
      assert s[v + 1] == s[v..v + |b|][1] == b[1];
      var w := 2 + 4 * (r.len % 0x400) + 0x1000 * r.shade as int;
      assert s[v] as int + 0x100 * s[v + 1] as int == w;
      WideFields(r.len % 0x400, r.shade);
    }
  }

  /**
  How the bytes of a record are laid out: bit 0 marks an 8-bit record with its length
  in bits 1 to 3 and its shade in bits 4 to 7; bit 1 a 16-bit one, low byte first, with
  its length in bits 2 to 11 and its shade in bits 12 to 15; any other byte is empty.
  */
  lemma RecordLayout(s: seq<byte>, v: nat, len: nat, shade: nat)
    requires v < |s| && shade < 16
    ensures len < 8 && s[v] as int == 1 + 2 * len + 16 * shade ==> RecordAt(s, v) == Some((Record(len, shade), 1))
    ensures len < 1024 && v + 1 < |s| && s[v] as int + 256 * s[v + 1] as int == 2 + 4 * len + 4096 * shade ==>
              RecordAt(s, v) == Some((Record(len, shade), 2))
    ensures s[v] % 4 == 0 ==> RecordAt(s, v) == Some((Record(0, 0), 1))
    ensures s[v] % 4 == 2 && v + 1 == |s| ==> RecordAt(s, v) == None
  {
    assert s[v] % 4 == 0 || s[v] % 4 == 2 ==> s[v] % 2 == 0 by { LowBits(s[v]); }
    assert s[v] % 4 == 0 ==> s[v] / 2 % 2 == 0 by { LowBits(s[v]); }
    assert s[v] % 4 == 2 ==> s[v] / 2 % 2 == 1 by { LowBits(s[v]); }
    if len < 8 && s[v] as int == 1 + 2 * len + 16 * shade {
      NarrowFields(len, shade);
    }
    if len < 1024 && v + 1 < |s| && s[v] as int + 256 * s[v + 1] as int == 2 + 4 * len + 4096 * shade {
      WideRecord(s, v, len, shade);
    }
  }

  lemma LowBits(b: byte)
    ensures b % 4 == 0 ==> b % 2 == 0 && b / 2 % 2 == 0
    ensures b % 4 == 2 ==> b % 2 == 0 && b / 2 % 2 == 1
  {
  }

  lemma WideRecord(s: seq<byte>, v: nat, len: nat, shade: nat)
    requires v + 1 < |s| && len < 1024 && shade < 16
    requires s[v] as int + 256 * s[v + 1] as int == 2 + 4 * len + 4096 * shade
    ensures RecordAt(s, v) == Some((Record(len, shade), 2))
  {
    WideFields(len, shade);
    LowByteIs(s[v], s[v + 1], 2 + 4 * len + 4096 * shade);
  }

  lemma LowByteIs(low: byte, high: byte, w: nat)
    requires w == low as int + 256 * high as int
    ensures low as int == w % 256
  {
  }

  lemma NarrowFields(len: nat, shade: nibble)
    requires len <= 7
    ensures var b := 1 + 2 * len + 16 * shade as int;
            b % 2 == 1 && b / 2 % 8 == len && b / 16 == shade
  {
  }

  lemma WideFields(len: nat, shade: nibble)
    requires len < 0x400
    ensures var w := 2 + 4 * len + 0x1000 * shade as int;
            && w / 4 % 0x400 == len && w / 0x1000 == shade
            && w % 0x100 % 2 == 0 && w % 0x100 / 2 % 2 == 1
  {
    var w := 2 + 4 * len + 0x1000 * shade as int;
    assert w / 4 == len + 0x400 * shade as int;
    assert w % 0x100 == w - 0x100 * (w / 0x100);
    LowByteOf(w);
  }

  lemma LowByteOf(w: nat)
    requires w % 4 == 2
    ensures w % 0x100 % 2 == 0 && w % 0x100 / 2 % 2 == 1
  {
    var low := w - 0x100 * (w / 0x100);
    assert low == w % 0x100 && low % 4 == 2;
  }

  /** Decoding the bytes of records gives the pixels they carry. */
  lemma {:induction false} DecodeEncode(rs: seq<Record>, before: seq<byte>)
    requires forall r :: r in rs ==> r.len <= MAX_RUN
    ensures var s := before + Encode(rs);
            Whole(s, |before|) && Decode(s, |before|) == Expand(rs)
    decreases |rs|
  {
    var s := before + Encode(rs);
    if rs != [] {
      assert rs[0] in rs;
      var b := RecordBytes(rs[0]);
      assert s == (before + b) + Encode(rs[1..]);
      RecordRoundTrip(rs[0], s, |before|);
      DecodeEncode(rs[1..], before + b);
    }
  }

  // ----- Lengths -----

  function TotalLength(rs: seq<Record>): nat {
    if rs == [] then 0 else rs[0].len + TotalLength(rs[1..])
  }

  /** The records cover every pixel but the first, and their bytes are no more than those pixels. */
  lemma {:induction false} LengthsAddUp(g: Image, v: nat)
    requires v <= PIXELS
    ensures TotalLength(Records(g, v)) == PIXELS - v
    ensures |Encode(Records(g, v))| <= PIXELS - v
    decreases PIXELS - v
  {
    if v < PIXELS {
      LengthsAddUp(g, v + Run(g, v));
      assert Records(g, v)[1..] == Records(g, v + Run(g, v));
    }
  }

  // ----- When an image survives -----

  /** 1024 pixels of one shade that the encoder puts in one record. */
  predicate LongRun(g: Image, w: nat) {
    w + MAX_RUN <= PIXELS - 1 && forall i :: w <= i < w + MAX_RUN ==> Shade(g[i]) == Shade(g[w])
  }

  predicate BlackFrom(g: Image, w: nat) {
    forall i :: w <= i < PIXELS ==> Shade(g[i]) == 0
  }

  /** Every run of 1024 equal pixels from v on is black, and everything after it too. */
  predicate LongRunsAreBlackTails(g: Image, v: nat) {
    forall w :: v <= w < PIXELS && LongRun(g, w) ==> BlackFrom(g, w)
  }

  /** The stream, filled up with black, shows the pixels from v on. */
  predicate Shows(p: seq<nibble>, g: Image, v: nat)
    requires v <= PIXELS
  {
    && |p| <= PIXELS - v
    && forall i :: v <= i < PIXELS ==> Shade(g[i]) == if i - v < |p| then p[i - v] else 0
  }

  lemma ShortRunStep(g: Image, v: nat, p: seq<nibble>)
    requires v < PIXELS && Run(g, v) < MAX_RUN
    ensures var r := Run(g, v);
            Shows(Repeat(r, Shade(g[v])) + p, g, v) <==> Shows(p, g, v + r)
  {
    hide Run, Shows, Repeat;
    ShortRunShows(g, v, p);
    if Shows(Repeat(Run(g, v), Shade(g[v])) + p, g, v) {
      RestShows(g, v, p);
    }
  }

  lemma ShortRunShows(g: Image, v: nat, p: seq<nibble>)
    requires v < PIXELS && Run(g, v) < MAX_RUN
    ensures var r := Run(g, v);
            Shows(p, g, v + r) ==> Shows(Repeat(r, Shade(g[v])) + p, g, v)
  {
    var r := Run(g, v);
    var q := Repeat(r, Shade(g[v])) + p;
    hide Run;
    assert forall i :: r <= i < |q| ==> q[i] == p[i - r];
  }

  lemma RestShows(g: Image, v: nat, p: seq<nibble>)
    requires v < PIXELS && Run(g, v) < MAX_RUN && Shows(Repeat(Run(g, v), Shade(g[v])) + p, g, v)
    ensures Shows(p, g, v + Run(g, v))
  {
    var r := Run(g, v);
    var q := Repeat(r, Shade(g[v])) + p;
    hide Run;
    forall i | v + r <= i < PIXELS
      ensures Shade(g[i]) == if i - (v + r) < |p| then p[i - (v + r)] else 0
    {
      assert i - v < |q| ==> q[i - v] == p[i - (v + r)];
    }
  }

  /** No long run starts inside a record that ends for another reason. */
  lemma NoLongRunInside(g: Image, v: nat, w: nat)
    requires v < PIXELS && Run(g, v) < MAX_RUN && v <= w < v + Run(g, v)
    ensures !LongRun(g, w)
  {
    var end := v + Run(g, v);
    assert w <= end < w + MAX_RUN;
    assert Shade(g[w]) == Shade(g[v]);
  }

  lemma LongRecordShows(g: Image, v: nat, p: seq<nibble>)
    requires v < PIXELS && Run(g, v) == MAX_RUN && v + MAX_RUN <= PIXELS - 1
    requires |p| == PIXELS - v - MAX_RUN && forall i :: 0 <= i < |p| ==> p[i] == Shade(g[v + MAX_RUN + i])
    ensures Shows(p, g, v) <==> BlackFrom(g, v)
  {
    if Shows(p, g, v) {
      assert Shade(g[v + |p|]) == 0;
      assert Shade(g[v]) == 0;
      forall i | v <= i < PIXELS ensures Shade(g[i]) == 0 {
        if i >= v + MAX_RUN {
          assert p[i - v - MAX_RUN] == Shade(g[i]);
          assert Shade(g[i - MAX_RUN]) == p[i - MAX_RUN - v];
        }
      }
    }
  }

  /** One record taken off the front. */
  lemma ExpandUnfolds(g: Image, v: nat)
    requires v < PIXELS
    ensures var r := Run(g, v);
            Expand(Records(g, v)) == Repeat(r % MAX_RUN, Shade(g[v])) + Expand(Records(g, v + r))
  {
    assert Records(g, v)[1..] == Records(g, v + Run(g, v));
  }

  lemma ShadesSplit(g: Image, v: nat, r: nat)
    requires v < PIXELS && v + r <= PIXELS
    requires forall i :: v <= i < v + r ==> Shade(g[i]) == Shade(g[v])
    ensures Shades(g[v..]) == Repeat(r, Shade(g[v])) + Shades(g[v + r..])
  {
  }

  /** Past a long record there is no room for another one. */
  lemma {:induction false} TailSurvives(g: Image, v: nat)
    requires PIXELS - MAX_RUN <= v <= PIXELS
    ensures Expand(Records(g, v)) == Shades(g[v..])
    decreases PIXELS - v
  {
    hide RunFrom, Run, Records, Expand;
    if v == PIXELS {
      NothingLeft(g);
      assert g[v..] == [];
    } else {
      var r := Run(g, v);
      LastIsAlone(g, v);
      ShortModulo(r);
      TailSurvives(g, v + r);
      ExpandUnfolds(g, v);
      ShadesSplit(g, v, r);
    }
  }

  lemma {:induction false} SurvivesFrom(g: Image, v: nat)
    requires 1 <= v <= PIXELS
    ensures Shows(Expand(Records(g, v)), g, v) <==> LongRunsAreBlackTails(g, v)
    decreases PIXELS - v
  {
    hide *;
    if v == PIXELS {
      NothingLeft(g);
    } else if Run(g, v) < MAX_RUN {
      SurvivesFrom(g, v + Run(g, v));
      ShortRecordStep(g, v);
    } else {
      LongRecordStep(g, v);
    }
  }

  lemma NothingLeft(g: Image)
    ensures Expand(Records(g, PIXELS)) == []
    ensures Shows(Expand(Records(g, PIXELS)), g, PIXELS) && LongRunsAreBlackTails(g, PIXELS)
  {
  }

  lemma ShortRecordStep(g: Image, v: nat)
    requires v < PIXELS && Run(g, v) < MAX_RUN
    requires var u := v + Run(g, v); Shows(Expand(Records(g, u)), g, u) <==> LongRunsAreBlackTails(g, u)
    ensures Shows(Expand(Records(g, v)), g, v) <==> LongRunsAreBlackTails(g, v)
  {
    hide *;
    ExpandUnfolds(g, v);
    ShortModulo(Run(g, v));
    ShortRunStep(g, v, Expand(Records(g, v + Run(g, v))));
    ShortRunKeepsTails(g, v);
  }

  lemma ShortModulo(r: nat)
    requires r < MAX_RUN
    ensures r % MAX_RUN == r
  {
  }

  lemma ShortRunKeepsTails(g: Image, v: nat)
    requires v < PIXELS && Run(g, v) < MAX_RUN
    ensures LongRunsAreBlackTails(g, v) <==> LongRunsAreBlackTails(g, v + Run(g, v))
  {
    forall w | v <= w < v + Run(g, v) ensures !LongRun(g, w) {
      NoLongRunInside(g, v, w);
    }
    hide Run, LongRun, BlackFrom;
  }

  lemma LongRecordStep(g: Image, v: nat)
    requires 1 <= v < PIXELS && Run(g, v) == MAX_RUN
    ensures Shows(Expand(Records(g, v)), g, v) <==> LongRunsAreBlackTails(g, v)
  {
    LastIsAlone(g, v);
    assert LongRun(g, v);
    hide Run, Records, Expand;
    ExpandUnfolds(g, v);
    TailSurvives(g, v + MAX_RUN);
    var p := Expand(Records(g, v + MAX_RUN));
    assert Repeat(0, Shade(g[v])) + p == p;
    LongRecordShows(g, v, p);
    BlackOrNot(g, v);
  }

  lemma BlackOrNot(g: Image, v: nat)
    requires v < PIXELS && LongRun(g, v)
    ensures BlackFrom(g, v) <==> LongRunsAreBlackTails(g, v)
  {
    hide LongRun;
  }

  /** The last pixel gets a record of its own, so no record is longer than 1023 near the end. */
  lemma LastIsAlone(g: Image, v: nat)
    requires v < PIXELS
    ensures v + Run(g, v) <= PIXELS - 1 || Run(g, v) == 1
  {
    if v < PIXELS - 1 {
      LastIsAloneFrom(g, v, 1);
    }
  }

  lemma {:induction false} LastIsAloneFrom(g: Image, v: nat, len: nat)
    requires 1 <= len <= MAX_RUN && v + len <= PIXELS - 1
    requires forall i :: v <= i < v + len ==> Shade(g[i]) == Shade(g[v])
    ensures v + RunFrom(g, v, len) <= PIXELS - 1
    decreases MAX_RUN - len
  {
    if v + len < PIXELS - 1 && len < MAX_RUN && Shade(g[v + len]) == Shade(g[v]) {
      LastIsAloneFrom(g, v, len + 1);
    }
  }

  /** The shades of an image from pixel 1 on, and black at pixel 0. */
  function HighNibbles(g: Image): (h: Image)
    ensures h[0] == 0
    ensures forall k :: 1 <= k < PIXELS ==> h[k] as int == g[k] as int - g[k] as int % 16
  {
    ToImage(Shades(g[1..]))
  }

  /**
  Exporting an imported image gives the high nibble of every pixel from index 1
  on and 0 at index 0, exactly when every run of 1024 equal pixels is black and
  followed by black only; in particular for every image without such a run.
  */
  lemma SurvivesIffLongRunsAreBlackTails(g: Image)
    ensures Whole(EncodeImage(g), 0)
    ensures ToImage(Decode(EncodeImage(g), 0)) == HighNibbles(g) <==> LongRunsAreBlackTails(g, 1)
  {
    hide Records, Expand, Shows, LongRunsAreBlackTails, Whole, Decode, EncodeImage, ToImage, HighNibbles;
    DecodeEncodeImage(g);
    SurvivesFrom(g, 1);
    ExpandFits(g, 1);
    ImageShows(g, Expand(Records(g, 1)));
  }

  lemma DecodeEncodeImage(g: Image)
    ensures Whole(EncodeImage(g), 0) && Decode(EncodeImage(g), 0) == Expand(Records(g, 1))
  {
    hide Records, Encode, Expand, Decode, Whole;
    DecodeEncode(Records(g, 1), []);
    assert [] + EncodeImage(g) == EncodeImage(g);
  }

  lemma ImageShows(g: Image, p: seq<nibble>)
    requires |p| <= PIXELS - 1
    ensures ToImage(p) == HighNibbles(g) <==> Shows(p, g, 1)
  {
    hide ToImage, HighNibbles;
    var t := ToImage(p);
    var h := HighNibbles(g);
    if t == h {
      forall i | 1 <= i < PIXELS
        ensures Shade(g[i]) == if i - 1 < |p| then p[i - 1] else 0
      {
        assert t[i] == h[i];
      }
    }
    if Shows(p, g, 1) {
      assert t == h;
    }
  }

  lemma {:induction false} ExpandFits(g: Image, v: nat)
    requires v <= PIXELS
    ensures |Expand(Records(g, v))| <= PIXELS - v
    decreases PIXELS - v
  {
    hide Run, Records, Expand, Repeat;
    if v < PIXELS {
      var r := Run(g, v);
      ExpandFits(g, v + r);
      ExpandUnfolds(g, v);
      LengthCarried(r, Shade(g[v]));
    } else {
      NothingExpands(g);
    }
  }

  lemma LengthCarried(r: nat, shade: nibble)
    ensures |Repeat(r % MAX_RUN, shade)| <= r
  {
  }

  lemma NothingExpands(g: Image)
    ensures Expand(Records(g, PIXELS)) == []
  {
  }

  function White(): (g: Image)
    ensures forall k :: 0 <= k < PIXELS ==> Shade(g[k]) == 15
  {
    seq(PIXELS, k => 0xF0)
  }

  /** An image that does not survive: a white one, which is one long bright run. */
  lemma WhiteImageIsLost()
    ensures Whole(EncodeImage(White()), 0)
    ensures ToImage(Decode(EncodeImage(White()), 0)) != HighNibbles(White())
  {
    hide Decode, EncodeImage, ToImage, HighNibbles, White, Whole;
    var g := White();
    SurvivesIffLongRunsAreBlackTails(g);
    assert Shade(g[1]) == 15;
    assert LongRun(g, 1) && !BlackFrom(g, 1);
  }
}
