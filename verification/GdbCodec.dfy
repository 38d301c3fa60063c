/**
The encodings of the GDB remote protocol (gdbserver.cpp; the "Overview" section of
the GDB Remote Serial Protocol appendix in Debugging with GDB): hex digits,
escaped binary data, and packets framed with a checksum.
*/
module GdbCodec {
  import opened Bytes

  datatype Option<+T> = None | Some(value: T)

  const START: byte := 0x24    // '$'
  const HASH: byte := 0x23     // '#'
  const ESCAPE: byte := 0x7D   // '}'
  const STAR: byte := 0x2A     // '*'
  const PLUS: byte := 0x2B     // '+'
  const MINUS: byte := 0x2D    // '-'
  /** Read through a signed char, this byte is the same number as EOF. */
  const EOF_BYTE: byte := 0xFF

  // ----- Hex -----

  function Digit(v: nat): byte
    requires v < 16
  {
    if v < 10 then 0x30 + v else 0x61 + (v - 10)
  }

  /** dbg_get_val for base 16. */
  function DigitValue(b: byte): (v: Option<nat>)
    ensures v.Some? ==> v.value < 16
  {
    if 0x30 <= b <= 0x39 then Some(b as int - 0x30)
    else if 0x61 <= b <= 0x66 then Some(b as int - 0x61 + 10)
    else if 0x41 <= b <= 0x46 then Some(b as int - 0x41 + 10)
    else None
  }

  function EncodeHex(d: seq<byte>): (s: seq<byte>)
    ensures |s| == 2 * |d|
  {
    if d == [] then []
    else
      var last := d[|d| - 1];
      EncodeHex(d[..|d| - 1]) + [Digit(last / 16), Digit(last % 16)]
  }

  function DecodeHex(s: seq<byte>): (d: Option<seq<byte>>)
    requires |s| % 2 == 0
    ensures d.Some? ==> 2 * |d.value| == |s|
  {
    if s == [] then Some([])
    else
      var n := |s|;
      var front := DecodeHex(s[..n - 2]);
      var high := DigitValue(s[n - 2]);
      var low := DigitValue(s[n - 1]);
      if front.None? || high.None? || low.None? then None
      else Some(front.value + [16 * high.value + low.value])
  }

  lemma DigitRoundTrip(v: nat)
    requires v < 16
    ensures DigitValue(Digit(v)) == Some(v)
  {
  }

  lemma DecodeHexOneMore(s: seq<byte>, d: seq<byte>, b: byte)
    requires 2 <= |s| && |s| % 2 == 0
    requires DecodeHex(s[..|s| - 2]) == Some(d)
    requires s[|s| - 2] == Digit(b / 16) && s[|s| - 1] == Digit(b % 16)
    ensures DecodeHex(s) == Some(d + [b])
  {
    hide Digit, DigitValue;
    DigitRoundTrip(b / 16);
    DigitRoundTrip(b % 16);
  }

  lemma DecodeHexEmpty()
    ensures DecodeHex([]) == Some([])
  {
  }

  lemma {:induction false} HexRoundTrip(d: seq<byte>)
    ensures DecodeHex(EncodeHex(d)) == Some(d)
    decreases |d|
  {
    hide Digit, DecodeHex;
    if d == [] {
      DecodeHexEmpty();
    } else {
      var last := d[|d| - 1];
      HexRoundTrip(d[..|d| - 1]);
      var s := EncodeHex(d);
      assert s[..|s| - 2] == EncodeHex(d[..|d| - 1]);
      DecodeHexOneMore(s, d[..|d| - 1], last);
      assert d == d[..|d| - 1] + [last];
    }
  }

  /** The lower-case ASCII digit of a number below 16. */
  function Ascii(v: nat): nat
    requires v < 16
  {
    [0x30, 0x31, 0x32, 0x33, 0x34, 0x35, 0x36, 0x37, 0x38, 0x39, 0x61, 0x62, 0x63, 0x64, 0x65, 0x66][v]
  }

  /** Byte k is encoded as two lower-case digits, the one of its high half first. */
  lemma {:induction false} HexDigits(d: seq<byte>, k: nat)
    requires k < |d|
    ensures EncodeHex(d)[2 * k] as int == Ascii(d[k] / 16)
    ensures EncodeHex(d)[2 * k + 1] as int == Ascii(d[k] % 16)
    decreases |d|
  {
    if k < |d| - 1 {
      HexDigits(d[..|d| - 1], k);
    }
  }

  /** Two bytes are decoded exactly if they are digits, of either case from 10 on. */
  lemma HexValues(a: byte, b: byte, v: byte)
    ensures DecodeHex([a, b]) == Some([v]) <==> IsDigit(a, v / 16) && IsDigit(b, v % 16)
  {
    hide DigitValue, DecodeHex, IsDigit;
    TwoDigits(a, b);
    DigitIs(a, v / 16);
    DigitIs(b, v % 16);
  }

  lemma TwoDigits(a: byte, b: byte)
    ensures var h, l := DigitValue(a), DigitValue(b);
      DecodeHex([a, b]) == if h.None? || l.None? then None else Some([16 * h.value + l.value])
  {
    hide DigitValue;
    DecodeHexEmpty();
    var s := [a, b];
    assert s[..0] == [] && s[|s| - 2] == a && s[|s| - 1] == b;
    assert DecodeHex(s[..|s| - 2]) == Some([]);
    var n: seq<byte> := [];
    var h, l := DigitValue(a), DigitValue(b);
    if h.Some? && l.Some? {
      assert n + [16 * h.value + l.value] == [16 * h.value + l.value];
    }
  }

  lemma DigitIs(b: byte, v: nat)
    requires v < 16
    ensures DigitValue(b) == Some(v) <==> IsDigit(b, v)
  {
  }

  predicate IsDigit(b: byte, v: nat)
    requires v < 16
  {
    b as int == Ascii(v) || (v >= 10 && b as int == Ascii(v) - 0x20)
  }

  // ----- Escaped binary data -----

  /** b ^ 0x20 */
  function Flip(b: byte): byte {
    if b / 0x20 % 2 == 1 then b - 0x20 else b + 0x20
  }

  predicate Special(b: byte) {
    b == START || b == HASH || b == ESCAPE || b == STAR
  }

  function EscapeByte(b: byte): (s: seq<byte>)
    ensures 1 <= |s| <= 2
  {
    if Special(b) then [ESCAPE, Flip(b)] else [b]
  }

  function EncodeBin(d: seq<byte>): seq<byte> {
    if d == [] then [] else EncodeBin(d[..|d| - 1]) + EscapeByte(d[|d| - 1])
  }

  /** None for data that ends within an escape. */
  function DecodeBin(s: seq<byte>): Option<seq<byte>> {
    if s == [] then Some([])
    else if s[0] == ESCAPE then
      if |s| == 1 then None
      else
        var rest := DecodeBin(s[2..]);
        if rest.None? then None else Some([Flip(s[1])] + rest.value)
    else
      var rest := DecodeBin(s[1..]);
      if rest.None? then None else Some([s[0]] + rest.value)
  }

  lemma FlipTwice(b: byte)
    ensures Flip(Flip(b)) == b
  {
  }

  lemma {:induction false} DecodeBinAppend(s: seq<byte>, t: seq<byte>)
    requires DecodeBin(s).Some? && DecodeBin(t).Some?
    ensures DecodeBin(s + t) == Some(DecodeBin(s).value + DecodeBin(t).value)
    decreases |s|
  {
    if s == [] {
      assert s + t == t;
      assert [] + DecodeBin(t).value == DecodeBin(t).value;
    } else {
      var used := if s[0] == ESCAPE then 2 else 1;
      DecodeBinAppend(s[used..], t);
      assert (s + t)[used..] == s[used..] + t;
      var head := if s[0] == ESCAPE then Flip(s[1]) else s[0];
      var a, b := DecodeBin(s[used..]).value, DecodeBin(t).value;
      assert ([head] + a) + b == [head] + (a + b);
    }
  }

  lemma DecodeEscapedByte(b: byte)
    ensures DecodeBin(EscapeByte(b)) == Some([b])
  {
    var s := EscapeByte(b);
    assert s[|s|..] == [];
    assert DecodeBin([]) == Some([]);
    assert [b] + [] == [b];
    FlipTwice(b);
  }

  /** Escaping loses nothing. */
  lemma {:induction false} BinRoundTrip(d: seq<byte>)
    ensures DecodeBin(EncodeBin(d)) == Some(d)
    decreases |d|
  {
    if d != [] {
      var b := d[|d| - 1];
      BinRoundTrip(d[..|d| - 1]);
      FlipTwice(b);
      DecodeEscapedByte(b);
      DecodeBinAppend(EncodeBin(d[..|d| - 1]), EscapeByte(b));
      assert d[..|d| - 1] + [b] == d;
    }
  }

  /** The four special bytes are sent as '}' and a replacement, all others as they are. */
  lemma EscapeCodes(b: byte)
    ensures EncodeBin([b]) ==
      if b == 0x24 then [0x7D, 0x04] else if b == 0x23 then [0x7D, 0x03] else if b == 0x7D then [0x7D, 0x5D]
      else if b == 0x2A then [0x7D, 0x0A] else [b]
  {
    assert [b][..0] == [] && EncodeBin([]) + EscapeByte(b) == EscapeByte(b);
  }

  lemma {:induction false} EscapeAppend(a: seq<byte>, b: seq<byte>)
    ensures EncodeBin(a + b) == EncodeBin(a) + EncodeBin(b)
    decreases |b|
  {
    if b == [] {
      assert a + b == a && EncodeBin(a) + [] == EncodeBin(a);
    } else {
      var last := |b| - 1;
      assert (a + b)[..|a + b| - 1] == a + b[..last];
      EscapeAppend(a, b[..last]);
      assert (EncodeBin(a) + EncodeBin(b[..last])) + EscapeByte(b[last])
        == EncodeBin(a) + (EncodeBin(b[..last]) + EscapeByte(b[last]));
    }
  }

  /** Escaped data can be framed as it is: no mark of the framing, and '}' only in front of an escaped byte. */
  predicate Frameable(s: seq<byte>) {
    && START !in s && HASH !in s && STAR !in s
    && forall i :: 0 <= i < |s| && s[i] == ESCAPE ==> i + 1 < |s| && Special(Flip(s[i + 1]))
  }

  lemma {:induction false} EncodedIsFrameable(d: seq<byte>)
    ensures Frameable(EncodeBin(d))
    ensures EOF_BYTE in EncodeBin(d) <==> EOF_BYTE in d
    decreases |d|
  {
    if d != [] {
      var front := EncodeBin(d[..|d| - 1]);
      var b := d[|d| - 1];
      EncodedIsFrameable(d[..|d| - 1]);
      FlipTwice(b);
      assert d == d[..|d| - 1] + [b];
      var s := front + EscapeByte(b);
      forall i | 0 <= i < |s| && s[i] == ESCAPE
        ensures i + 1 < |s| && Special(Flip(s[i + 1]))
      {
        if i < |front| {
          assert front[i] == ESCAPE;
        }
      }
    }
  }

  // ----- Packets -----

  function Sum(d: seq<byte>): nat {
    if d == [] then 0 else Sum(d[..|d| - 1]) + d[|d| - 1] as int
  }

  function Checksum(d: seq<byte>): byte {
    Sum(d) % 0x100
  }

  /** What dbg_send_packet sends. */
  function Frame(d: seq<byte>): seq<byte> {
    [START] + d + [HASH] + EncodeHex([Checksum(d)])
  }

  lemma {:induction false} SumAppend(a: seq<byte>, b: seq<byte>)
    ensures Sum(a + b) == Sum(a) + Sum(b)
    decreases |b|
  {
    if b == [] {
      assert a + b == a;
    } else {
      assert (a + b)[..|a + b| - 1] == a + b[..|b| - 1];
      SumAppend(a, b[..|b| - 1]);
    }
  }

  /** The checksum is the sum of the bytes modulo 256, empty data having the sum 0. */
  lemma ChecksumIsSum(a: seq<byte>, b: byte, c: seq<byte>)
    ensures Checksum([]) as int == 0
    ensures Checksum([b]) == b
    ensures Checksum(a + c) as int == (Checksum(a) as int + Checksum(c) as int) % 256
  {
    assert [b][..0] == [];
    SumAppend(a, c);
    ModuloOfSum(Sum(a), Sum(c));
    hide Sum;
  }

  lemma ModuloOfSum(m: nat, n: nat)
    ensures (m + n) % 256 == (m % 256 + n % 256) % 256
  {
  }

  /** A packet ends in '#' and the two digits of its checksum, high one first. */
  lemma FrameEnds(d: seq<byte>)
    ensures Frame(d) == [0x24] + d + [0x23, Ascii(Checksum(d) / 16), Ascii(Checksum(d) % 16)]
  {
    var c := Checksum(d);
    HexDigits([c], 0);
    assert EncodeHex([c]) == [EncodeHex([c])[0], EncodeHex([c])[1]];
    hide EncodeHex, Checksum;
  }

  /** The reply OK as it is sent: "$OK#9a". */
  lemma OkIsFramed()
    ensures Frame([0x4F, 0x4B]) == [0x24, 0x4F, 0x4B, 0x23, 0x39, 0x61]
  {
    hide Frame, Checksum;
    var d: seq<byte> := [0x4F, 0x4B];
    assert d == [0x4F] + [0x4B];
    ChecksumIsSum([0x4F], 0x4F, [0x4B]);
    ChecksumIsSum([0x4F], 0x4B, [0x4B]);
    FrameEnds(d);
    assert Ascii(9) == 0x39 && Ascii(10) == 0x61;
    hide Ascii;
  }

  /** Past the next START; false when the stream ends, or shows EOF, before one. */
  function SkipToStart(input: seq<byte>): (bool, seq<byte>) {
    if input == [] then (false, [])
    else if input[0] == EOF_BYTE then (false, input[1..])
    else if input[0] == START then (true, input[1..])
    else SkipToStart(input[1..])
  }

  /** The bytes up to HASH, at most `room` of them, and what is left after the last byte consumed. */
  function TakeBody(input: seq<byte>, room: nat): (Option<seq<byte>>, seq<byte>)
    decreases |input|
  {
    if input == [] then (None, [])
    else if input[0] == EOF_BYTE then (None, input[1..])
    else if input[0] == HASH then (Some([]), input[1..])
    else if room == 0 then (None, input[1..])
    else
      var (body, rest) := TakeBody(input[1..], room - 1);
      (if body.None? then None else Some([input[0]] + body.value), rest)
  }

  /** The next n bytes, none of which shows EOF. */
  function TakeBytes(input: seq<byte>, n: nat): (r: (Option<seq<byte>>, seq<byte>))
    ensures r.0.Some? ==> |r.0.value| == n
  {
    if n == 0 then (Some([]), input)
    else if input == [] then (None, [])
    else if input[0] == EOF_BYTE then (None, input[1..])
    else
      var (bytes, rest) := TakeBytes(input[1..], n - 1);
      (if bytes.None? then None else Some([input[0]] + bytes.value), rest)
  }

  /** `packet` is None when EOF is returned; `rest` is the unread input, `answer` what is sent back. */
  datatype Received = Received(packet: Option<seq<byte>>, rest: seq<byte>, answer: seq<byte>)

  /** dbg_recv_packet into a buffer of the given size. */
  function Receive(input: seq<byte>, room: nat): Received {
    var (found, afterStart) := SkipToStart(input);
    if !found then Received(None, afterStart, [])
    else
      var (body, afterBody) := TakeBody(afterStart, room);
      if body.None? then Received(None, afterBody, [])
      else
        var (digits, rest) := TakeBytes(afterBody, 2);
        if digits.None? then Received(None, rest, [])
        else
          var expected := DecodeHex(digits.value);
          if expected.None? then Received(None, rest, [])
          else if expected.value != [Checksum(body.value)] then Received(None, rest, [MINUS])
          else Received(body, rest, [PLUS])
  }

  // ----- What is received of what was sent -----

  /** Bytes that can precede a packet without being read as its start or as EOF. */
  predicate Noise(s: seq<byte>) {
    START !in s && EOF_BYTE !in s
  }

  /** Data that reaches the other end in one packet. */
  predicate Sendable(d: seq<byte>) {
    HASH !in d && EOF_BYTE !in d
  }

  lemma {:induction false} SkipNoise(noise: seq<byte>, rest: seq<byte>)
    requires Noise(noise)
    ensures SkipToStart(noise + [START] + rest) == (true, rest)
    decreases |noise|
  {
    var s := noise + [START] + rest;
    if noise == [] {
      assert s == [START] + rest;
    } else {
      assert s[1..] == noise[1..] + [START] + rest;
      SkipNoise(noise[1..], rest);
    }
  }

  lemma {:induction false} TakeSendable(d: seq<byte>, rest: seq<byte>, room: nat)
    requires Sendable(d) && |d| <= room
    ensures TakeBody(d + [HASH] + rest, room) == (Some(d), rest)
    decreases |d|
  {
    var s := d + [HASH] + rest;
    if d == [] {
      assert s == [HASH] + rest;
    } else {
      assert s[1..] == d[1..] + [HASH] + rest;
      TakeSendable(d[1..], rest, room - 1);
      assert [d[0]] + d[1..] == d;
    }
  }

  /** Whatever is received fits the buffer and is sendable. */
  lemma {:induction false} TakenIsSendable(s: seq<byte>, room: nat)
    ensures var (body, rest) := TakeBody(s, room);
            body.Some? ==> Sendable(body.value) && |body.value| <= room
    decreases |s|
  {
    if s != [] && room > 0 {
      TakenIsSendable(s[1..], room - 1);
    }
  }

  lemma TakeTwo(a: byte, b: byte, rest: seq<byte>)
    requires a != EOF_BYTE && b != EOF_BYTE
    ensures TakeBytes([a, b] + rest, 2) == (Some([a, b]), rest)
  {
    var s := [a, b] + rest;
    assert s[1..] == [b] + rest && s[1..][1..] == rest;
    assert TakeBytes(rest, 0) == (Some([]), rest);
    assert [b] + [] == [b] && [a] + [b] == [a, b];
    assert TakeBytes(s[1..], 1) == (Some([b]), rest);
  }

  /**
  A body with the checksum digits of some data: received and acknowledged if the
  checksums agree, refused with '-' if not, and read to the end either way.
  */
  lemma ReceiveWithChecksum(noise: seq<byte>, body: seq<byte>, data: seq<byte>, rest: seq<byte>, room: nat)
    requires Noise(noise) && Sendable(body) && |body| <= room
    ensures Receive(noise + [START] + body + [HASH] + EncodeHex([Checksum(data)]) + rest, room)
         == if Checksum(body) == Checksum(data) then Received(Some(body), rest, [0x2B])
            else Received(None, rest, [0x2D])
  {
    var c := Checksum(data);
    var digits := EncodeHex([c]);
    HexRoundTrip([c]);
    assert [c][..0] == [];
    assert digits == [Digit(c / 16), Digit(c % 16)];
    var s := noise + [START] + body + [HASH] + digits + rest;
    assert s == noise + [START] + (body + [HASH] + (digits + rest));
    SkipNoise(noise, body + [HASH] + (digits + rest));
    TakeSendable(body, digits + rest, room);
    TakeTwo(digits[0], digits[1], rest);
  }

  /**
  Round trip of a packet: after any noise, the frame of `data` is received as
  exactly `data`, answered '+', with the rest left unread, exactly when the data
  fits and contains neither '#' nor 0xFF.
  */
  lemma PacketRoundTrip(noise: seq<byte>, data: seq<byte>, rest: seq<byte>, room: nat)
    requires Noise(noise)
    ensures Receive(noise + Frame(data) + rest, room) == Received(Some(data), rest, [0x2B])
       <==> Sendable(data) && |data| <= room
  {
    var s := noise + Frame(data) + rest;
    if Sendable(data) && |data| <= room {
      ReceiveWithChecksum(noise, data, data, rest, room);
      assert s == noise + [START] + data + [HASH] + EncodeHex([Checksum(data)]) + rest;
    } else {
      TakenIsSendable(SkipToStart(s).1, room);
    }
  }

  lemma {:induction false} TakeTooMuch(d: seq<byte>, rest: seq<byte>, room: nat)
    requires Sendable(d) && |d| == room + 1
    ensures TakeBody(d + rest, room) == (None, rest)
    decreases |d|
  {
    var s := d + rest;
    assert s[1..] == d[1..] + rest;
    if room == 0 {
      assert d[1..] == [];
    } else {
      TakeTooMuch(d[1..], rest, room - 1);
    }
  }

  /** A body longer than the buffer is given up with the first byte that does not fit, unanswered. */
  lemma TooLongIsGivenUp(noise: seq<byte>, d: seq<byte>, rest: seq<byte>, room: nat)
    requires Noise(noise) && Sendable(d) && |d| == room + 1
    ensures Receive(noise + [0x24] + d + rest, room) == Received(None, rest, [])
  {
    assert noise + [0x24] + d + rest == noise + [START] + (d + rest);
    SkipNoise(noise, d + rest);
    TakeTooMuch(d, rest, room);
  }

  /** So is a packet whose checksum is not written in hex digits, and the bytes in their place are consumed. */
  lemma BadDigitsAreGivenUp(noise: seq<byte>, d: seq<byte>, a: byte, b: byte, rest: seq<byte>, room: nat)
    requires Noise(noise) && Sendable(d) && |d| <= room && a != 0xFF && b != 0xFF
    requires !(exists v: nat, w: nat :: v < 16 && w < 16 && IsDigit(a, v) && IsDigit(b, w))
    ensures Receive(noise + [0x24] + d + [0x23, a, b] + rest, room) == Received(None, rest, [])
  {
    assert noise + [0x24] + d + [0x23, a, b] + rest == noise + [START] + (d + [HASH] + ([a, b] + rest));
    SkipNoise(noise, d + [HASH] + ([a, b] + rest));
    TakeSendable(d, [a, b] + rest, room);
    TakeTwo(a, b, rest);
    TwoDigits(a, b);
    var h, l := DigitValue(a), DigitValue(b);
    if h.Some? && l.Some? {
      DigitIs(a, h.value);
      DigitIs(b, l.value);
    }
  }

  lemma {:induction false} SkipToEof(noise: seq<byte>, rest: seq<byte>)
    requires Noise(noise)
    ensures SkipToStart(noise + [EOF_BYTE] + rest) == (false, rest)
    decreases |noise|
  {
    var s := noise + [EOF_BYTE] + rest;
    if noise == [] {
      assert s == [EOF_BYTE] + rest;
    } else {
      assert s[1..] == noise[1..] + [EOF_BYTE] + rest;
      SkipToEof(noise[1..], rest);
    }
  }

  lemma {:induction false} TakeToEof(d: seq<byte>, rest: seq<byte>, room: nat)
    requires Sendable(d) && |d| <= room
    ensures TakeBody(d + [EOF_BYTE] + rest, room) == (None, rest)
    decreases |d|
  {
    var s := d + [EOF_BYTE] + rest;
    if d == [] {
      assert s == [EOF_BYTE] + rest;
    } else {
      assert s[1..] == d[1..] + [EOF_BYTE] + rest;
      TakeToEof(d[1..], rest, room - 1);
    }
  }

  /** The end of the connection, or a byte 0xFF, ends the reception wherever it comes. */
  lemma EndIsGivenUp(noise: seq<byte>, d: seq<byte>, rest: seq<byte>, room: nat)
    requires Noise(noise) && Sendable(d) && |d| <= room
    ensures Receive(noise + [0xFF] + rest, room) == Received(None, rest, [])
    ensures Receive(noise + [0x24] + d + [0xFF] + rest, room) == Received(None, rest, [])
  {
    SkipToEof(noise, rest);
    assert noise + [0x24] + d + [0xFF] + rest == noise + [START] + (d + [EOF_BYTE] + rest);
    SkipNoise(noise, d + [EOF_BYTE] + rest);
    TakeToEof(d, rest, room);
  }

  lemma {:induction false} SumOfChange(d: seq<byte>, i: nat, b: byte)
    requires i < |d|
    ensures Sum(d[i := b]) == Sum(d) - d[i] as int + b as int
    decreases |d|
  {
    var last := |d| - 1;
    if i < last {
      SumOfChange(d[..last], i, b);
      assert d[i := b][..last] == d[..last][i := b];
    } else {
      assert d[i := b][..last] == d[..last];
    }
  }

  /** One changed body byte never goes unnoticed: the packet is refused with '-'. */
  lemma ChangedByteIsRefused(noise: seq<byte>, data: seq<byte>, rest: seq<byte>, room: nat, i: nat, b: byte)
    requires Noise(noise) && Sendable(data) && |data| <= room
    requires i < |data| && b != data[i] && b != HASH && b != EOF_BYTE
    ensures Receive(noise + [START] + data[i := b] + [HASH] + EncodeHex([Checksum(data)]) + rest, room)
         == Received(None, rest, [0x2D])
  {
    SumOfChange(data, i, b);
    DifferentRemainders(Sum(data), b as int - data[i] as int);
    ReceiveWithChecksum(noise, data[i := b], data, rest, room);
  }

  lemma DifferentRemainders(n: nat, d: int)
    requires d != 0 && -0x100 < d < 0x100 && 0 <= n + d
    ensures (n + d) % 0x100 != n % 0x100
  {
  }

  /** Escaped data in a packet reaches the other end unless it contains 0xFF or does not fit. */
  lemma EscapedPacketRoundTrip(noise: seq<byte>, data: seq<byte>, rest: seq<byte>, room: nat)
    requires Noise(noise)
    ensures var r := Receive(noise + Frame(EncodeBin(data)) + rest, room);
            (r.packet.Some? && DecodeBin(r.packet.value) == Some(data)
               && r.packet.value == EncodeBin(data) && r.rest == rest && r.answer == [0x2B])
            <==> EOF_BYTE !in data && |EncodeBin(data)| <= room
  {
    EncodedIsFrameable(data);
    BinRoundTrip(data);
    PacketRoundTrip(noise, EncodeBin(data), rest, room);
  }
}
