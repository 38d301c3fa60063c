/**
The coding and packet functions of the GdbServer class (gdbserver.cpp) over a
connection: the bytes the peer has sent, the bytes sent to it, and how many more
it will take before sending fails.
*/
module GdbConnection {
  import opened Bytes
  import opened GdbCodec

  const EOF := -1

  /** A byte read through a signed char. */
  function Signed(b: byte): int {
    if b < 0x80 then b as int else b as int - 0x100
  }

  function FromSigned(c: int): byte
    requires -0x80 <= c < 0x80
  {
    if c < 0 then c + 0x100 else c
  }

  function Least(a: nat, b: nat): nat {
    if a <= b then a else b
  }

  class GdbServer {
    var input: seq<byte>
    var output: seq<byte>
    var quota: nat

    constructor (input: seq<byte>, quota: nat)
      ensures this.input == input && this.output == [] && this.quota == quota
    {
      this.input, this.output, this.quota := input, [], quota;
    }

    /** The next byte, or EOF at the end of the connection. 0xFF is not told apart from EOF. */
    method GetC() returns (c: int)
      modifies this`input
      ensures old(input) == [] ==> c == EOF && input == []
      ensures old(input) != [] ==> c == Signed(old(input)[0]) && input == old(input)[1..]
      ensures c == EOF <==> old(input) == [] || old(input)[0] == EOF_BYTE
      ensures -0x80 <= c < 0x80
    {
      if input == [] {
        return EOF;
      }
      c := Signed(input[0]);
      input := input[1..];
    }

    method PutChar(b: byte) returns (r: int)
      modifies this`output, this`quota
      ensures r == if old(quota) == 0 then EOF else 0
      ensures output == old(output) + [b][..Least(old(quota), 1)]
      ensures quota == old(quota) - Least(old(quota), 1)
    {
      if quota == 0 {
        return EOF;
      }
      output := output + [b];
      quota := quota - 1;
      return 0;
    }

    /** dbg_write: sends all of `s`, or as much of it as the peer takes. */
    method Write(s: seq<byte>) returns (r: int)
      modifies this`output, this`quota
      ensures r == if old(quota) < |s| then EOF else 0
      ensures output == old(output) + s[..Least(old(quota), |s|)]
      ensures quota == old(quota) - Least(old(quota), |s|)
    {
      var k := 0;
      while k < |s|
        invariant 0 <= k <= |s| && k <= old(quota)
        invariant output == old(output) + s[..k] && quota == old(quota) - k
      {
        var c := PutChar(s[k]);
        if c == EOF {
          return EOF;
        }
        assert s[..k] + [s[k]] == s[..k + 1];
        k := k + 1;
      }
      return 0;
    }

    /** dbg_read: n bytes, or EOF; nothing is read if they do not fit a buffer of the given length. */
    method Read(bufLen: nat, n: nat) returns (r: int, s: seq<byte>)
      modifies this`input
      ensures bufLen < n ==> r == EOF && input == old(input)
      ensures n <= bufLen ==>
                var (bytes, rest) := TakeBytes(old(input), n);
                && input == rest
                && r == (if bytes.None? then EOF else 0)
                && (bytes.Some? ==> s == bytes.value)
    {
      s := [];
      if bufLen < n {
        return EOF, s;
      }
      var k := 0;
      NothingInFront(TakeBytes(input, n).0);
      while k < n
        invariant 0 <= k <= n
        invariant var (bytes, rest) := TakeBytes(input, n - k);
                  var (all, end) := TakeBytes(old(input), n);
                  && end == rest
                  && all == (if bytes.None? then None else Some(s + bytes.value))
      {
        var c := GetC();
        if c == EOF {
          return EOF, s;
        }
        GroupLeft(s, FromSigned(c), TakeBytes(input, n - k - 1).0);
        s := s + [FromSigned(c)];
        k := k + 1;
      }
      return 0, s;
    }

    static method ChecksumOf(d: seq<byte>) returns (csum: byte)
      ensures csum == Checksum(d)
    {
      csum := 0;
      var k := 0;
      while k < |d|
        invariant 0 <= k <= |d| && csum == Checksum(d[..k])
      {
        assert d[..k + 1][..k] == d[..k];
        csum := (csum as int + d[k] as int) % 0x100;
        k := k + 1;
      }
      assert d[..k] == d;
    }

    /** dbg_enc_hex into buf[at..at + bufLen]. */
    static method EncHex(buf: array<byte>, at: nat, bufLen: nat, d: seq<byte>) returns (r: int)
      requires at + bufLen <= buf.Length
      modifies buf
      ensures r == if bufLen < 2 * |d| then EOF else 2 * |d|
      ensures r != EOF ==> buf[at..at + r] == EncodeHex(d)
      ensures buf[..at] == old(buf[..at])
    {
      if bufLen < 2 * |d| {
        return EOF;
      }
      var pos := 0;
      while pos < |d|
        invariant 0 <= pos <= |d|
        invariant buf[at..at + 2 * pos] == EncodeHex(d[..pos])
        invariant buf[..at] == old(buf[..at])
      {
        ghost var done := buf[at..at + 2 * pos];
        buf[at + 2 * pos] := Digit(d[pos] / 16);
        buf[at + 2 * pos + 1] := Digit(d[pos] % 16);
        assert d[..pos + 1][..pos] == d[..pos];
        assert buf[at..at + 2 * (pos + 1)] == done + [Digit(d[pos] / 16), Digit(d[pos] % 16)];
        pos := pos + 1;
      }
      assert d[..pos] == d;
      return 2 * |d|;
    }

    /** dbg_dec_hex: decodes exactly dataLen bytes. */
    static method DecHex(s: seq<byte>, data: array<byte>, dataLen: nat) returns (r: int)
      requires dataLen <= data.Length
      modifies data
      ensures r == 0 <==> |s| == 2 * dataLen && DecodeHex(s).Some?
      ensures r == 0 || r == EOF
      ensures r == 0 ==> data[..dataLen] == DecodeHex(s).value
    {
      if |s| != 2 * dataLen {
        return EOF;
      }
      var pos := 0;
      while pos < dataLen
        invariant 0 <= pos <= dataLen
        invariant DecodeHex(s[..2 * pos]) == Some(data[..pos])
      {
        ghost var done := data[..pos];
        HexPrefix(s, pos);
        var high := DigitValue(s[2 * pos]);
        if high.None? {
          HexJunk(s, pos);
          return EOF;
        }
        data[pos] := 16 * high.value;
        var low := DigitValue(s[2 * pos + 1]);
        if low.None? {
          HexJunk(s, pos);
          return EOF;
        }
        data[pos] := data[pos] as int + low.value;
        assert data[..pos + 1] == done + [data[pos]];
        pos := pos + 1;
      }
      assert s[..2 * pos] == s;
      return 0;
    }

    /** dbg_enc_bin: the number of bytes written, or EOF if they do not fit. */
    static method EncBin(buf: array<byte>, d: seq<byte>) returns (r: int)
      modifies buf
      ensures r == if |EncodeBin(d)| <= buf.Length then |EncodeBin(d)| else EOF
      ensures r != EOF ==> buf[..r] == EncodeBin(d)
    {
      var bufPos, dataPos := 0, 0;
      while dataPos < |d|
        invariant 0 <= dataPos <= |d| && bufPos <= buf.Length
        invariant buf[..bufPos] == EncodeBin(d[..dataPos])
      {
        ghost var done := buf[..bufPos];
        assert d[..dataPos + 1][..dataPos] == d[..dataPos];
        EncodeBinGrows(d, dataPos + 1);
        var b := d[dataPos];
        if b == START || b == HASH || b == ESCAPE || b == STAR {
          if bufPos + 1 >= buf.Length {
            return EOF;
          }
          buf[bufPos] := ESCAPE;
          buf[bufPos + 1] := Flip(b);
          bufPos := bufPos + 2;
        } else {
          if bufPos >= buf.Length {
            return EOF;
          }
          buf[bufPos] := b;
          bufPos := bufPos + 1;
        }
        assert buf[..bufPos] == done + EscapeByte(b);
        dataPos := dataPos + 1;
      }
      assert d[..dataPos] == d;
      return bufPos;
    }

    /** dbg_dec_bin: the number of bytes decoded, or EOF for a cut-off escape or too small a buffer. */
    static method DecBin(s: seq<byte>, data: array<byte>) returns (r: int)
      modifies data
      ensures r == if DecodeBin(s).Some? && |DecodeBin(s).value| <= data.Length then |DecodeBin(s).value| else EOF
      ensures r != EOF ==> data[..r] == DecodeBin(s).value
    {
      var bufPos, dataPos := 0, 0;
      assert s[0..] == s && data[..0] == [];
      NothingInFront(DecodeBin(s));
      while bufPos < |s|
        invariant 0 <= bufPos <= |s| && dataPos <= data.Length
        invariant DecodeBin(s) == if DecodeBin(s[bufPos..]).None? then None
                                  else Some(data[..dataPos] + DecodeBin(s[bufPos..]).value)
      {
        DecodeBinUnfolds(s[bufPos..]);
        if dataPos >= data.Length {
          return EOF;
        }
        ghost var done := data[..dataPos];
        ghost var start := bufPos;
        if s[bufPos] == ESCAPE {
          if bufPos + 1 >= |s| {
            return EOF;
          }
          bufPos := bufPos + 1;
          data[dataPos] := Flip(s[bufPos]);
        } else {
          data[dataPos] := s[bufPos];
        }
        dataPos := dataPos + 1;
        bufPos := bufPos + 1;
        assert s[start..][bufPos - start..] == s[bufPos..];
        assert data[..dataPos] == done + [data[dataPos - 1]];
        GroupLeft(done, data[dataPos - 1], DecodeBin(s[bufPos..]));
      }
      assert s[bufPos..] == [];
      return dataPos;
    }

    /** dbg_recv_ack: 0 for '+', 1 for '-', EOF for anything else. */
    method RecvAck() returns (r: int)
      modifies this`input
      ensures input == if old(input) == [] then [] else old(input)[1..]
      ensures r == if old(input) != [] && old(input)[0] == PLUS then 0
                   else if old(input) != [] && old(input)[0] == MINUS then 1 else EOF
    {
      var response := GetC();
      if response == PLUS as int {
        return 0;
      } else if response == MINUS as int {
        return 1;
      } else {
        return EOF;
      }
    }

    /** dbg_send_packet: sends the frame of `d`, and reports the peer's answer to it. */
    method SendPacket(d: seq<byte>) returns (r: int)
      modifies this`input, this`output, this`quota
      ensures output == old(output) + Frame(d)[..Least(old(quota), |Frame(d)|)]
      ensures quota == old(quota) - Least(old(quota), |Frame(d)|)
      ensures old(quota) < |Frame(d)| ==> r == EOF && input == old(input)
      ensures old(quota) >= |Frame(d)| ==>
                && input == (if old(input) == [] then [] else old(input)[1..])
                && r == (if old(input) != [] && old(input)[0] == PLUS then 0
                         else if old(input) != [] && old(input)[0] == MINUS then 1 else EOF)
    {
      FrameParts(d);
      hide Frame, EncodeHex, Checksum;
      r := PutChar(START);
      if r == EOF {
        return;
      }
      r := Write(d);
      if r == EOF {
        return EOF;
      }
      var buf := new byte[3];
      buf[0] := HASH;
      var csum := ChecksumOf(d);
      r := EncHex(buf, 1, 2, [csum]);
      assert buf[..] == buf[..1] + buf[1..3];
      r := Write(buf[..]);
      if r == EOF {
        return EOF;
      }
      r := RecvAck();
    }

    /** dbg_recv_packet into pktBuf, whose whole length is pkt_buf_len. */
    method RecvPacket(pktBuf: array<byte>) returns (r: int, pktLen: nat)
      modifies this`input, this`output, this`quota, pktBuf
      ensures var got := Receive(old(input), pktBuf.Length);
              && input == got.rest
              && r == (if got.packet.Some? then 0 else EOF)
              && (got.packet.Some? ==> pktLen <= pktBuf.Length && pktBuf[..pktLen] == got.packet.value)
              && output == old(output) + got.answer[..Least(old(quota), |got.answer|)]
    {
      hide TakeBytes, DecodeHex, EncodeHex, Checksum;
      pktLen := 0;
      ghost var before := output;
      var found := WaitForStart();
      if !found {
        return EOF, 0;
      }
      ghost var afterStart := input;
      var ok;
      ok, pktLen := ReadBody(pktBuf);
      if !ok {
        return EOF, pktLen;
      }
      var digits;
      r, digits := Read(2, 2);
      if r == EOF {
        return;
      }
      var buf := new byte[1];
      r := DecHex(digits, buf, 1);
      if r == EOF {
        return;
      }
      var actual := ChecksumOf(pktBuf[..pktLen]);
      assert buf[..1] == [buf[0]];
      if actual != buf[0] {
        var sent := PutChar(MINUS);
        return EOF, pktLen;
      }
      var sent := PutChar(PLUS);
      return 0, pktLen;
    }

    /** The first loop of dbg_recv_packet. */
    method WaitForStart() returns (found: bool)
      modifies this`input
      ensures (found, input) == SkipToStart(old(input))
    {
      while true
        invariant SkipToStart(input) == SkipToStart(old(input))
        decreases |input|
      {
        ghost var before := input;
        var c := GetC();
        if c == START as int {
          return true;
        } else if c == EOF {
          return false;
        }
      }
    }

    /** The second loop of dbg_recv_packet. */
    method ReadBody(pktBuf: array<byte>) returns (ok: bool, pktLen: nat)
      modifies this`input, pktBuf
      ensures pktLen <= pktBuf.Length
      ensures var (body, rest) := TakeBody(old(input), pktBuf.Length);
              input == rest && ok == body.Some? && (ok ==> pktBuf[..pktLen] == body.value)
    {
      pktLen := 0;
      assert pktBuf[..0] == [];
      NothingInFront(TakeBody(input, pktBuf.Length).0);
      while true
        invariant pktLen <= pktBuf.Length
        invariant var (body, rest) := TakeBody(input, pktBuf.Length - pktLen);
                  var (all, end) := TakeBody(old(input), pktBuf.Length);
                  end == rest && all == if body.None? then None else Some(pktBuf[..pktLen] + body.value)
        decreases |input|
      {
        ghost var body := TakeBody(input, pktBuf.Length - pktLen).0;
        var c := GetC();
        if c == EOF {
          return false, pktLen;
        } else if c == HASH as int {
          return true, pktLen;
        } else {
          if pktLen >= pktBuf.Length {
            return false, pktLen;
          }
          ghost var done := pktBuf[..pktLen];
          pktBuf[pktLen] := FromSigned(c);
          pktLen := pktLen + 1;
          assert pktBuf[..pktLen] == done + [pktBuf[pktLen - 1]];
          GroupLeft(done, pktBuf[pktLen - 1], TakeBody(input, pktBuf.Length - pktLen).0);
        }
      }
    }
  }

  lemma NothingInFront(rest: Option<seq<byte>>)
    ensures rest.Some? ==> [] + rest.value == rest.value
  {
  }

  lemma GroupLeft(a: seq<byte>, b: byte, rest: Option<seq<byte>>)
    ensures rest.Some? ==> (a + [b]) + rest.value == a + ([b] + rest.value)
  {
  }

  lemma FrameParts(d: seq<byte>)
    ensures Frame(d) == [START] + d + ([HASH] + EncodeHex([Checksum(d)]))
    ensures |Frame(d)| == |d| + 4
    ensures forall k :: 1 <= k <= 1 + |d| ==> Frame(d)[..k] == [START] + d[..k - 1]
    ensures forall k :: 1 + |d| <= k <= |Frame(d)| ==>
              Frame(d)[..k] == [START] + d + ([HASH] + EncodeHex([Checksum(d)]))[..k - 1 - |d|]
  {
  }

  lemma {:induction false} HexPrefix(s: seq<byte>, pos: nat)
    requires 2 * pos + 2 <= |s|
    ensures s[..2 * pos + 2][..2 * pos] == s[..2 * pos]
    ensures s[..2 * pos + 2][2 * pos] == s[2 * pos] && s[..2 * pos + 2][2 * pos + 1] == s[2 * pos + 1]
  {
  }

  /** A byte that is no digit anywhere spoils the decoding. */
  lemma {:induction false} HexJunk(s: seq<byte>, pos: nat)
    requires |s| % 2 == 0 && 2 * pos + 2 <= |s|
    requires DigitValue(s[2 * pos]).None? || DigitValue(s[2 * pos + 1]).None?
    ensures DecodeHex(s).None?
    decreases |s|
  {
    if 2 * pos + 2 < |s| {
      HexJunk(s[..|s| - 2], pos);
    }
  }

  lemma {:induction false} EncodeBinGrows(d: seq<byte>, k: nat)
    requires k <= |d|
    ensures |EncodeBin(d[..k])| <= |EncodeBin(d)|
    decreases |d|
  {
    if k < |d| {
      assert d[..|d| - 1][..k] == d[..k];
      EncodeBinGrows(d[..|d| - 1], k);
    } else {
      assert d[..k] == d;
    }
  }

  lemma DecodeBinUnfolds(s: seq<byte>)
    requires s != []
    ensures s[0] == ESCAPE && |s| == 1 ==> DecodeBin(s).None?
    ensures s[0] == ESCAPE && |s| > 1 ==>
              DecodeBin(s) == if DecodeBin(s[2..]).None? then None else Some([Flip(s[1])] + DecodeBin(s[2..]).value)
    ensures s[0] != ESCAPE ==>
              DecodeBin(s) == if DecodeBin(s[1..]).None? then None else Some([s[0]] + DecodeBin(s[1..]).value)
  {
  }
}
