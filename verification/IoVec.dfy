/** Scatter/gather copies (iovec.cpp). */
module ScatterGather {
  import opened Bytes

  /** A buffer: the first `len` bytes of some host memory. */
  datatype IoVec = IoVec(base: array<byte>, len: nat)

  function Bases(iov: seq<IoVec>): set<object> {
    set v | v in iov :: v.base as object
  }

  predicate InBounds(iov: seq<IoVec>) {
    forall v :: v in iov ==> v.len <= v.base.Length
  }

  /** No two buffers share memory. */
  predicate Disjoint(iov: seq<IoVec>) {
    forall i, j :: 0 <= i < j < |iov| ==> iov[i].base != iov[j].base
  }

  function Total(iov: seq<IoVec>): nat {
    if iov == [] then 0 else Total(iov[..|iov| - 1]) + iov[|iov| - 1].len
  }

  /** The bytes of all buffers, one buffer after the other. */
  function Contents(iov: seq<IoVec>): (s: seq<byte>)
    requires InBounds(iov)
    reads Bases(iov)
    ensures |s| == Total(iov)
  {
    if iov == [] then []
    else
      var last := iov[|iov| - 1];
      assert last in iov && last.base as object in Bases(iov);
      var front := iov[..|iov| - 1];
      assert forall v :: v in front ==> v in iov;
      Contents(front) + last.base[..last.len]
  }

  function Least(a: nat, b: nat): nat {
    if a <= b then a else b
  }

  /** The first i buffers hold the front of the contents, and the i-th comes next. */
  lemma {:induction false} ContentsFront(iov: seq<IoVec>, i: nat)
    requires InBounds(iov) && i < |iov|
    ensures iov[i] in iov && iov[i].len <= iov[i].base.Length
    ensures InBounds(iov[..i])
    ensures Total(iov[..i]) + iov[i].len == Total(iov[..i + 1]) <= Total(iov)
    ensures Contents(iov)[Total(iov[..i])..Total(iov[..i]) + iov[i].len] == iov[i].base[..iov[i].len]
    decreases |iov|
  {
    assert iov[..i + 1][..i] == iov[..i];
    assert forall v :: v in iov[..i] ==> v in iov;
    var front := iov[..|iov| - 1];
    assert forall v :: v in front ==> v in iov;
    if i == |iov| - 1 {
      assert iov[..i + 1] == iov;
    } else {
      assert front[..i] == iov[..i] && front[..i + 1] == iov[..i + 1] && front[i] == iov[i];
      ContentsFront(front, i);
    }
  }

  lemma InBases(iov: seq<IoVec>, i: nat)
    requires i < |iov|
    ensures iov[i].base as object in Bases(iov)
  {
  }

  lemma StandsAtEnd(iov: seq<IoVec>, i: nat, off: nat, done: nat, offset: nat, bytes: nat)
    requires i <= |iov| && Stands(Total(iov[..i]), off, done, offset, bytes)
    requires offset <= Total(iov) && Total(iov[..i]) <= Total(iov) && done <= bytes
    requires i == |iov| || (off == 0 && done >= bytes)
    ensures off == 0 && done == Least(bytes, Total(iov) - offset)
  {
    TotalAll(iov);
    hide Total;
  }

  lemma TotalAll(iov: seq<IoVec>)
    ensures Total(iov[..|iov|]) == Total(iov) && Total(iov[..0]) == 0
  {
    assert iov[..|iov|] == iov;
  }

  class IOVector {
    var ioVecStruct: seq<IoVec>
    var ioVecNumber: int
    var allocNumber: int
    var size: nat

    ghost predicate Valid()
      reads this
    {
      && ioVecNumber == |ioVecStruct| <= allocNumber
      && size == Total(ioVecStruct)
    }

    constructor (allocNumber: nat)
      ensures Valid() && ioVecStruct == [] && this.allocNumber == allocNumber
    {
      ioVecStruct, ioVecNumber, size := [], 0, 0;
      this.allocNumber := allocNumber;
    }

    method IoVecReset()
      requires Valid()
      modifies this
      ensures Valid() && ioVecStruct == [] && allocNumber == old(allocNumber)
    {
      ioVecStruct, ioVecNumber, size := [], 0, 0;
    }

    /** Appends a buffer; the space for entries doubles, plus one, when it is full. */
    method IoVecAdd(base: array<byte>, len: nat)
      requires Valid()
      modifies this
      ensures Valid() && ioVecStruct == old(ioVecStruct) + [IoVec(base, len)]
      ensures allocNumber == if old(ioVecNumber) == old(allocNumber) then 2 * old(allocNumber) + 1 else old(allocNumber)
    {
      if ioVecNumber == allocNumber {
        allocNumber := 2 * allocNumber + 1;
      }
      ghost var before := ioVecStruct;
      ioVecStruct := ioVecStruct + [IoVec(base, len)];
      assert ioVecStruct[..|ioVecStruct| - 1] == before;
      size := size + len;
      ioVecNumber := ioVecNumber + 1;
    }
  }

  /** Where a copy stands once buffers of `passed` bytes in all are behind it. */
  predicate Stands(passed: nat, off: nat, done: nat, offset: nat, bytes: nat) {
    if off > 0 then done == 0 && passed + off == offset
    else offset <= passed && done == Least(bytes, passed - offset)
  }

  /** Passing one more buffer of n bytes, of which min(n - off, bytes - done) are copied if it reaches past the offset. */
  lemma StandsAfter(passed: nat, off: nat, done: nat, offset: nat, bytes: nat, n: nat)
    requires Stands(passed, off, done, offset, bytes) && done <= bytes && (off > 0 || done < bytes)
    ensures off < n ==> Least(n - off, bytes - done) <= n - off && done + Least(n - off, bytes - done) <= bytes
    ensures off < n ==>
              var len := Least(n - off, bytes - done);
              passed + off == offset + done && Stands(passed + n, 0, done + len, offset, bytes)
    ensures off >= n ==> Stands(passed + n, off - n, done, offset, bytes)
  {
  }

  /** `flat` with `d` written over it from `at` on. */
  function Overwrite(flat: seq<byte>, at: nat, d: seq<byte>): (s: seq<byte>)
    requires at + |d| <= |flat|
    ensures |s| == |flat|
  {
    flat[..at] + d + flat[at + |d|..]
  }

  method Memcpy(dst: array<byte>, at: nat, src: array<byte>, from: nat, len: nat)
    requires dst != src && at + len <= dst.Length && from + len <= src.Length
    modifies dst
    ensures dst[..at] == old(dst[..at])
    ensures dst[at..at + len] == src[from..from + len]
    ensures dst[at + len..] == old(dst[at + len..])
    ensures dst[..] == Overwrite(old(dst[..]), at, src[from..from + len])
  {
    forall k | 0 <= k < len {
      dst[at + k] := src[from + k];
    }
  }

  /** buf[..done] holds the contents from `offset` on, and the rest of it what it held before. */
  predicate Gathered(now: seq<byte>, before: seq<byte>, flat: seq<byte>, offset: nat, done: nat) {
    && |now| == |before| && done <= |now| && offset + done <= |flat|
    && now[..done] == flat[offset..offset + done]
    && now[done..] == before[done..]
  }

  lemma GatheredMore(now: seq<byte>, before: seq<byte>, flat: seq<byte>, offset: nat, done: nat, len: nat)
    requires Gathered(now, before, flat, offset, done) && done + len <= |now| && offset + done + len <= |flat|
    ensures Gathered(Overwrite(now, done, flat[offset + done..offset + done + len]), before, flat, offset, done + len)
  {
    var d := flat[offset + done..offset + done + len];
    var next := Overwrite(now, done, d);
    assert next[..done + len] == now[..done] + d;
    assert flat[offset..offset + done + len] == flat[offset..offset + done] + d;
    assert next[done + len..] == now[done..][len..] == before[done..][len..] == before[done + len..];
  }

  /** Copies out of one buffer, which is a part of the contents. */
  method CopyFrom(iov: seq<IoVec>, i: nat, off: nat, buf: array<byte>, done: nat, len: nat)
    requires InBounds(iov) && buf as object !in Bases(iov)
    requires i < |iov| && off + len <= iov[i].len && done + len <= buf.Length
    modifies buf
    ensures Contents(iov) == old(Contents(iov))
    ensures Total(iov[..i]) + off + len <= Total(iov)
    ensures buf[..] == Overwrite(old(buf[..]), done, Contents(iov)[Total(iov[..i]) + off..Total(iov[..i]) + off + len])
  {
    ContentsFront(iov, i);
    InBases(iov, i);
    hide Total, Contents, Overwrite;
    ghost var flat := Contents(iov);
    var v := iov[i];
    GatherPiece(flat, v.base[..], v.len, Total(iov[..i]), off, len);
    assert v.base[..][off..off + len] == v.base[off..off + len] && v.base[..][..v.len] == v.base[..v.len];
    Memcpy(buf, done, v.base, off, len);
    assert Contents(iov) == flat;
  }

  /** The body of IoVecToBuffer's loop. */
  method GatherOne(iov: seq<IoVec>, i: nat, off: nat, buf: array<byte>, done: nat, ghost offset: nat, bytes: nat,
                   ghost before: seq<byte>)
    returns (off': nat, done': nat)
    requires InBounds(iov) && buf as object !in Bases(iov)
    requires i < |iov| && done <= bytes <= buf.Length && (off > 0 || done < bytes)
    requires Stands(Total(iov[..i]), off, done, offset, bytes)
    requires Gathered(buf[..], before, Contents(iov), offset, done)
    modifies buf
    ensures Contents(iov) == old(Contents(iov))
    ensures Total(iov[..i + 1]) <= Total(iov) && done' <= bytes
    ensures Stands(Total(iov[..i + 1]), off', done', offset, bytes)
    ensures Gathered(buf[..], before, Contents(iov), offset, done')
  {
    hide *;
    ContentsFront(iov, i);
    StandsAfter(Total(iov[..i]), off, done, offset, bytes, iov[i].len);
    if off < iov[i].len {
      var len := Least(iov[i].len - off, bytes - done);
      GatheredMore(buf[..], before, Contents(iov), offset, done, len);
      CopyFrom(iov, i, off, buf, done, len);
      off', done' := 0, done + len;
    } else {
      off', done' := off - iov[i].len, done;
    }
  }

  /** Gathers the bytes from `offset` on; `offset` may not lie past the end. */
  method IoVecToBuffer(iov: seq<IoVec>, offset: nat, buf: array<byte>, bytes: nat) returns (done: nat)
    requires InBounds(iov) && buf as object !in Bases(iov)
    requires offset <= Total(iov) && bytes <= buf.Length
    modifies buf
    ensures done == Least(bytes, Total(iov) - offset)
    ensures buf[..done] == Contents(iov)[offset..offset + done]
    ensures buf[done..] == old(buf[done..])
    ensures Contents(iov) == old(Contents(iov))
  {
    ghost var flat := Contents(iov);
    ghost var before := buf[..];
    var i, off: nat := 0, offset;
    done := 0;
    TotalAll(iov);
    StandsAtStart(offset, bytes);
    assert Gathered(before, before, flat, offset, 0);
    hide Total, Contents, Stands, Bases, Least, InBounds, Gathered;
    while (off > 0 || done < bytes) && i < |iov|
      invariant 0 <= i <= |iov| && Contents(iov) == flat
      invariant Total(iov[..i]) <= Total(iov) && done <= bytes
      invariant Stands(Total(iov[..i]), off, done, offset, bytes)
      invariant Gathered(buf[..], before, flat, offset, done)
    {
      off, done := GatherOne(iov, i, off, buf, done, offset, bytes, before);
      i := i + 1;
    }
    StandsAtEnd(iov, i, off, done, offset, bytes);
    GatheredMeans(buf[..], before, flat, offset, done);
    assert buf[..][..done] == buf[..done] && buf[..][done..] == buf[done..];
  }

  lemma GatheredMeans(now: seq<byte>, before: seq<byte>, flat: seq<byte>, offset: nat, done: nat)
    requires Gathered(now, before, flat, offset, done)
    ensures |now| == |before| && done <= |now| && offset + done <= |flat|
    ensures now[..done] == flat[offset..offset + done] && now[done..] == before[done..]
  {
  }

  lemma StandsAtStart(offset: nat, bytes: nat)
    ensures Stands(0, offset, 0, offset, bytes)
  {
  }

  lemma GatherPiece(flat: seq<byte>, base: seq<byte>, n: nat, start: nat, off: nat, len: nat)
    requires n <= |base| && start + n <= |flat| && flat[start..start + n] == base[..n] && off + len <= n
    ensures flat[start + off..start + off + len] == base[off..off + len]
  {
    SliceOfSlice(flat, start, start + n, off, off + len);
    SliceOfSlice(base, 0, n, off, off + len);
  }

  lemma SliceOfSlice<T>(s: seq<T>, a: nat, b: nat, c: nat, d: nat)
    requires a <= b <= |s| && c <= d <= b - a
    ensures s[a..b][c..d] == s[a + c..a + d]
  {
    forall k | 0 <= k < d - c ensures s[a..b][c..d][k] == s[a + c..a + d][k] {
    }
  }

  // ----- Scattering -----

  function Parts(iov: seq<IoVec>): (p: seq<seq<byte>>)
    requires InBounds(iov)
    reads Bases(iov)
    ensures |p| == |iov| && forall j :: 0 <= j < |iov| ==> iov[j] in iov && p[j] == iov[j].base[..iov[j].len]
  {
    seq(|iov|, j requires 0 <= j < |iov| && InBounds(iov) reads Bases(iov) =>
      assert iov[j] in iov && iov[j].base as object in Bases(iov); iov[j].base[..iov[j].len])
  }

  function Joined(parts: seq<seq<byte>>): seq<byte> {
    if parts == [] then [] else Joined(parts[..|parts| - 1]) + parts[|parts| - 1]
  }

  lemma {:induction false} ContentsAreJoined(iov: seq<IoVec>, parts: seq<seq<byte>>)
    requires InBounds(iov) && |parts| == |iov|
    requires forall j :: 0 <= j < |iov| ==> iov[j].base[..iov[j].len] == parts[j]
    ensures Contents(iov) == Joined(parts)
    decreases |iov|
  {
    if iov != [] {
      var front := iov[..|iov| - 1];
      assert forall v :: v in front ==> v in iov;
      ContentsAreJoined(front, parts[..|iov| - 1]);
    }
  }

  /** Writing over a part of one buffer writes over the part of the whole that it is. */
  lemma {:induction false} JoinedPatch(parts: seq<seq<byte>>, i: nat, off: nat, d: seq<byte>)
    requires i < |parts| && off + |d| <= |parts[i]|
    ensures |Joined(parts[..i])| + |parts[i]| <= |Joined(parts)|
    ensures Joined(parts[i := Overwrite(parts[i], off, d)])
         == Overwrite(Joined(parts), |Joined(parts[..i])| + off, d)
    decreases |parts|
  {
    var last := |parts| - 1;
    var front := parts[..last];
    var patched := parts[i := Overwrite(parts[i], off, d)];
    if i == last {
      assert patched[..last] == front;
      assert patched[last] == Overwrite(parts[last], off, d);
      OverwriteRight(Joined(front), parts[last], off, d);
    } else {
      JoinedPatch(front, i, off, d);
      assert patched[..last] == front[i := Overwrite(front[i], off, d)];
      assert front[..i] == parts[..i] && patched[last] == parts[last];
      OverwriteLeft(Joined(front), parts[last], |Joined(parts[..i])| + off, d);
    }
  }

  lemma OverwriteRight(a: seq<byte>, b: seq<byte>, off: nat, d: seq<byte>)
    requires off + |d| <= |b|
    ensures Overwrite(a + b, |a| + off, d) == a + Overwrite(b, off, d)
  {
    assert (a + b)[..|a| + off] == a + b[..off];
    assert (a + b)[|a| + off + |d|..] == b[off + |d|..];
  }

  lemma OverwriteLeft(a: seq<byte>, b: seq<byte>, at: nat, d: seq<byte>)
    requires at + |d| <= |a|
    ensures Overwrite(a + b, at, d) == Overwrite(a, at, d) + b
  {
    assert (a + b)[..at] == a[..at];
    assert (a + b)[at + |d|..] == a[at + |d|..] + b;
  }

  lemma OverwriteTwice(s: seq<byte>, at: nat, d: seq<byte>, e: seq<byte>)
    requires at + |d| + |e| <= |s|
    ensures Overwrite(Overwrite(s, at, d), at + |d|, e) == Overwrite(s, at, d + e)
  {
  }

  lemma {:induction false} TotalIsLength(iov: seq<IoVec>, i: nat)
    requires InBounds(iov) && i <= |iov|
    ensures InBounds(iov[..i]) && |Joined(Parts(iov)[..i])| == Total(iov[..i])
    decreases i
  {
    assert forall v :: v in iov[..i] ==> v in iov;
    if i > 0 {
      assert iov[..i][..i - 1] == iov[..i - 1];
      assert Parts(iov)[..i][..i - 1] == Parts(iov)[..i - 1];
      TotalIsLength(iov, i - 1);
    }
  }

  /** Copies into one buffer: the contents change there and nowhere else. */
  method CopyInto(iov: seq<IoVec>, i: nat, off: nat, buf: array<byte>, done: nat, len: nat, ghost source: seq<byte>)
    requires InBounds(iov) && Disjoint(iov) && buf as object !in Bases(iov) && buf[..] == source
    requires i < |iov| && off + len <= iov[i].len && done + len <= buf.Length
    modifies iov[i].base
    ensures Total(iov[..i]) + off + len <= Total(iov)
    ensures Contents(iov) == Overwrite(old(Contents(iov)), Total(iov[..i]) + off, source[done..done + len])
    ensures forall v :: v in iov ==> v.base[v.len..] == old(v.base[v.len..])
    ensures buf[..] == source
  {
    hide Joined, Contents, Total, Overwrite, Bases;
    ghost var parts := Parts(iov);
    ghost var d := source[done..done + len];
    assert d == buf[done..done + len];
    ghost var patched := parts[i := Overwrite(parts[i], off, d)];
    ContentsAreJoined(iov, parts);
    TotalIsLength(iov, i);
    JoinedPatch(parts, i, off, d);
    ContentsFront(iov, i);
    InBases(iov, i);
    ghost var wholes := Wholes(iov);
    var v := iov[i];
    OverwriteFront(wholes[i], v.len, off, d);
    Memcpy(v.base, off, buf, done, len);
    forall j | 0 <= j < |iov| && j != i
      ensures iov[j].base[..] == wholes[j]
    {
      assert iov[j].base != v.base;
    }
    KeptOrPatched(iov, i, wholes, off, d);
    ContentsAreJoined(iov, patched);
  }

  /** All the memory behind each buffer. */
  function Wholes(iov: seq<IoVec>): (w: seq<seq<byte>>)
    reads Bases(iov)
    ensures |w| == |iov| && forall j :: 0 <= j < |iov| ==> iov[j] in iov && w[j] == iov[j].base[..]
  {
    seq(|iov|, j requires 0 <= j < |iov| reads Bases(iov) =>
      assert iov[j] in iov && iov[j].base as object in Bases(iov); iov[j].base[..])
  }

  lemma KeptOrPatched(iov: seq<IoVec>, i: nat, wholes: seq<seq<byte>>, off: nat, d: seq<byte>)
    requires InBounds(iov) && i < |iov| == |wholes|
    requires forall j :: 0 <= j < |iov| ==> iov[j] in iov && |wholes[j]| == iov[j].base.Length
    requires off + |d| <= iov[i].len && iov[i].base[..] == Overwrite(wholes[i], off, d)
    requires forall j :: 0 <= j < |iov| && j != i ==> iov[j].base[..] == wholes[j]
    ensures iov[i].base[..iov[i].len] == Overwrite(wholes[i][..iov[i].len], off, d)
    ensures forall j :: 0 <= j < |iov| && j != i ==> iov[j].base[..iov[j].len] == wholes[j][..iov[j].len]
    ensures forall j :: 0 <= j < |iov| ==> iov[j].base[iov[j].len..] == wholes[j][iov[j].len..]
  {
    OverwriteFront(wholes[i], iov[i].len, off, d);
    hide Overwrite;
    forall j | 0 <= j < |iov|
      ensures iov[j].base[..iov[j].len] == iov[j].base[..][..iov[j].len]
      ensures iov[j].base[iov[j].len..] == iov[j].base[..][iov[j].len..]
    {
    }
  }

  lemma OverwriteFront(s: seq<byte>, n: nat, off: nat, d: seq<byte>)
    requires off + |d| <= n <= |s|
    ensures Overwrite(s, off, d)[..n] == Overwrite(s[..n], off, d)
    ensures Overwrite(s, off, d)[n..] == s[n..]
  {
  }

  /** The body of IoVecFromBuffer's loop. */
  method ScatterOne(iov: seq<IoVec>, i: nat, off: nat, buf: array<byte>, done: nat, ghost offset: nat, bytes: nat,
                    ghost flat: seq<byte>, ghost source: seq<byte>)
    returns (off': nat, done': nat)
    requires InBounds(iov) && Disjoint(iov) && buf as object !in Bases(iov) && buf[..] == source
    requires i < |iov| && done <= bytes <= buf.Length && (off > 0 || done < bytes)
    requires Stands(Total(iov[..i]), off, done, offset, bytes) && offset + done <= Total(iov) == |flat|
    requires Contents(iov) == Overwrite(flat, offset, source[..done])
    modifies Bases(iov)
    ensures Total(iov[..i + 1]) <= Total(iov) && done <= done' <= bytes && offset + done' <= Total(iov)
    ensures Stands(Total(iov[..i + 1]), off', done', offset, bytes)
    ensures Contents(iov) == Overwrite(flat, offset, source[..done'])
    ensures forall v :: v in iov ==> v.base[v.len..] == old(v.base[v.len..])
    ensures buf[..] == source
  {
    hide *;
    ContentsFront(iov, i);
    InBases(iov, i);
    StandsAfter(Total(iov[..i]), off, done, offset, bytes, iov[i].len);
    if off < iov[i].len {
      var len := Least(iov[i].len - off, bytes - done);
      OverwriteTwice(flat, offset, source[..done], source[done..done + len]);
      assert source[..done] + source[done..done + len] == source[..done + len];
      CopyInto(iov, i, off, buf, done, len, source);
      off', done' := 0, done + len;
    } else {
      off', done' := off - iov[i].len, done;
    }
  }

  /** Scatters buf[..bytes] over the buffers from `offset` on. */
  method IoVecFromBuffer(iov: seq<IoVec>, offset: nat, buf: array<byte>, bytes: nat) returns (done: nat)
    requires InBounds(iov) && Disjoint(iov) && buf as object !in Bases(iov)
    requires offset <= Total(iov) && bytes <= buf.Length
    modifies Bases(iov)
    ensures done == Least(bytes, Total(iov) - offset)
    ensures Contents(iov) == Overwrite(old(Contents(iov)), offset, buf[..done])
    ensures forall v :: v in iov ==> v.base[v.len..] == old(v.base[v.len..])
    ensures buf[..] == old(buf[..])
  {
    ghost var flat := Contents(iov);
    ghost var source := buf[..];
    var i, off: nat := 0, offset;
    done := 0;
    TotalAll(iov);
    StandsAtStart(offset, bytes);
    assert Overwrite(flat, offset, source[..0]) == flat;
    hide Total, Contents, Stands, Bases, Least, Overwrite, InBounds, Disjoint;
    while (off > 0 || done < bytes) && i < |iov|
      invariant 0 <= i <= |iov| && done <= bytes && offset + done <= |flat|
      invariant Total(iov[..i]) <= Total(iov)
      invariant Stands(Total(iov[..i]), off, done, offset, bytes)
      invariant Contents(iov) == Overwrite(flat, offset, source[..done])
      invariant forall v :: v in iov ==> v.base[v.len..] == old(v.base[v.len..])
      invariant buf[..] == source
    {
      off, done := ScatterOne(iov, i, off, buf, done, offset, bytes, flat, source);
      i := i + 1;
    }
    StandsAtEnd(iov, i, off, done, offset, bytes);
    assert source[..done] == buf[..done];
  }

  /** Scattering and then gathering at the same offset gives back the bytes that were transferred. */
  method ScatterThenGather(iov: seq<IoVec>, offset: nat, buf: array<byte>, bytes: nat, back: array<byte>)
    returns (done: nat)
    requires InBounds(iov) && Disjoint(iov) && buf as object !in Bases(iov) && back as object !in Bases(iov)
    requires buf != back && offset <= Total(iov) && bytes <= buf.Length && bytes <= back.Length
    modifies Bases(iov), back
    ensures done == Least(bytes, Total(iov) - offset)
    ensures back[..done] == buf[..done] && back[done..] == old(back[done..])
  {
    done := IoVecFromBuffer(iov, offset, buf, bytes);
    ghost var flat := Contents(iov);
    assert flat[offset..offset + done] == buf[..done];
    done := IoVecToBuffer(iov, offset, back, bytes);
  }
}
