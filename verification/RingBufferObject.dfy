/** `jack_ringbuffer_t` itself: the buffer is updated in place and the
    pointers are fields. Every method is proved to do to the fields what the
    function of the same name in `RingBuffer` does to the value. */
module RingBufferObject {
  import opened Bits
  import opened Common
  import opened RingBuffer

  /** The shift loop of jack_ringbuffer_create. */
  method RingSize(sz: nat) returns (size: nat)
    requires sz <= MAX_SIZE
    ensures ValidSize(size) && sz <= size
    ensures forall m: nat :: IsPow2(m) && m >= 2 && m >= sz ==> size <= m
  {
    ghost var k := 1;
    size := 2;
    while size < sz
      invariant k >= 1 && size == Pow2(k)
      invariant size == 2 || size / 2 < sz
      invariant size <= MAX_SIZE
      decreases MAX_SIZE - size
    {
      ShiftStays(k);
      size := size * 2;
      k := k + 1;
    }
    Pow2IsPow2(k);
    forall m: nat | IsPow2(m) && m >= 2 && m >= sz ensures size <= m {
      var j := Pow2Exponent(m);
      if j < k {
        Pow2Monotone(j, k - 1);
      } else {
        Pow2Monotone(k, j);
      }
    }
  }

  /** A power of two below 2^30 is at most 2^29. */
  lemma ShiftStays(k: nat)
    requires Pow2(k) < MAX_SIZE
    ensures 2 * Pow2(k) <= MAX_SIZE
  {
    Pow2Thirty();
    if k >= 30 { Pow2Monotone(30, k); }
    Pow2Monotone(k + 1, 30);
  }

  lemma Pow2Thirty()
    ensures Pow2(30) == MAX_SIZE
  {
    assert Pow2(10) == 1024;
    Pow2Add(10, 10);
    Pow2Add(20, 10);
  }

  lemma PeekParts(rb: Ring, cnt: nat)
    requires WellFormed(rb)
    ensures rb.size >= 1 && rb.readPtr <= rb.size
    ensures var n := ReadCount(rb, cnt);
            var (n1, n2) := Split(rb.readPtr, n, rb.size);
            var next := Masked(rb.readPtr + n1, rb.size);
            && n1 + n2 == n && rb.readPtr + n1 <= |rb.buf| && next + n2 <= |rb.buf|
            && Peek(rb, cnt) == rb.buf[rb.readPtr..rb.readPtr + n1] + rb.buf[next..next + n2]
  {
    hide Masked, WriteSpace, ReadSpace;
    SpaceBounds(rb);
    SplitFits(rb.readPtr, ReadCount(rb, cnt), rb.size);
  }

  class JackRingBuffer {
    var buf: array<Byte>
    var writePtr: nat
    var readPtr: nat
    var size: nat

    ghost var stream: Stream  // all bytes written since the last reset, and how many were read

    ghost function Value(): Ring
      reads this, buf
    {
      Ring(buf[..], writePtr, readPtr, size)
    }

    ghost predicate Valid()
      reads this, buf
    {
      WellFormed(Value())
    }

    /** The ring holds the unread part of the stream. */
    ghost predicate Represents()
      reads this, buf
    {
      Refines(Value(), stream)
    }

    constructor Create(sz: nat)
      requires sz <= MAX_SIZE
      ensures Valid() && fresh(buf)
      ensures Represents() && stream == Stream([], 0)
      ensures sz <= size && forall m: nat :: IsPow2(m) && m >= 2 && m >= sz ==> size <= m
    {
      var n := RingSize(sz);
      size, writePtr, readPtr := n, 0, 0;
      buf := new Byte[n](_ => 0);
      stream := Stream([], 0);
    }

    method GetReadSpace() returns (n: nat)
      requires Valid()
      ensures n == ReadSpace(writePtr, readPtr, size)
      ensures Represents() ==> n == Unread(stream)
    {
      if Represents() { SpacesAreCounterDifferences(Value(), stream); }
      var w := writePtr;
      var r := readPtr;
      if w > r {
        n := w - r;
      } else {
        n := Masked(w - r + size, size);
      }
    }

    method GetWriteSpace() returns (n: nat)
      requires Valid()
      ensures n == WriteSpace(writePtr, readPtr, size)
      ensures Represents() ==> n + Unread(stream) == size - 1
    {
      if Represents() { SpacesAreCounterDifferences(Value(), stream); }
      var w := writePtr;
      var r := readPtr;
      if w > r {
        n := SizeT(Masked(r - w + size, size) - 1);
      } else if w < r {
        n := r - w - 1;
      } else {
        n := size - 1;
      }
    }

    /** `memcpy` into the ring. */
    method CopyIn(off: nat, data: seq<Byte>)
      requires off + |data| <= buf.Length
      modifies buf
      ensures buf[..] == Blit(old(buf[..]), off, data)
    {
      ghost var was := buf[..];
      for k := 0 to |data|
        invariant forall j :: 0 <= j < buf.Length ==> buf[j] == if off <= j < off + k then data[j - off] else was[j]
      {
        buf[off + k] := data[k];
      }
      forall j | 0 <= j < buf.Length ensures buf[j] == Blit(was, off, data)[j] {
        BlitAt(was, off, data, j);
      }
    }

    /** `memcpy` out of the ring. */
    method CopyOut(dest: array<Byte>, at: nat, off: nat, n: nat)
      requires dest != buf && at + n <= dest.Length && off + n <= buf.Length
      modifies dest
      ensures forall j :: 0 <= j < dest.Length ==>
                            dest[j] == if at <= j < at + n then buf[off + j - at] else old(dest[j])
    {
      for k := 0 to n
        invariant forall j :: 0 <= j < dest.Length ==>
                                dest[j] == if at <= j < at + k then buf[off + j - at] else old(dest[j])
      {
        dest[at + k] := buf[off + k];
      }
    }

    /** jack_ringbuffer_write; `src` holds the caller's `cnt` bytes. */
    method WriteBytes(src: seq<Byte>) returns (n: nat)
      requires Valid()
      modifies this`writePtr, this`stream, buf
      ensures n <= |src| && Value() == old(Write(Value(), src))
      ensures old(Represents()) ==>
                && Represents()
                && (n == |src| || n + Unread(old(stream)) == size - 1) && n + Unread(old(stream)) <= size - 1
                && stream == Stream(old(stream).written + src[..n], old(stream).taken)
    {
      hide Write, WriteCount, WellFormed, Cell;
      ghost var rb, s := Value(), stream;
      n := StoreBytes(src);
      if Refines(rb, s) {
        WriteExtendsStream(rb, s, src);
        stream := Stream(s.written + src[..n], s.taken);
      }
    }

    method StoreBytes(src: seq<Byte>) returns (n: nat)
      requires Valid()
      modifies this`writePtr, buf
      ensures n == old(WriteCount(Value(), |src|)) && n <= |src|
      ensures Value() == old(Write(Value(), src))
    {
      hide Masked, Blit, WriteSpace, ReadSpace;
      ghost var rb := Value();
      SpaceBounds(rb);
      var free := GetWriteSpace();
      n := if |src| > free then free else |src|;
      SplitFits(writePtr, n, size);
      var (n1, n2) := Split(writePtr, n, size);
      assert src[..n][..n1] == src[..n1] && src[..n][n1..] == src[n1..n];
      if free == 0 {
        BlitEmpty(buf[..], writePtr, src[..n1]);
        BlitEmpty(buf[..], writePtr, src[n1..n]);
        return;
      }
      CopyIn(writePtr, src[..n1]);
      writePtr := Masked(writePtr + n1, size);
      if n2 > 0 {
        CopyIn(writePtr, src[n1..n]);
        writePtr := Masked(writePtr + n2, size);
      } else {
        BlitEmpty(buf[..], writePtr, src[n1..n]);
      }
    }

    /** The two `memcpy` calls of read and peek. */
    method CopyTwo(dest: array<Byte>, off: nat, n1: nat, next: nat, n2: nat)
      requires dest != buf && n1 + n2 <= dest.Length
      requires off + n1 <= buf.Length && next + n2 <= buf.Length
      modifies dest
      ensures dest[..n1 + n2] == buf[..][off..off + n1] + buf[..][next..next + n2]
      ensures dest[n1 + n2..] == old(dest[n1 + n2..])
    {
      CopyOut(dest, 0, off, n1);
      if n2 > 0 {
        CopyOut(dest, n1, next, n2);
      }
    }

    /** Their segments start at the read pointer. */
    method CopySegments(dest: array<Byte>, n: nat, ghost cnt: nat)
      requires Valid() && dest != buf && n <= dest.Length && n == ReadCount(Value(), cnt)
      modifies dest
      ensures dest[..n] == Peek(Value(), cnt)
      ensures dest[n..] == old(dest[n..])
    {
      hide Masked, WriteSpace, ReadSpace, Peek, Split, WellFormed, ReadCount;
      PeekParts(Value(), cnt);
      var (n1, n2) := Split(readPtr, n, size);
      CopyTwo(dest, readPtr, n1, Masked(readPtr + n1, size), n2);
    }

    /** jack_ringbuffer_read; only the bytes read are written to `dest`. */
    method ReadBytes(dest: array<Byte>, cnt: nat) returns (n: nat)
      requires Valid() && dest != buf && cnt <= dest.Length
      modifies this`readPtr, this`stream, dest
      ensures n <= cnt && dest[..n] == old(Peek(Value(), cnt)) && dest[n..] == old(dest[n..])
      ensures Value() == old(Read(Value(), cnt))
      ensures old(Represents()) ==>
                && Represents()
                && n == Min(cnt, Unread(old(stream)))
                && dest[..n] == Front(old(stream), n)
                && stream == old(stream).(taken := old(stream.taken) + n)
    {
      hide Read, Peek, Refines, WellFormed, ReadCount;
      ghost var rb, s := Value(), stream;
      n := FetchBytes(dest, cnt);
      if Refines(rb, s) {
        PeekIsNextOfStream(rb, s, cnt);
        ReadAdvancesStream(rb, s, cnt);
        stream := s.(taken := s.taken + n);
      }
    }

    method FetchBytes(dest: array<Byte>, cnt: nat) returns (n: nat)
      requires Valid() && dest != buf && cnt <= dest.Length
      modifies this`readPtr, dest
      ensures n == old(ReadCount(Value(), cnt)) && n <= cnt
      ensures dest[..n] == old(Peek(Value(), cnt)) && dest[n..] == old(dest[n..])
      ensures Value() == old(Read(Value(), cnt))
    {
      hide Masked, WriteSpace, ReadSpace, Gather;
      ghost var rb := Value();
      SpaceBounds(rb);
      var free := GetReadSpace();
      n := if cnt > free then free else cnt;
      SplitFits(readPtr, n, size);
      CopySegments(dest, n, cnt);
      if free == 0 {
        return;
      }
      var (n1, n2) := Split(readPtr, n, size);
      readPtr := Masked(readPtr + n1, size);
      if n2 > 0 {
        readPtr := Masked(readPtr + n2, size);
      }
    }

    /** jack_ringbuffer_peek. */
    method PeekBytes(dest: array<Byte>, cnt: nat) returns (n: nat)
      requires Valid() && dest != buf && cnt <= dest.Length
      modifies dest
      ensures n <= cnt && dest[..n] == Peek(Value(), cnt) && dest[n..] == old(dest[n..])
      ensures Value() == old(Value())
      ensures Represents() ==>
                && n == Min(cnt, Unread(stream))
                && dest[..n] == Front(stream, n)
    {
      hide Peek, ReadSpace, WriteSpace;
      if Represents() { PeekIsNextOfStream(Value(), stream, cnt); }
      var free := GetReadSpace();
      n := if cnt > free then free else cnt;
      CopySegments(dest, n, cnt);
    }

    method AdvanceRead(cnt: nat)
      requires Valid()
      modifies this`readPtr, this`stream
      ensures Value() == old(ReadAdvance(Value(), cnt))
      ensures old(Represents()) && cnt <= Unread(old(stream)) ==>
                Represents() && stream == old(stream).(taken := old(stream.taken) + cnt)
    {
      hide ReadSpace, WriteSpace, Masked;
      ghost var rb, s := Value(), stream;
      var tmp := Masked(readPtr + cnt, size);
      readPtr := tmp;
      if Refines(rb, s) && cnt <= Unread(s) {
        SpacesAreCounterDifferences(rb, s);
        CopyAdvancesStream(rb, s, cnt);
        stream := s.(taken := s.taken + cnt);
      }
    }

    method AdvanceWrite(cnt: nat)
      requires Valid()
      modifies this`writePtr, this`stream
      ensures Value() == old(WriteAdvance(Value(), cnt))
      ensures old(Represents()) && cnt + Unread(old(stream)) <= size - 1 ==>
                && Represents()
                && stream == Stream(old(stream).written + Gather(buf[..], old(writePtr), cnt, size), old(stream).taken)
    {
      hide Masked, Gather;
      ghost var rb, s := Value(), stream;
      var tmp := Masked(writePtr + cnt, size);
      writePtr := tmp;
      if Refines(rb, s) && cnt + Unread(s) <= rb.size - 1 {
        AdvancePublishes(rb, s, cnt);
        stream := Stream(s.written + Gather(rb.buf, rb.writePtr, cnt, rb.size), s.taken);
      }
    }

    method Clear()
      requires Valid()
      modifies this`readPtr, this`writePtr, this`stream, buf
      ensures Value() == Reset(old(Value()))
      ensures Represents() && stream == Stream([], 0)
    {
      ghost var was := Value();
      readPtr := 0;
      writePtr := 0;
      for k := 0 to size
        invariant readPtr == writePtr == 0
        invariant forall j :: 0 <= j < buf.Length ==> buf[j] == if j < k then 0 else old(buf[j])
      {
        buf[k] := 0;
      }
      assert Value().buf == Reset(was).buf;
      ResetEmptiesStream(was);
      stream := Stream([], 0);
    }
  }
}
