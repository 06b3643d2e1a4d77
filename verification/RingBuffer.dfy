/** The JACK ring buffer as a value: one function per operation of
    `pipewire-jack/src/ringbuffer.c`, written with the source's masked
    pointers, and the proof that these refine an unbounded byte stream with
    two counters. */
module RingBuffer {
  import opened Bits
  import opened Common

  type Byte = bv8

  const SIZE_T_MOD: nat := 0x1_0000_0000_0000_0000
  const MAX_SIZE: nat := 0x4000_0000

  /** Unsigned wrap-around of `size_t`. */
  function SizeT(x: int): nat {
    x % SIZE_T_MOD
  }

  datatype Ring = Ring(buf: seq<Byte>, writePtr: nat, readPtr: nat, size: nat)

  ghost predicate ValidSize(size: nat) {
    IsPow2(size) && 2 <= size <= MAX_SIZE
  }

  ghost predicate WellFormed(rb: Ring) {
    && ValidSize(rb.size)
    && rb.size <= |rb.buf|
    && rb.writePtr < rb.size
    && rb.readPtr < rb.size
  }

  /** `x & rb->size_mask` for a `size_t` expression `x`. */
  function Masked(x: int, size: nat): nat
    requires size >= 1
  {
    BitAnd(SizeT(x), size - 1)
  }

  function ReadSpace(w: nat, r: nat, size: nat): nat
    requires size >= 1
  {
    if w > r then w - r else Masked(w - r + size, size)
  }

  function WriteSpace(w: nat, r: nat, size: nat): nat
    requires size >= 1
  {
    if w > r then SizeT(Masked(r - w + size, size) - 1)
    else if w < r then r - w - 1
    else size - 1
  }

  /** The two segment lengths `n1`, `n2` of a transfer of `n` bytes at `ptr`. */
  function Split(ptr: nat, n: nat, size: nat): (nat, nat)
    requires 1 <= size && ptr <= size
  {
    if ptr + n > size then (size - ptr, Masked(ptr + n, size)) else (n, 0)
  }

  lemma MaskedIsCell(x: nat, size: nat)
    requires ValidSize(size) && x < SIZE_T_MOD
    ensures Masked(x, size) == Cell(x, size)
  {
    MaskSize(x, size);
  }

  lemma SplitFits(ptr: nat, n: nat, size: nat)
    requires ValidSize(size) && ptr < size && n < size
    ensures var (n1, n2) := Split(ptr, n, size);
            && n1 + n2 == n && ptr + n1 <= size
            && (n2 > 0 ==> ptr + n1 == size)
            && (n2 == 0 ==> Masked(ptr + n1, size) == Cell(ptr + n, size))
            && Masked(ptr + n1, size) == (if ptr + n1 == size then 0 else ptr + n1)
            && Masked(Masked(ptr + n1, size) + n2, size) == Cell(ptr + n, size)
  {
    MaskedIsCell(ptr + n, size);
    var (n1, n2) := Split(ptr, n, size);
    MaskedIsCell(ptr + n1, size);
    MaskedIsCell(Masked(ptr + n1, size) + n2, size);
  }

  /** `memcpy` of `data` to offset `off`. */
  function Blit(buf: seq<Byte>, off: nat, data: seq<Byte>): (b: seq<Byte>)
    requires off + |data| <= |buf|
    ensures |b| == |buf|
    decreases |data|
  {
    if data == [] then buf else Blit(buf[off := data[0]], off + 1, data[1..])
  }

  /** The two `memcpy` calls of read and peek. */
  function Gather(buf: seq<Byte>, ptr: nat, n: nat, size: nat): seq<Byte>
    requires ValidSize(size) && ptr < size <= |buf| && n < size
  {
    SplitFits(ptr, n, size);
    var (n1, n2) := Split(ptr, n, size);
    var next := Masked(ptr + n1, size);
    buf[ptr..ptr + n1] + buf[next..next + n2]
  }

  /** The two `memcpy` calls of write. */
  function Scatter(buf: seq<Byte>, ptr: nat, data: seq<Byte>, size: nat): seq<Byte>
    requires ValidSize(size) && ptr < size <= |buf| && |data| < size
  {
    SplitFits(ptr, |data|, size);
    var (n1, n2) := Split(ptr, |data|, size);
    var next := Masked(ptr + n1, size);
    Blit(Blit(buf, ptr, data[..n1]), next, data[n1..])
  }

  lemma GatherCells(buf: seq<Byte>, ptr: nat, n: nat, size: nat)
    requires ValidSize(size) && ptr < size <= |buf| && n < size
    ensures |Gather(buf, ptr, n, size)| == n
    ensures forall i :: 0 <= i < n ==> Gather(buf, ptr, n, size)[i] == buf[Cell(ptr + i, size)]
  {
    SplitFits(ptr, n, size);
    forall i | 0 <= i < n ensures Gather(buf, ptr, n, size)[i] == buf[Cell(ptr + i, size)] {
    }
  }

  lemma {:induction false} BlitAt(buf: seq<Byte>, off: nat, data: seq<Byte>, j: nat)
    requires off + |data| <= |buf| && j < |buf|
    ensures Blit(buf, off, data)[j] == if off <= j < off + |data| then data[j - off] else buf[j]
    decreases |data|
  {
    if data != [] { BlitAt(buf[off := data[0]], off + 1, data[1..], j); }
  }

  lemma BlitEmpty(buf: seq<Byte>, off: nat, data: seq<Byte>)
    requires off <= |buf| && data == []
    ensures Blit(buf, off, data) == buf
  {
  }

  lemma ScatterAt(buf: seq<Byte>, ptr: nat, data: seq<Byte>, size: nat, j: nat)
    requires ValidSize(size) && ptr < size <= |buf| && |data| < size && j < size
    ensures |Scatter(buf, ptr, data, size)| == |buf|
    ensures var k := if j < ptr then j + size - ptr else j - ptr;
            Scatter(buf, ptr, data, size)[j] == if k < |data| then data[k] else buf[j]
  {
    SplitFits(ptr, |data|, size);
    var (n1, n2) := Split(ptr, |data|, size);
    var next := Masked(ptr + n1, size);
    var first := Blit(buf, ptr, data[..n1]);
    BlitAt(buf, ptr, data[..n1], j);
    BlitAt(first, next, data[n1..], j);
  }

  /** Writing at counter `w` fills the cells of the next counters and keeps the others. */
  lemma ScatterCell(buf: seq<Byte>, w: nat, data: seq<Byte>, size: nat, i: nat)
    requires ValidSize(size) && size <= |buf| && |data| < size
    requires i < w + |data| < i + size
    ensures var b := Scatter(buf, Cell(w, size), data, size);
            && |b| == |buf|
            && b[Cell(i, size)] == if i < w then buf[Cell(i, size)] else data[i - w]
  {
    hide Cell, Scatter;
    ScatterAt(buf, Cell(w, size), data, size, Cell(i, size));
    if i < w {
      CellNear(w, w - i, size);
    } else {
      CellNear(w, i - w, size);
    }
  }

  function WriteCount(rb: Ring, cnt: nat): nat
    requires rb.size >= 1
  {
    Min(cnt, WriteSpace(rb.writePtr, rb.readPtr, rb.size))
  }

  function ReadCount(rb: Ring, cnt: nat): nat
    requires rb.size >= 1
  {
    Min(cnt, ReadSpace(rb.writePtr, rb.readPtr, rb.size))
  }

  lemma SpaceBounds(rb: Ring)
    requires WellFormed(rb)
    ensures ReadSpace(rb.writePtr, rb.readPtr, rb.size) < rb.size
    ensures ReadSpace(rb.writePtr, rb.readPtr, rb.size) + WriteSpace(rb.writePtr, rb.readPtr, rb.size) == rb.size - 1
  {
    var w, r, size := rb.writePtr, rb.readPtr, rb.size;
    if w > r {
      MaskedIsCell(r + size - w, size);
    } else {
      MaskedIsCell(w + size - r, size);
    }
  }

  /** jack_ringbuffer_write: the new ring; `WriteCount` bytes are taken from `src`. */
  function Write(rb: Ring, src: seq<Byte>): Ring
    requires WellFormed(rb)
  {
    SpaceBounds(rb);
    var n := WriteCount(rb, |src|);
    SplitFits(rb.writePtr, n, rb.size);
    var (n1, n2) := Split(rb.writePtr, n, rb.size);
    var next := Masked(rb.writePtr + n1, rb.size);
    rb.(buf := Scatter(rb.buf, rb.writePtr, src[..n], rb.size),
        writePtr := if n2 > 0 then Masked(next + n2, rb.size) else next)
  }

  /** jack_ringbuffer_peek: the bytes copied out. */
  function Peek(rb: Ring, cnt: nat): seq<Byte>
    requires WellFormed(rb)
  {
    SpaceBounds(rb);
    Gather(rb.buf, rb.readPtr, ReadCount(rb, cnt), rb.size)
  }

  /** jack_ringbuffer_read: the ring afterwards; the bytes are those of `Peek`. */
  function Read(rb: Ring, cnt: nat): Ring
    requires WellFormed(rb)
  {
    SpaceBounds(rb);
    var n := ReadCount(rb, cnt);
    SplitFits(rb.readPtr, n, rb.size);
    var (n1, n2) := Split(rb.readPtr, n, rb.size);
    var next := Masked(rb.readPtr + n1, rb.size);
    rb.(readPtr := if n2 > 0 then Masked(next + n2, rb.size) else next)
  }

  function ReadAdvance(rb: Ring, cnt: nat): Ring
    requires rb.size >= 1
  {
    rb.(readPtr := Masked(rb.readPtr + cnt, rb.size))
  }

  function WriteAdvance(rb: Ring, cnt: nat): Ring
    requires rb.size >= 1
  {
    rb.(writePtr := Masked(rb.writePtr + cnt, rb.size))
  }

  /** Two (offset, length) pairs into the buffer. */
  datatype Vectors = Vectors(off0: nat, len0: nat, off1: nat, len1: nat)

  function GetReadVector(rb: Ring): Vectors
    requires WellFormed(rb)
  {
    var (n1, n2) := Split(rb.readPtr, ReadSpace(rb.writePtr, rb.readPtr, rb.size), rb.size);
    Vectors(rb.readPtr, n1, 0, n2)
  }

  function GetWriteVector(rb: Ring): Vectors
    requires WellFormed(rb)
  {
    var (n1, n2) := Split(rb.writePtr, WriteSpace(rb.writePtr, rb.readPtr, rb.size), rb.size);
    Vectors(rb.writePtr, n1, 0, n2)
  }

  function Reset(rb: Ring): Ring
    requires rb.size <= |rb.buf|
  {
    rb.(buf := seq(rb.size, _ => 0) + rb.buf[rb.size..], readPtr := 0, writePtr := 0)
  }

  /** A client filling the write vectors with `src`, first vector first. */
  function FillVectors(rb: Ring, v: Vectors, src: seq<Byte>): Ring
    requires v.off0 + v.len0 <= |rb.buf| && v.off1 + v.len1 <= |rb.buf|
    requires |src| <= v.len0 + v.len1
  {
    var k := Min(|src|, v.len0);
    rb.(buf := Blit(Blit(rb.buf, v.off0, src[..k]), v.off1, src[k..]))
  }

  /** A client copying `n` bytes out of the read vectors, first vector first. */
  function CopyVectors(rb: Ring, v: Vectors, n: nat): seq<Byte>
    requires v.off0 + v.len0 <= |rb.buf| && v.off1 + v.len1 <= |rb.buf|
    requires n <= v.len0 + v.len1
  {
    var k := Min(n, v.len0);
    rb.buf[v.off0..v.off0 + k] + rb.buf[v.off1..v.off1 + (n - k)]
  }

  /** Filling the write vectors and advancing by what was filled. */
  function FillAdvance(rb: Ring, src: seq<Byte>): Ring
    requires WellFormed(rb) && |src| <= WriteSpace(rb.writePtr, rb.readPtr, rb.size)
  {
    VectorsFit(rb);
    WriteAdvance(FillVectors(rb, GetWriteVector(rb), src), |src|)
  }

  // ---------------------------------------------------------------------
  // Vector access equals read and write

  lemma VectorsFit(rb: Ring)
    requires WellFormed(rb)
    ensures var v := GetReadVector(rb);
            && v.off0 + v.len0 <= rb.size && v.len1 <= rb.size
            && v.len0 + v.len1 == ReadSpace(rb.writePtr, rb.readPtr, rb.size)
    ensures var v := GetWriteVector(rb);
            && v.off0 + v.len0 <= rb.size && v.len1 <= rb.size
            && v.len0 + v.len1 == WriteSpace(rb.writePtr, rb.readPtr, rb.size)
  {
    SpaceBounds(rb);
    SplitFits(rb.readPtr, ReadSpace(rb.writePtr, rb.readPtr, rb.size), rb.size);
    SplitFits(rb.writePtr, WriteSpace(rb.writePtr, rb.readPtr, rb.size), rb.size);
  }

  lemma FillThenAdvanceIsWrite(rb: Ring, src: seq<Byte>)
    requires WellFormed(rb)
    requires |src| <= WriteSpace(rb.writePtr, rb.readPtr, rb.size)
    ensures FillAdvance(rb, src) == Write(rb, src)
  {
    hide Cell, Masked, Scatter, ReadSpace, WriteSpace, Write, FillVectors;
    VectorsFit(rb);
    WriteShape(rb, src);
    assert src[..|src|] == src;
    MaskedIsCell(rb.writePtr + |src|, rb.size);
    FillIsScatter(rb, GetWriteVector(rb), src);
  }

  lemma FillIsScatter(rb: Ring, v: Vectors, src: seq<Byte>)
    requires WellFormed(rb) && |src| < rb.size
    requires v.off0 == rb.writePtr && v.off1 == 0 && v.len1 <= rb.size
    requires v.len0 == (if v.len1 > 0 then rb.size - rb.writePtr else v.len0) && v.off0 + v.len0 <= rb.size
    requires |src| <= v.len0 + v.len1
    ensures FillVectors(rb, v, src) == rb.(buf := Scatter(rb.buf, rb.writePtr, src, rb.size))
  {
    SplitFits(rb.writePtr, |src|, rb.size);
  }

  lemma CopyThenAdvanceIsRead(rb: Ring, n: nat)
    requires WellFormed(rb)
    requires n <= ReadSpace(rb.writePtr, rb.readPtr, rb.size)
    ensures var v := GetReadVector(rb);
            && v.off0 + v.len0 <= |rb.buf| && v.off1 + v.len1 <= |rb.buf| && n <= v.len0 + v.len1
            && CopyVectors(rb, v, n) == Peek(rb, n)
            && ReadAdvance(rb, n) == Read(rb, n)
  {
    hide Cell, Masked, ReadSpace, WriteSpace;
    VectorsFit(rb);
    SpaceBounds(rb);
    SplitFits(rb.readPtr, n, rb.size);
    MaskedIsCell(rb.readPtr + n, rb.size);
  }

  // ---------------------------------------------------------------------
  // Refinement of an unbounded stream

  /** Everything ever written since the last reset, and how much of it was taken. */
  datatype Stream = Stream(written: seq<Byte>, taken: nat)

  function Unread(s: Stream): nat {
    if s.taken <= |s.written| then |s.written| - s.taken else 0
  }

  /** The next `n` bytes to be read. */
  function Front(s: Stream, n: nat): seq<Byte> {
    if s.taken + n <= |s.written| then s.written[s.taken..s.taken + n] else []
  }

  /** Byte `i` of the stream is in its cell. */
  predicate Holds(buf: seq<Byte>, size: nat, written: seq<Byte>, i: nat)
    requires 0 < size <= |buf|
  {
    i < |written| && buf[Cell(i, size)] == written[i]
  }

  ghost predicate Refines(rb: Ring, s: Stream) {
    && WellFormed(rb)
    && s.taken <= |s.written| <= s.taken + rb.size - 1
    && rb.writePtr == Cell(|s.written|, rb.size)
    && rb.readPtr == Cell(s.taken, rb.size)
    && forall i: nat :: s.taken <= i < |s.written| ==> Holds(rb.buf, rb.size, s.written, i)
  }

  lemma SpacesAreCounterDifferences(rb: Ring, s: Stream)
    requires Refines(rb, s)
    ensures ReadSpace(rb.writePtr, rb.readPtr, rb.size) == |s.written| - s.taken
    ensures WriteSpace(rb.writePtr, rb.readPtr, rb.size) == rb.size - 1 - (|s.written| - s.taken)
  {
    SpaceBounds(rb);
    var n := |s.written| - s.taken;
    CellAdd(s.taken, n, rb.size);
    if rb.writePtr <= rb.readPtr {
      MaskedIsCell(rb.writePtr + rb.size - rb.readPtr, rb.size);
    }
  }

  lemma WriteShape(rb: Ring, src: seq<Byte>)
    requires WellFormed(rb)
    ensures WriteCount(rb, |src|) <= |src| && WriteCount(rb, |src|) < rb.size
    ensures var data := src[..WriteCount(rb, |src|)];
            Write(rb, src) == rb.(buf := Scatter(rb.buf, rb.writePtr, data, rb.size),
                                  writePtr := Cell(rb.writePtr + |data|, rb.size))
  {
    SpaceBounds(rb);
    SplitFits(rb.writePtr, WriteCount(rb, |src|), rb.size);
  }

  lemma ScatterExtendsStream(rb: Ring, s: Stream, data: seq<Byte>)
    requires Refines(rb, s)
    requires |s.written| + |data| <= s.taken + rb.size - 1
    ensures Refines(rb.(buf := Scatter(rb.buf, rb.writePtr, data, rb.size),
                        writePtr := Cell(rb.writePtr + |data|, rb.size)),
                    Stream(s.written + data, s.taken))
  {
    hide Cell, Scatter;
    CellAdd(|s.written|, |data|, rb.size);
    var b, s' := Scatter(rb.buf, rb.writePtr, data, rb.size), Stream(s.written + data, s.taken);
    ScatterAt(rb.buf, rb.writePtr, data, rb.size, 0);
    forall i: nat | s'.taken <= i < |s'.written| ensures Holds(b, rb.size, s'.written, i) {
      ScatterCell(rb.buf, |s.written|, data, rb.size, i);
      assert i < |s.written| ==> Holds(rb.buf, rb.size, s.written, i);
    }
  }

  lemma WriteExtendsStream(rb: Ring, s: Stream, src: seq<Byte>)
    requires Refines(rb, s)
    ensures WriteCount(rb, |src|) == Min(|src|, rb.size - 1 - (|s.written| - s.taken))
    ensures Write(rb, src).size == rb.size
    ensures Refines(Write(rb, src), Stream(s.written + src[..WriteCount(rb, |src|)], s.taken))
  {
    WriteShape(rb, src);
    SpacesAreCounterDifferences(rb, s);
    ScatterExtendsStream(rb, s, src[..WriteCount(rb, |src|)]);
  }

  lemma PeekIsNextOfStream(rb: Ring, s: Stream, cnt: nat)
    requires Refines(rb, s)
    ensures ReadCount(rb, cnt) == Min(cnt, |s.written| - s.taken)
    ensures Peek(rb, cnt) == s.written[s.taken..s.taken + ReadCount(rb, cnt)]
  {
    hide Cell, Masked, Gather, ReadSpace, WriteSpace;
    SpacesAreCounterDifferences(rb, s);
    SpaceBounds(rb);
    var n := ReadCount(rb, cnt);
    GatherCells(rb.buf, rb.readPtr, n, rb.size);
    forall i | 0 <= i < n ensures Peek(rb, cnt)[i] == s.written[s.taken + i] {
      CellAdd(s.taken, i, rb.size);
      assert Holds(rb.buf, rb.size, s.written, s.taken + i);
    }
  }

  lemma ReadAdvancesStream(rb: Ring, s: Stream, cnt: nat)
    requires Refines(rb, s)
    ensures Read(rb, cnt).size == rb.size
    ensures Refines(Read(rb, cnt), s.(taken := s.taken + ReadCount(rb, cnt)))
  {
    hide Cell, Masked, ReadSpace, WriteSpace;
    SpacesAreCounterDifferences(rb, s);
    var n := ReadCount(rb, cnt);
    SplitFits(rb.readPtr, n, rb.size);
    CellAdd(s.taken, n, rb.size);
  }

  lemma FillExtendsStream(rb: Ring, s: Stream, src: seq<Byte>)
    requires Refines(rb, s) && |src| <= WriteSpace(rb.writePtr, rb.readPtr, rb.size)
    ensures FillAdvance(rb, src).size == rb.size
    ensures Refines(FillAdvance(rb, src), Stream(s.written + src, s.taken))
  {
    FillThenAdvanceIsWrite(rb, src);
    WriteExtendsStream(rb, s, src);
    assert src[..|src|] == src;
  }

  /** write_advance publishes whatever is in the next cells. */
  lemma AdvancePublishes(rb: Ring, s: Stream, n: nat)
    requires Refines(rb, s) && n <= rb.size - 1 - (|s.written| - s.taken)
    ensures Refines(WriteAdvance(rb, n), Stream(s.written + Gather(rb.buf, rb.writePtr, n, rb.size), s.taken))
  {
    hide Cell, Masked, Gather;
    MaskedIsCell(rb.writePtr + n, rb.size);
    CellAdd(|s.written|, n, rb.size);
    GatherCells(rb.buf, rb.writePtr, n, rb.size);
    var written := s.written + Gather(rb.buf, rb.writePtr, n, rb.size);
    forall i: nat | s.taken <= i < |written| ensures Holds(rb.buf, rb.size, written, i) {
      if i < |s.written| {
        assert Holds(rb.buf, rb.size, s.written, i);
      } else {
        CellAdd(|s.written|, i - |s.written|, rb.size);
      }
    }
  }

  lemma CopyAdvancesStream(rb: Ring, s: Stream, n: nat)
    requires Refines(rb, s) && n <= ReadSpace(rb.writePtr, rb.readPtr, rb.size)
    ensures Refines(ReadAdvance(rb, n), s.(taken := s.taken + n))
    ensures n <= |s.written| - s.taken
    ensures var v := GetReadVector(rb);
            && v.off0 + v.len0 <= |rb.buf| && v.off1 + v.len1 <= |rb.buf| && n <= v.len0 + v.len1
            && CopyVectors(rb, v, n) == s.written[s.taken..s.taken + n]
  {
    CopyThenAdvanceIsRead(rb, n);
    PeekIsNextOfStream(rb, s, n);
    ReadAdvancesStream(rb, s, n);
  }

  lemma ResetEmptiesStream(rb: Ring)
    requires WellFormed(rb)
    ensures Refines(Reset(rb), Stream([], 0))
  {
  }

  // ---------------------------------------------------------------------
  // Whole runs

  datatype Op =
    | OpWrite(src: seq<Byte>)
    | OpRead(cnt: nat)
    | OpPeek(cnt: nat)
    | OpFillAdvance(src: seq<Byte>)
    | OpCopyAdvance(cnt: nat)
    | OpReset

  /** What an operation reports: a byte count, or the bytes copied out. */
  datatype Output = Wrote(n: nat) | Got(bytes: seq<Byte>) | Done

  /** Advancing by more than a vector holds is outside the interface. */
  predicate Allowed(rb: Ring, op: Op)
    requires rb.size >= 1
  {
    match op
    case OpFillAdvance(src) => |src| <= WriteSpace(rb.writePtr, rb.readPtr, rb.size)
    case OpCopyAdvance(n) => n <= ReadSpace(rb.writePtr, rb.readPtr, rb.size)
    case _ => true
  }

  function Apply(rb: Ring, op: Op): (Ring, Output)
    requires WellFormed(rb) && Allowed(rb, op)
  {
    match op
    case OpWrite(src) => (Write(rb, src), Wrote(WriteCount(rb, |src|)))
    case OpRead(n) => (Read(rb, n), Got(Peek(rb, n)))
    case OpPeek(n) => (rb, Got(Peek(rb, n)))
    case OpFillAdvance(src) =>
      (FillAdvance(rb, src), Done)
    case OpCopyAdvance(n) =>
      VectorsFit(rb);
      (ReadAdvance(rb, n), Got(CopyVectors(rb, GetReadVector(rb), n)))
    case OpReset => (Reset(rb), Done)
  }

  /** The same operation on the stream, for a ring that holds at most `cap` bytes. */
  function ApplyStream(s: Stream, cap: nat, op: Op): (Stream, Output)
    requires s.taken <= |s.written| <= s.taken + cap
  {
    var avail := |s.written| - s.taken;
    match op
    case OpWrite(src) =>
      var n := Min(|src|, cap - avail);
      (Stream(s.written + src[..n], s.taken), Wrote(n))
    case OpRead(cnt) =>
      var n := Min(cnt, avail);
      (s.(taken := s.taken + n), Got(s.written[s.taken..s.taken + n]))
    case OpPeek(cnt) => (s, Got(s.written[s.taken..s.taken + Min(cnt, avail)]))
    case OpFillAdvance(src) => (Stream(s.written + src, s.taken), Done)
    case OpCopyAdvance(cnt) =>
      var n := Min(cnt, avail);
      (s.(taken := s.taken + n), Got(s.written[s.taken..s.taken + n]))
    case OpReset => (Stream([], 0), Done)
  }

  lemma StepRefines(rb: Ring, s: Stream, op: Op)
    requires Refines(rb, s) && Allowed(rb, op)
    ensures Refines(Apply(rb, op).0, ApplyStream(s, rb.size - 1, op).0)
    ensures Apply(rb, op).1 == ApplyStream(s, rb.size - 1, op).1
    ensures Apply(rb, op).0.size == rb.size
  {
    hide Cell, Write, Read, Peek, FillAdvance, CopyVectors, GetReadVector, ReadSpace, WriteSpace;
    SpacesAreCounterDifferences(rb, s);
    match op
    case OpWrite(src) => WriteExtendsStream(rb, s, src);
    case OpRead(n) =>
      PeekIsNextOfStream(rb, s, n);
      ReadAdvancesStream(rb, s, n);
    case OpPeek(n) => PeekIsNextOfStream(rb, s, n);
    case OpFillAdvance(src) =>
      FillExtendsStream(rb, s, src);
    case OpCopyAdvance(n) =>
      CopyAdvancesStream(rb, s, n);
    case OpReset => ResetEmptiesStream(rb);
  }

  /** A run: the ring before each operation, and its outputs. */
  ghost predicate IsRun(rings: seq<Ring>, ops: seq<Op>, outs: seq<Output>) {
    && |rings| == |ops| + 1 && |outs| == |ops|
    && forall i :: 0 <= i < |ops| ==>
         && WellFormed(rings[i]) && Allowed(rings[i], ops[i])
         && (rings[i + 1], outs[i]) == Apply(rings[i], ops[i])
  }

  /** The stream after the first `n` operations of a run. */
  ghost function StreamAfter(s: Stream, size: nat, ops: seq<Op>, n: nat): Stream
    requires n <= |ops|
  {
    if n == 0 then s
    else
      var t := StreamAfter(s, size, ops, n - 1);
      if t.taken <= |t.written| < t.taken + size then ApplyStream(t, size - 1, ops[n - 1]).0 else t
  }

  /** Every run refines the stream's: pointers are the counters' cells, the
      difference of the counters stays below the size, unread bytes are in place. */
  lemma {:induction false} RunRefinesStream(rings: seq<Ring>, ops: seq<Op>, outs: seq<Output>, s: Stream, n: nat)
    requires IsRun(rings, ops, outs) && n <= |ops|
    requires Refines(rings[0], s)
    ensures rings[n].size == rings[0].size
    ensures Refines(rings[n], StreamAfter(s, rings[0].size, ops, n))
  {
    hide Apply, Allowed, ApplyStream;
    if n > 0 {
      RunRefinesStream(rings, ops, outs, s, n - 1);
      StepRefines(rings[n - 1], StreamAfter(s, rings[0].size, ops, n - 1), ops[n - 1]);
    }
  }

  /** And every operation reports what the stream's does. */
  lemma RunOutputsAgree(rings: seq<Ring>, ops: seq<Op>, outs: seq<Output>, s: Stream, n: nat)
    requires IsRun(rings, ops, outs) && n < |ops|
    requires Refines(rings[0], s)
    ensures var t := StreamAfter(s, rings[0].size, ops, n);
            && t.taken <= |t.written| <= t.taken + (rings[0].size - 1)
            && outs[n] == ApplyStream(t, rings[0].size - 1, ops[n]).1
  {
    hide Apply, Allowed, ApplyStream;
    RunRefinesStream(rings, ops, outs, s, n);
    assert (rings[n + 1], outs[n]) == Apply(rings[n], ops[n]);
    StepRefines(rings[n], StreamAfter(s, rings[0].size, ops, n), ops[n]);
  }
}
