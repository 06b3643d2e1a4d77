/** One reader thread and one writer thread on the same ring buffer.

    The machine's steps are the shared-memory accesses of the interface. read and
    write load the other side's pointer (once per call), copy one byte of the
    current segment (in any order, bytes may be copied again), and publish the
    own pointer after a segment. peek and the read vector load the pointer and
    look at bytes; read_advance publishes any part of them. The write vector
    loads the pointer and is filled byte by byte, in any order and more than
    once; write_advance publishes any part of it. Memory is sequentially
    consistent. `accepted`, `written` and `out` are history: the bytes write
    calls agreed to take, the bytes published, the bytes handed to readers. */
module RingProtocol {
  import opened Bits
  import opened Common
  import opened RingBuffer

  datatype Writer =
    | WIdle
    | WCopy(data: seq<Byte>, rest: seq<Byte>, done: set<nat>)
    | WVectors(n: nat)

  datatype Reader =
    | RIdle
    | RCopy(n: nat, rest: nat, got: map<nat, Byte>)
    | RVectors(n: nat, got: map<nat, Byte>)

  datatype State = State(
    rb: Ring, writer: Writer, reader: Reader,
    accepted: seq<Byte>, written: seq<Byte>, out: seq<Byte>)

  datatype Step =
    | WLoad(src: seq<Byte>)
    | WByte(j: nat)
    | WPublish
    | WVector
    | WFill(j: nat, b: Byte)
    | WAdvance(cnt: nat)
    | RLoad(cnt: nat)
    | RByte(j: nat)
    | RPublish
    | RLook(cnt: nat)     // peek; the read vector asks for everything
    | RLookByte(j: nat)
    | RAdvance(cnt: nat)  // by nothing after a peek

  ghost predicate Init(s: State) {
    && WellFormed(s.rb) && s.rb.writePtr == 0 && s.rb.readPtr == 0
    && s.writer == WIdle && s.reader == RIdle
    && s.accepted == [] && s.written == [] && s.out == []
  }

  ghost predicate Enabled(s: State, step: Step) {
    && WellFormed(s.rb)
    && match step
       case WLoad(_) => s.writer.WIdle?
       case WByte(j) => s.writer.WCopy? && j < |s.writer.data| && s.rb.writePtr + j < |s.rb.buf|
       case WPublish => s.writer.WCopy? && forall j: nat :: j < |s.writer.data| ==> j in s.writer.done
       case WVector => s.writer.WIdle?
       case WFill(j, _) => s.writer.WVectors? && j < s.writer.n
       case WAdvance(cnt) => s.writer.WVectors? && cnt <= s.writer.n
       case RLoad(_) => s.reader.RIdle?
       case RByte(j) => s.reader.RCopy? && j < s.reader.n && s.rb.readPtr + j < |s.rb.buf|
       case RPublish => s.reader.RCopy? && forall j: nat :: j < s.reader.n ==> j in s.reader.got
       case RLook(_) => s.reader.RIdle?
       case RLookByte(j) => s.reader.RVectors? && j < s.reader.n
       case RAdvance(cnt) => s.reader.RVectors? && cnt <= s.reader.n
  }

  ghost function Apply(s: State, step: Step): State
    requires Enabled(s, step)
  {
    match step
    case WLoad(src) => LoadWriter(s, src)
    case WByte(j) => CopyInByte(s, j)
    case WPublish => PublishWriter(s)
    case WVector => s.(writer := WVectors(WriteSpace(s.rb.writePtr, s.rb.readPtr, s.rb.size)))
    case WFill(j, b) => s.(rb := s.rb.(buf := s.rb.buf[Cell(s.rb.writePtr + j, s.rb.size) := b]))
    case WAdvance(cnt) => AdvanceWriter(s, cnt)
    case RLoad(cnt) => LoadReader(s, cnt)
    case RByte(j) => CopyOutByte(s, j)
    case RPublish => PublishReader(s)
    case RLook(cnt) => s.(reader := RVectors(Min(cnt, ReadSpace(s.rb.writePtr, s.rb.readPtr, s.rb.size)), map[]))
    case RLookByte(j) =>
      s.(reader := RVectors(s.reader.n, s.reader.got[j := s.rb.buf[Cell(s.rb.readPtr + j, s.rb.size)]]))
    case RAdvance(cnt) => AdvanceReader(s, cnt)
  }

  /** The bytes in the `n` cells from `ptr` on, across the wrap. */
  ghost function Cells(rb: Ring, ptr: nat, n: nat): (r: seq<Byte>)
    requires WellFormed(rb)
    ensures |r| == n
  {
    seq(n, j requires 0 <= j < n => rb.buf[Cell(ptr + j, rb.size)])
  }

  ghost function AdvanceWriter(s: State, cnt: nat): State
    requires WellFormed(s.rb)
  {
    var bytes := Cells(s.rb, s.rb.writePtr, cnt);
    s.(rb := WriteAdvance(s.rb, cnt), writer := WIdle, accepted := s.accepted + bytes, written := s.written + bytes)
  }

  ghost function AdvanceReader(s: State, cnt: nat): State
    requires WellFormed(s.rb)
  {
    s.(rb := ReadAdvance(s.rb, cnt), reader := RIdle, out := s.out + Cells(s.rb, s.rb.readPtr, cnt))
  }

  /** Reads `read_ptr`, fixes how much to write and the two segments. */
  ghost function LoadWriter(s: State, src: seq<Byte>): State
    requires WellFormed(s.rb)
  {
    var free := WriteSpace(s.rb.writePtr, s.rb.readPtr, s.rb.size);
    if free == 0 then s
    else
      SpaceBounds(s.rb);
      var n := Min(|src|, free);
      SplitFits(s.rb.writePtr, n, s.rb.size);
      var (n1, n2) := Split(s.rb.writePtr, n, s.rb.size);
      s.(writer := WCopy(src[..n1], src[n1..n1 + n2], {}), accepted := s.accepted + src[..n])
  }

  ghost function CopyInByte(s: State, j: nat): State
    requires s.writer.WCopy? && j < |s.writer.data| && s.rb.writePtr + j < |s.rb.buf|
  {
    s.(rb := s.rb.(buf := s.rb.buf[s.rb.writePtr + j := s.writer.data[j]]),
       writer := s.writer.(done := s.writer.done + {j}))
  }

  ghost function PublishWriter(s: State): State
    requires s.writer.WCopy? && s.rb.size >= 1
  {
    s.(rb := s.rb.(writePtr := Masked(s.rb.writePtr + |s.writer.data|, s.rb.size)),
       writer := if s.writer.rest == [] then WIdle else WCopy(s.writer.rest, [], {}),
       written := s.written + s.writer.data)
  }

  /** Reads `write_ptr`, fixes how much to read and the two segments. */
  ghost function LoadReader(s: State, cnt: nat): State
    requires WellFormed(s.rb)
  {
    var avail := ReadSpace(s.rb.writePtr, s.rb.readPtr, s.rb.size);
    if avail == 0 then s
    else
      var (n1, n2) := Split(s.rb.readPtr, Min(cnt, avail), s.rb.size);
      s.(reader := RCopy(n1, n2, map[]))
  }

  ghost function CopyOutByte(s: State, j: nat): State
    requires s.reader.RCopy? && s.rb.readPtr + j < |s.rb.buf|
  {
    s.(reader := RCopy(s.reader.n, s.reader.rest, s.reader.got[j := s.rb.buf[s.rb.readPtr + j]]))
  }

  ghost function PublishReader(s: State): State
    requires s.reader.RCopy? && s.rb.size >= 1
    requires forall j: nat :: j < s.reader.n ==> j in s.reader.got
  {
    s.(rb := s.rb.(readPtr := Masked(s.rb.readPtr + s.reader.n, s.rb.size)),
       reader := if s.reader.rest == 0 then RIdle else RCopy(s.reader.rest, 0, map[]),
       out := s.out + seq(s.reader.n, j requires 0 <= j < s.reader.n => s.reader.got[j]))
  }

  // ---------------------------------------------------------------------
  // Invariant

  ghost predicate WriterOk(s: State) {
    match s.writer
    case WIdle => s.accepted == s.written
    case WCopy(data, rest, done) =>
      && s.accepted == s.written + data + rest
      && |s.accepted| <= |s.out| + s.rb.size - 1
      && s.rb.writePtr + |data| <= s.rb.size
      && (rest != [] ==> s.rb.writePtr + |data| == s.rb.size)
      && forall j: nat :: j < |data| && j in done ==> Copied(s.rb, data, j)
    case WVectors(n) => s.accepted == s.written && |s.written| + n <= |s.out| + s.rb.size - 1
  }

  /** Byte `j` of the writer's segment is in place. */
  ghost predicate Copied(rb: Ring, data: seq<Byte>, j: nat) {
    j < |data| && rb.writePtr + j < |rb.buf| && rb.buf[rb.writePtr + j] == data[j]
  }

  ghost predicate ReaderOk(s: State) {
    match s.reader
    case RIdle => true
    case RCopy(n, rest, got) =>
      && |s.out| + n + rest <= |s.written|
      && s.rb.readPtr + n <= s.rb.size
      && (rest > 0 ==> s.rb.readPtr + n == s.rb.size)
      && forall j: nat :: j < n && j in got ==> Fetched(s, got, j)
    case RVectors(n, got) =>
      && |s.out| + n <= |s.written|
      && forall j: nat :: j < n && j in got ==> Fetched(s, got, j)
  }

  /** Byte `j` of the reader's segment is the byte the writer published there. */
  ghost predicate Fetched(s: State, got: map<nat, Byte>, j: nat) {
    j in got && |s.out| + j < |s.written| && got[j] == s.written[|s.out| + j]
  }

  ghost predicate Inv(s: State) {
    && Refines(s.rb, Stream(s.written, |s.out|))
    && s.out <= s.written
    && WriterOk(s)
    && ReaderOk(s)
  }

  lemma InitInv(s: State)
    requires Init(s)
    ensures Inv(s)
  {
  }

  lemma LoadWriterInv(s: State, src: seq<Byte>)
    requires Inv(s) && s.writer.WIdle?
    ensures Inv(LoadWriter(s, src))
  {
    hide Cell, ReadSpace, WriteSpace, Masked;
    SpacesAreCounterDifferences(s.rb, Stream(s.written, |s.out|));
    var n := Min(|src|, WriteSpace(s.rb.writePtr, s.rb.readPtr, s.rb.size));
    SpaceBounds(s.rb);
    SplitFits(s.rb.writePtr, n, s.rb.size);
    var (n1, n2) := Split(s.rb.writePtr, n, s.rb.size);
    assert src[..n] == src[..n1] + src[n1..n1 + n2];
    assert LoadWriter(s, src).rb == s.rb;
  }

  lemma CopyInByteInv(s: State, j: nat)
    requires Inv(s) && s.writer.WCopy? && j < |s.writer.data|
    ensures s.rb.writePtr + j < |s.rb.buf| && Inv(CopyInByte(s, j))
  {
    hide Cell;
    var s' := CopyInByte(s, j);
    CellNear(|s.written|, j, s.rb.size);
    forall i: nat | |s.out| <= i < |s.written| ensures Holds(s'.rb.buf, s.rb.size, s.written, i) {
      assert Holds(s.rb.buf, s.rb.size, s.written, i);
      CellDistinct(i, |s.written| + j, s.rb.size);
    }
    forall k: nat | k < |s.writer.data| && k in s'.writer.done ensures Copied(s'.rb, s.writer.data, k) {
      assert k != j ==> Copied(s.rb, s.writer.data, k);
    }
    forall k: nat | !s.reader.RIdle? && k < s.reader.n && k in s.reader.got ensures Fetched(s', s.reader.got, k) {
      assert Fetched(s, s.reader.got, k);
    }
  }

  lemma PublishWriterInv(s: State)
    requires Inv(s) && s.writer.WCopy?
    requires forall j: nat :: j < |s.writer.data| ==> j in s.writer.done
    ensures Inv(PublishWriter(s))
  {
    hide Cell, Masked;
    var s', data := PublishWriter(s), s.writer.data;
    MaskedIsCell(s.rb.writePtr + |data|, s.rb.size);
    CellAdd(|s.written|, |data|, s.rb.size);
    forall i: nat | |s.out| <= i < |s'.written| ensures Holds(s'.rb.buf, s.rb.size, s'.written, i) {
      if i < |s.written| {
        assert Holds(s.rb.buf, s.rb.size, s.written, i);
      } else {
        assert Copied(s.rb, data, i - |s.written|);
        CellNear(|s.written|, i - |s.written|, s.rb.size);
      }
    }
    forall k: nat | !s.reader.RIdle? && k < s.reader.n && k in s.reader.got ensures Fetched(s', s.reader.got, k) {
      assert Fetched(s, s.reader.got, k);
    }
    assert s.writer.rest != [] ==> s'.rb.writePtr == 0 by { WrapsToZero(s.rb.size); }
  }

  lemma WrapsToZero(size: nat)
    requires size > 0
    ensures Cell(size, size) == 0
  {
  }

  lemma LoadReaderInv(s: State, cnt: nat)
    requires Inv(s) && s.reader.RIdle?
    ensures Inv(LoadReader(s, cnt))
  {
    hide Cell, ReadSpace, WriteSpace, Masked;
    SpacesAreCounterDifferences(s.rb, Stream(s.written, |s.out|));
    SpaceBounds(s.rb);
    SplitFits(s.rb.readPtr, Min(cnt, ReadSpace(s.rb.writePtr, s.rb.readPtr, s.rb.size)), s.rb.size);
    assert LoadReader(s, cnt).rb == s.rb;
  }

  lemma CopyOutByteInv(s: State, j: nat)
    requires Inv(s) && s.reader.RCopy? && j < s.reader.n
    ensures s.rb.readPtr + j < |s.rb.buf| && Inv(CopyOutByte(s, j))
  {
    hide Cell;
    CellNear(|s.out|, j, s.rb.size);
    assert Holds(s.rb.buf, s.rb.size, s.written, |s.out| + j);
    var s' := CopyOutByte(s, j);
    forall k: nat | k < s.reader.n && k in s'.reader.got ensures Fetched(s', s'.reader.got, k) {
      assert k != j ==> Fetched(s, s.reader.got, k);
    }
  }

  lemma PublishReaderInv(s: State)
    requires Inv(s) && s.reader.RCopy?
    requires forall j: nat :: j < s.reader.n ==> j in s.reader.got
    ensures Inv(PublishReader(s))
  {
    hide Cell, Masked;
    var s' := PublishReader(s);
    MaskedIsCell(s.rb.readPtr + s.reader.n, s.rb.size);
    CellAdd(|s.out|, s.reader.n, s.rb.size);
    forall i: nat | i < |s'.out| ensures s'.out[i] == s.written[i] {
      assert i >= |s.out| ==> Fetched(s, s.reader.got, i - |s.out|);
    }
    forall i: nat | |s'.out| <= i < |s.written| ensures Holds(s'.rb.buf, s.rb.size, s.written, i) {
      assert Holds(s.rb.buf, s.rb.size, s.written, i);
    }
    forall k: nat | s.writer.WCopy? && k < |s.writer.data| && k in s.writer.done
      ensures Copied(s'.rb, s.writer.data, k)
    {
      assert Copied(s.rb, s.writer.data, k);
    }
    assert s.reader.rest > 0 ==> s'.rb.readPtr == 0 by { WrapsToZero(s.rb.size); }
  }

  lemma VectorInv(s: State)
    requires Inv(s) && s.writer.WIdle?
    ensures Inv(Apply(s, WVector))
  {
    hide Cell, ReadSpace, WriteSpace;
    SpacesAreCounterDifferences(s.rb, Stream(s.written, |s.out|));
  }

  lemma FillInv(s: State, j: nat, b: Byte)
    requires Inv(s) && Enabled(s, WFill(j, b))
    ensures Inv(Apply(s, WFill(j, b)))
  {
    hide Cell;
    var s' := Apply(s, WFill(j, b));
    CellAdd(|s.written|, j, s.rb.size);
    forall i: nat | |s.out| <= i < |s.written| ensures Holds(s'.rb.buf, s.rb.size, s.written, i) {
      assert Holds(s.rb.buf, s.rb.size, s.written, i);
      CellDistinct(i, |s.written| + j, s.rb.size);
    }
    forall k: nat | !s.reader.RIdle? && k < s.reader.n && k in s.reader.got ensures Fetched(s', s.reader.got, k) {
      assert Fetched(s, s.reader.got, k);
    }
  }

  lemma AdvanceWriterInv(s: State, cnt: nat)
    requires Inv(s) && s.writer.WVectors? && cnt <= s.writer.n
    ensures Inv(AdvanceWriter(s, cnt))
  {
    hide Cell, Masked;
    var s' := AdvanceWriter(s, cnt);
    MaskedIsCell(s.rb.writePtr + cnt, s.rb.size);
    CellAdd(|s.written|, cnt, s.rb.size);
    forall i: nat | |s.out| <= i < |s'.written| ensures Holds(s'.rb.buf, s.rb.size, s'.written, i) {
      if i < |s.written| {
        assert Holds(s.rb.buf, s.rb.size, s.written, i);
      } else {
        CellAdd(|s.written|, i - |s.written|, s.rb.size);
      }
    }
    forall k: nat | !s.reader.RIdle? && k < s.reader.n && k in s.reader.got ensures Fetched(s', s.reader.got, k) {
      assert Fetched(s, s.reader.got, k);
    }
  }

  lemma LookInv(s: State, cnt: nat)
    requires Inv(s) && s.reader.RIdle?
    ensures Inv(Apply(s, RLook(cnt)))
  {
    hide Cell, ReadSpace, WriteSpace;
    SpacesAreCounterDifferences(s.rb, Stream(s.written, |s.out|));
  }

  lemma LookByteInv(s: State, j: nat)
    requires Inv(s) && Enabled(s, RLookByte(j))
    ensures Inv(Apply(s, RLookByte(j)))
  {
    hide Cell;
    var s' := Apply(s, RLookByte(j));
    CellAdd(|s.out|, j, s.rb.size);
    assert Holds(s.rb.buf, s.rb.size, s.written, |s.out| + j);
    forall k: nat | k < s.reader.n && k in s'.reader.got ensures Fetched(s', s'.reader.got, k) {
      assert k != j ==> Fetched(s, s.reader.got, k);
    }
  }

  lemma AdvanceReaderInv(s: State, cnt: nat)
    requires Inv(s) && s.reader.RVectors? && cnt <= s.reader.n
    ensures Inv(AdvanceReader(s, cnt))
  {
    hide Cell, Masked;
    var s' := AdvanceReader(s, cnt);
    MaskedIsCell(s.rb.readPtr + cnt, s.rb.size);
    CellAdd(|s.out|, cnt, s.rb.size);
    forall i: nat | i < |s'.out| ensures s'.out[i] == s.written[i] {
      if i >= |s.out| {
        CellAdd(|s.out|, i - |s.out|, s.rb.size);
        assert Holds(s.rb.buf, s.rb.size, s.written, i);
      }
    }
    forall i: nat | |s'.out| <= i < |s.written| ensures Holds(s'.rb.buf, s.rb.size, s.written, i) {
      assert Holds(s.rb.buf, s.rb.size, s.written, i);
    }
    forall k: nat | s.writer.WCopy? && k < |s.writer.data| && k in s.writer.done
      ensures Copied(s'.rb, s.writer.data, k)
    {
      assert Copied(s.rb, s.writer.data, k);
    }
  }

  lemma StepInv(s: State, step: Step)
    requires Inv(s) && Enabled(s, step)
    ensures Inv(Apply(s, step))
  {
    hide Inv, LoadWriter, CopyInByte, PublishWriter, AdvanceWriter;
    hide LoadReader, CopyOutByte, PublishReader, AdvanceReader;
    match step
    case WLoad(src) => LoadWriterInv(s, src);
    case WByte(j) => CopyInByteInv(s, j);
    case WPublish => PublishWriterInv(s);
    case WVector => VectorInv(s);
    case WFill(j, b) => FillInv(s, j, b);
    case WAdvance(cnt) => AdvanceWriterInv(s, cnt);
    case RLoad(cnt) => LoadReaderInv(s, cnt);
    case RByte(j) => CopyOutByteInv(s, j);
    case RPublish => PublishReaderInv(s);
    case RLook(cnt) => LookInv(s, cnt);
    case RLookByte(j) => LookByteInv(s, j);
    case RAdvance(cnt) => AdvanceReaderInv(s, cnt);
  }

  // ---------------------------------------------------------------------
  // Theorems over every interleaving

  ghost predicate IsRun(states: seq<State>, steps: seq<Step>) {
    && |states| == |steps| + 1
    && Init(states[0])
    && forall i :: 0 <= i < |steps| ==> Enabled(states[i], steps[i]) && states[i + 1] == Apply(states[i], steps[i])
  }

  lemma {:induction false} RunInv(states: seq<State>, steps: seq<Step>, n: nat)
    requires IsRun(states, steps) && n <= |steps|
    ensures Inv(states[n])
  {
    hide Inv, Apply, Enabled, Init;
    if n == 0 {
      InitInv(states[0]);
    } else {
      RunInv(states, steps, n - 1);
      StepInv(states[n - 1], steps[n - 1]);
    }
  }

  /** How many cells from its pointer on a thread may touch. */
  function WriterLen(w: Writer): nat {
    match w
    case WIdle => 0
    case WCopy(data, _, _) => |data|
    case WVectors(n) => n
  }

  function ReaderLen(r: Reader): nat {
    match r
    case RIdle => 0
    case RCopy(n, _, _) => n
    case RVectors(n, _) => n
  }

  /** The cell is among the `len` cells from `ptr` on, across the wrap. */
  predicate Covers(ptr: nat, len: nat, size: nat, c: nat) {
    c < size && (if c >= ptr then c - ptr < len else c + size - ptr < len)
  }

  ghost predicate WriterCell(s: State, c: nat) {
    Covers(s.rb.writePtr, WriterLen(s.writer), s.rb.size, c)
  }

  ghost predicate ReaderCell(s: State, c: nat) {
    Covers(s.rb.readPtr, ReaderLen(s.reader), s.rb.size, c)
  }

  lemma CoveredCell(count: nat, len: nat, size: nat, c: nat) returns (j: nat)
    requires size > 0 && Covers(Cell(count, size), len, size, c)
    ensures j < len && Cell(count + j, size) == c
  {
    var ptr := Cell(count, size);
    j := if c >= ptr then c - ptr else c + size - ptr;
    CellAdd(count, j, size);
    assert Cell(ptr + j, size) == c;
  }

  lemma RoomForBoth(s: State)
    requires Inv(s)
    ensures |s.out| + ReaderLen(s.reader) <= |s.written|
    ensures |s.written| + WriterLen(s.writer) <= |s.out| + s.rb.size - 1
  {
  }

  /** No byte is copied out while it is being overwritten. */
  lemma SegmentsDisjoint(s: State, c: nat)
    requires Inv(s)
    ensures !(WriterCell(s, c) && ReaderCell(s, c))
  {
    if WriterCell(s, c) && ReaderCell(s, c) {
      RoomForBoth(s);
      var i := CoveredCell(|s.written|, WriterLen(s.writer), s.rb.size, c);
      var j := CoveredCell(|s.out|, ReaderLen(s.reader), s.rb.size, c);
      hide Cell, WriterOk, ReaderOk;
      CellDistinct(|s.out| + j, |s.written| + i, s.rb.size);
    }
  }

  /** In every interleaving the bytes read are a prefix of the bytes published,
      which are a prefix of the bytes accepted, and the threads' segments do
      not overlap and stay inside the buffer. */
  lemma ReadIsPrefixOfWritten(states: seq<State>, steps: seq<Step>, n: nat)
    requires IsRun(states, steps) && n <= |steps|
    ensures states[n].out <= states[n].written <= states[n].accepted
    ensures forall c: nat :: !(WriterCell(states[n], c) && ReaderCell(states[n], c))
    ensures forall c: nat :: WriterCell(states[n], c) || ReaderCell(states[n], c) ==>
                               c < states[n].rb.size <= |states[n].rb.buf|
  {
    hide Init, Enabled, Apply;
    RunInv(states, steps, n);
    forall c: nat ensures !(WriterCell(states[n], c) && ReaderCell(states[n], c)) {
      SegmentsDisjoint(states[n], c);
    }
  }

  /** What peek and the read vector show, in every interleaving and for as long as
      the reader keeps them: byte `j` is the `j`-th byte not yet read. */
  lemma LookSeesNext(states: seq<State>, steps: seq<Step>, n: nat, j: nat)
    requires IsRun(states, steps) && n <= |steps|
    requires states[n].reader.RVectors? && j < states[n].reader.n && j in states[n].reader.got
    ensures |states[n].out| + j < |states[n].written|
    ensures states[n].reader.got[j] == states[n].written[|states[n].out| + j]
  {
    hide Init, Enabled, Apply;
    RunInv(states, steps, n);
    assert Fetched(states[n], states[n].reader.got, j);
  }

  /** Nothing is lost: between calls the counters account for every accepted
      byte, and an empty ring means everything accepted has been read. */
  lemma QuiescentAccountsForAll(states: seq<State>, steps: seq<Step>, n: nat)
    requires IsRun(states, steps) && n <= |steps|
    requires states[n].writer.WIdle?
    ensures WellFormed(states[n].rb)
    ensures |states[n].accepted| - |states[n].out|
            == ReadSpace(states[n].rb.writePtr, states[n].rb.readPtr, states[n].rb.size)
    ensures ReadSpace(states[n].rb.writePtr, states[n].rb.readPtr, states[n].rb.size) == 0
            ==> states[n].out == states[n].accepted
  {
    hide Init, Enabled, Apply, ReadSpace, WriteSpace;
    RunInv(states, steps, n);
    SpacesAreCounterDifferences(states[n].rb, Stream(states[n].written, |states[n].out|));
  }

  // ---------------------------------------------------------------------
  // A call nobody interrupts is the sequential operation

  /** The first `k` bytes of the writer's segment copied in order. */
  ghost function CopyInAll(s: State, k: nat): State
    requires s.writer.WCopy? && k <= |s.writer.data| && s.rb.writePtr + |s.writer.data| <= |s.rb.buf|
    ensures var t := CopyInAll(s, k);
            && t == s.(rb := s.rb.(buf := t.rb.buf), writer := s.writer.(done := t.writer.done))
            && |t.rb.buf| == |s.rb.buf|
            && forall j: nat :: j < k ==> j in t.writer.done
  {
    if k == 0 then s else CopyInByte(CopyInAll(s, k - 1), k - 1)
  }

  lemma {:induction false} CopyInAllByte(s: State, k: nat, c: nat)
    requires s.writer.WCopy? && k <= |s.writer.data| && s.rb.writePtr + |s.writer.data| <= |s.rb.buf|
    requires c < |s.rb.buf|
    ensures CopyInAll(s, k).rb.buf[c]
            == var p := s.rb.writePtr; if p <= c < p + k then s.writer.data[c - p] else s.rb.buf[c]
  {
    if k > 0 { CopyInAllByte(s, k - 1, c); }
  }

  /** Copying a segment and publishing it: `memcpy` and a pointer store. */
  ghost function WriteSegment(s: State): State
    requires s.writer.WCopy? && s.rb.size >= 1 && s.rb.writePtr + |s.writer.data| <= |s.rb.buf|
  {
    PublishWriter(CopyInAll(s, |s.writer.data|))
  }

  lemma WriteSegmentBlits(s: State)
    requires s.writer.WCopy? && s.rb.size >= 1 && s.rb.writePtr + |s.writer.data| <= |s.rb.buf|
    ensures WriteSegment(s).rb == s.rb.(buf := Blit(s.rb.buf, s.rb.writePtr, s.writer.data),
                                       writePtr := Masked(s.rb.writePtr + |s.writer.data|, s.rb.size))
  {
    hide Blit, Masked;
    var data, t := s.writer.data, CopyInAll(s, |s.writer.data|);
    forall c | 0 <= c < |s.rb.buf| ensures t.rb.buf[c] == Blit(s.rb.buf, s.rb.writePtr, data)[c] {
      CopyInAllByte(s, |data|, c);
      BlitAt(s.rb.buf, s.rb.writePtr, data, c);
    }
    assert t.rb.buf == Blit(s.rb.buf, s.rb.writePtr, data);
  }

  /** The writer's steps of one call, with no reader step between them. */
  ghost function WriteCall(s: State, src: seq<Byte>): State
    requires Inv(s) && s.writer.WIdle?
  {
    LoadWriterInv(s, src);
    var t := LoadWriter(s, src);
    if t.writer.WIdle? then t
    else
      var u := WriteSegment(t);
      if u.writer.WIdle? then u
      else
        SecondSegmentFits(s, src);
        WriteSegment(u)
  }

  lemma SecondSegmentFits(s: State, src: seq<Byte>)
    requires Inv(s) && s.writer.WIdle?
    ensures var t := LoadWriter(s, src);
            t.writer.WCopy? ==>
              && t.rb.writePtr + |t.writer.data| <= |t.rb.buf|
              && var u := WriteSegment(t);
                 u.writer.WCopy? ==>
                   u.rb.writePtr + |u.writer.data| <= |u.rb.buf| && u.rb.size >= 1 && u.writer.rest == []
  {
    hide Cell, WriteSpace, ReadSpace, Masked, CopyInAll;
    LoadWriterInv(s, src);
    SpaceBounds(s.rb);
    SplitFits(s.rb.writePtr, Min(|src|, WriteSpace(s.rb.writePtr, s.rb.readPtr, s.rb.size)), s.rb.size);
  }

  /** It leaves the ring exactly as the sequential write does. */
  lemma WriteCallIsWrite(s: State, src: seq<Byte>)
    requires Inv(s) && s.writer.WIdle?
    ensures WriteCall(s, src).rb == Write(s.rb, src)
  {
    hide Cell, WriteSpace, ReadSpace, Masked, Blit, CopyInAll, Inv, WriteSegment;
    assert WellFormed(s.rb) by { InvWellFormed(s); }
    LoadWriterInv(s, src);
    SpaceBounds(s.rb);
    var n := WriteCount(s.rb, |src|);
    SplitFits(s.rb.writePtr, n, s.rb.size);
    SecondSegmentFits(s, src);
    var (n1, n2) := Split(s.rb.writePtr, n, s.rb.size);
    var next := Masked(s.rb.writePtr + n1, s.rb.size);
    var t := LoadWriter(s, src);
    assert src[..n][..n1] == src[..n1] && src[..n][n1..] == src[n1..n];
    if t.writer.WIdle? {
      BlitEmpty(s.rb.buf, s.rb.writePtr, src[..n1]);
      BlitEmpty(s.rb.buf, s.rb.writePtr, src[n1..n]);
    } else {
      WriteSegmentBlits(t);
      var u := WriteSegment(t);
      assert u.rb == s.rb.(buf := Blit(s.rb.buf, s.rb.writePtr, src[..n1]), writePtr := next);
      NextWriter(t);
      if n2 == 0 {
        BlitEmpty(u.rb.buf, next, src[n1..n]);
      } else {
        WriteSegmentBlits(u);
      }
    }
  }

  lemma InvWellFormed(s: State)
    requires Inv(s)
    ensures WellFormed(s.rb)
  {
  }

  lemma NextWriter(s: State)
    requires s.writer.WCopy? && s.rb.size >= 1 && s.rb.writePtr + |s.writer.data| <= |s.rb.buf|
    ensures WriteSegment(s).writer == if s.writer.rest == [] then WIdle else WCopy(s.writer.rest, [], {})
  {
    hide Masked;
  }

  /** The first `k` bytes of the reader's segment copied in order. */
  ghost function CopyOutAll(s: State, k: nat): State
    requires s.reader.RCopy? && k <= s.reader.n && s.rb.readPtr + s.reader.n <= |s.rb.buf|
    ensures var t := CopyOutAll(s, k);
            && t.reader.RCopy? && t == s.(reader := RCopy(s.reader.n, s.reader.rest, t.reader.got))
            && (forall j: nat :: j < k ==> j in t.reader.got && t.reader.got[j] == s.rb.buf[s.rb.readPtr + j])
  {
    if k == 0 then s else CopyOutByte(CopyOutAll(s, k - 1), k - 1)
  }

  ghost function ReadSegment(s: State): State
    requires s.reader.RCopy? && s.rb.size >= 1 && s.rb.readPtr + s.reader.n <= |s.rb.buf|
  {
    PublishReader(CopyOutAll(s, s.reader.n))
  }

  lemma ReadSegmentCopies(s: State)
    requires s.reader.RCopy? && s.rb.size >= 1 && s.rb.readPtr + s.reader.n <= |s.rb.buf|
    ensures ReadSegment(s) == s.(
              rb := s.rb.(readPtr := Masked(s.rb.readPtr + s.reader.n, s.rb.size)),
              reader := if s.reader.rest == 0 then RIdle else RCopy(s.reader.rest, 0, map[]),
              out := s.out + s.rb.buf[s.rb.readPtr..s.rb.readPtr + s.reader.n])
  {
    hide Masked;
    var t := CopyOutAll(s, s.reader.n);
    assert seq(t.reader.n, j requires 0 <= j < t.reader.n => t.reader.got[j])
        == s.rb.buf[s.rb.readPtr..s.rb.readPtr + s.reader.n];
  }

  /** The reader's steps of one call, with no writer step between them. */
  ghost function ReadCall(s: State, cnt: nat): State
    requires WellFormed(s.rb) && s.reader.RIdle?
  {
    ReadSegmentsFit(s, cnt);
    var t := LoadReader(s, cnt);
    if t.reader.RIdle? then t
    else
      var u := ReadSegment(t);
      if u.reader.RIdle? then u else ReadSegment(u)
  }

  lemma ReadSegmentsFit(s: State, cnt: nat)
    requires WellFormed(s.rb) && s.reader.RIdle?
    ensures var t := LoadReader(s, cnt);
            t.reader.RCopy? ==>
              && t.rb.readPtr + t.reader.n <= |t.rb.buf|
              && var u := ReadSegment(t);
                 u.reader.RCopy? ==> u.rb.readPtr + u.reader.n <= |u.rb.buf|
  {
    hide Cell, WriteSpace, ReadSpace, Masked, CopyOutAll, ReadSegment;
    SpaceBounds(s.rb);
    SplitFits(s.rb.readPtr, Min(cnt, ReadSpace(s.rb.writePtr, s.rb.readPtr, s.rb.size)), s.rb.size);
    var t := LoadReader(s, cnt);
    if t.reader.RCopy? { ReadSegmentCopies(t); }
  }

  /** It hands out the bytes of the sequential peek and moves the pointer as the
      sequential read does. */
  lemma ReadCallIsRead(s: State, cnt: nat)
    requires WellFormed(s.rb) && s.reader.RIdle?
    ensures ReadCall(s, cnt).rb == Read(s.rb, cnt)
    ensures ReadCall(s, cnt).out == s.out + Peek(s.rb, cnt)
  {
    hide Cell, WriteSpace, ReadSpace, Masked, CopyOutAll, ReadSegment;
    SpaceBounds(s.rb);
    var n := ReadCount(s.rb, cnt);
    SplitFits(s.rb.readPtr, n, s.rb.size);
    ReadSegmentsFit(s, cnt);
    var t := LoadReader(s, cnt);
    if t.reader.RCopy? {
      ReadSegmentCopies(t);
      var u := ReadSegment(t);
      if u.reader.RCopy? { ReadSegmentCopies(u); }
    }
  }
}
