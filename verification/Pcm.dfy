/** The data path of the ALSA PCM plugin as functions on values: how many
    frames a cycle moves, and what one seqlock section of on_stream_process
    does to the plugin's fields. */
module Pcm {
  import opened Bits
  import opened Common

  /** One sample per channel. */
  type Frame = seq<int>

  /** What reaches the PipeWire buffer: a frame of the application, or silence. */
  datatype OutFrame = Sound(frame: Frame) | Silence

  datatype IoState = Open | Setup | Prepared | Running | Xrun | Draining | Paused | Suspended | Disconnected

  predicate Active(st: IoState) {
    st == Running || st == Draining
  }

  /** One spa_data with its chunk. */
  datatype Block = Block(maxsize: nat, offset: nat, size: nat)

  datatype Config = Config(playback: bool, bufferSize: nat, boundary: nat, minAvail: nat, stride: nat)

  predicate ValidConfig(cfg: Config) {
    && cfg.bufferSize > 0 && cfg.stride > 0
    && cfg.boundary > 0 && cfg.boundary % cfg.bufferSize == 0
  }

  datatype Plugin = Plugin(
    hwPtr: nat, xrun: bool, drained: bool, draining: bool,
    delay: int, transferred: nat, buffered: nat, now: int)

  // ---------------------------------------------------------------------
  // Clipping the request to the buffer

  /** Bytes of a block a cycle may use. */
  function Usable(cfg: Config, b: Block): nat {
    if cfg.playback then Min(b.maxsize, cfg.minAvail * cfg.stride)
    else Min(b.size, b.maxsize - Min(b.offset, b.maxsize))
  }

  function Clip(cfg: Config, want: nat, blocks: seq<Block>): nat
    requires cfg.stride > 0
  {
    if blocks == [] then want
    else Min(Clip(cfg, want, blocks[..|blocks| - 1]), Usable(cfg, blocks[|blocks| - 1]) / cfg.stride)
  }

  /** In playback what fits the block and min_avail frames; in capture what the
      chunk holds and, after its offset, the block. */
  lemma UsableIsGreatest(cfg: Config, b: Block, v: nat)
    ensures v <= Usable(cfg, b) <==>
            if cfg.playback then v <= b.maxsize && v <= cfg.minAvail * cfg.stride
            else v <= b.size && (v == 0 || b.offset + v <= b.maxsize)
  {
  }

  /** `v` frames fit in every block. */
  ghost predicate Fits(cfg: Config, v: nat, blocks: seq<Block>) {
    forall i :: 0 <= i < |blocks| ==> v * cfg.stride <= Usable(cfg, blocks[i])
  }

  lemma ClipNone(cfg: Config, want: nat)
    requires cfg.stride > 0
    ensures Clip(cfg, want, []) == want
  {
  }

  lemma ClipOneMore(cfg: Config, want: nat, blocks: seq<Block>, n: nat)
    requires cfg.stride > 0 && n < |blocks|
    ensures Clip(cfg, want, blocks[..n + 1]) == Min(Clip(cfg, want, blocks[..n]), Usable(cfg, blocks[n]) / cfg.stride)
  {
    assert blocks[..n + 1][..n] == blocks[..n];
  }

  /** The loop over the blocks in snd_pcm_pipewire_process. */
  method ClipWant(cfg: Config, want: nat, blocks: seq<Block>) returns (w: nat)
    requires cfg.stride > 0
    ensures w == Clip(cfg, want, blocks)
  {
    hide Clip;
    w := want;
    ClipNone(cfg, want);
    for bl := 0 to |blocks|
      invariant w == Clip(cfg, want, blocks[..bl])
    {
      var d := blocks[bl];
      var size: nat;
      if cfg.playback {
        size := Min(d.maxsize, cfg.minAvail * cfg.stride);
      } else {
        var offset := Min(d.offset, d.maxsize);
        size := Min(d.size, d.maxsize - offset);
      }
      w := Min(w, size / cfg.stride);
      ClipOneMore(cfg, want, blocks, bl);
    }
    assert blocks[..|blocks|] == blocks;
  }

  lemma DivisionBound(v: nat, u: nat, stride: nat)
    requires stride > 0
    ensures v <= u / stride <==> v * stride <= u
  {
    var q, r := u / stride, u % stride;
    assert u == q * stride + r;
    if v <= q {
      assert (q - v) * stride >= 0;
      assert v * stride == q * stride - (q - v) * stride;
    } else {
      MulAtLeast(v - q, stride);
      assert v * stride == q * stride + (v - q) * stride;
    }
  }

  /** The clipped request is the largest one within the request that fits every block. */
  lemma {:induction false} ClipIsGreatest(cfg: Config, want: nat, blocks: seq<Block>, v: nat)
    requires cfg.stride > 0
    ensures v <= Clip(cfg, want, blocks) <==> v <= want && Fits(cfg, v, blocks)
  {
    if blocks != [] {
      var n := |blocks| - 1;
      ClipIsGreatest(cfg, want, blocks[..n], v);
      DivisionBound(v, Usable(cfg, blocks[n]), cfg.stride);
      assert Fits(cfg, v, blocks) <==> Fits(cfg, v, blocks[..n]) && v * cfg.stride <= Usable(cfg, blocks[n]) by {
        assert forall i :: 0 <= i < n ==> blocks[..n][i] == blocks[i];
      }
    }
  }

  // ---------------------------------------------------------------------
  // One cycle

  /** Frames copied between the ring and the PipeWire buffer. */
  function Copied(st: IoState, clipped: nat, avail: nat): nat {
    if Active(st) then Min(clipped, avail) else 0
  }

  /** `hw_ptr += xfer` with its single conditional subtraction. */
  function AdvanceHw(hw: nat, n: nat, boundary: nat): nat {
    if n == 0 then hw
    else if hw + n >= boundary then hw + n - boundary
    else hw + n
  }

  /** Frames transferred beyond whole requests, used in the next cycle. */
  function Surplus(t: nat, want: nat): nat {
    if want == 0 || t < want then 0 else t % want
  }

  /** The surplus is less than a request, and the rest is whole requests. */
  lemma SurplusBelow(t: nat, want: nat)
    ensures want > 0 ==> Surplus(t, want) < want
    ensures want == 0 || t < want ==> Surplus(t, want) == 0
    ensures want > 0 && t >= want ==> t == t / want * want + Surplus(t, want)
  {
  }

  /** The fields after one seqlock section. `want` is the request before
      clipping; `st` and `st2` are the two reads of io->state, before the copy
      and before the xrun report. */
  function Section(cfg: Config, p: Plugin, st: IoState, st2: IoState,
                   avail: nat, want: nat, clipped: nat, delay: int, now: int): Plugin
  {
    var q := if p.now != now then p.(transferred := p.buffered, buffered := 0) else p;
    var n := Copied(st, clipped, avail);
    var t := if cfg.playback then q.transferred + clipped else q.transferred;
    q.(hwPtr := AdvanceHw(p.hwPtr, n, cfg.boundary),
       xrun := p.xrun || (n < clipped && Active(st2)),
       delay := delay,
       transferred := t,
       buffered := Surplus(t, want),
       now := now)
  }

  /** Frames `from`, `from + 1`, ... of the ring. */
  function RingFrames(ring: seq<Frame>, from: nat, n: nat): (r: seq<Frame>)
    requires |ring| > 0
    ensures |r| == n
  {
    seq(n, j requires 0 <= j < n => ring[Cell(from + j, |ring|)])
  }

  /** snd_pcm_areas_copy_wrap into the ring. */
  function RingStore(ring: seq<Frame>, from: nat, data: seq<Frame>): (r: seq<Frame>)
    requires |ring| > 0
    ensures |r| == |ring|
    decreases |data|
  {
    if data == [] then ring
    else RingStore(ring, from, data[..|data| - 1])[Cell(from + |data| - 1, |ring|) := data[|data| - 1]]
  }

  function Sounds(frames: seq<Frame>): (r: seq<OutFrame>)
    ensures |r| == |frames|
  {
    seq(|frames|, j requires 0 <= j < |frames| => Sound(frames[j]))
  }

  function Silent(n: nat): (r: seq<OutFrame>)
    ensures |r| == n
  {
    seq(n, _ => Silence)
  }

  /** What a playback cycle puts in the PipeWire buffer. */
  function PlayedFrames(ring: seq<Frame>, hwPtr: nat, n: nat, clipped: nat): seq<OutFrame>
    requires |ring| > 0 && n <= clipped
  {
    Sounds(RingFrames(ring, Cell(hwPtr, |ring|), n)) + Silent(clipped - n)
  }

  /** The end of a cycle that nothing interrupts: flush playback, finish capture. */
  function DrainTest(cfg: Config, p: Plugin, st: IoState, left: nat): Plugin {
    if st == Draining && !p.draining && left == 0 then
      if cfg.playback then p.(draining := true, drained := false)
      else p.(drained := true, draining := false)
    else p
  }

  predicate Flushes(cfg: Config, p: Plugin, st: IoState, left: nat) {
    cfg.playback && st == Draining && !p.draining && left == 0
  }

  function AfterPrepare(p: Plugin): Plugin {
    p.(hwPtr := 0, now := 0, xrun := false, drained := false, draining := false)
  }

  // ---------------------------------------------------------------------
  // hw_ptr and the ring

  /** One conditional subtraction keeps `hw_ptr` equal to the frame count modulo
      the boundary, and so in range. */
  lemma AdvanceHwCounts(cfg: Config, count: nat, n: nat)
    requires ValidConfig(cfg) && n <= cfg.bufferSize
    ensures AdvanceHw(Cell(count, cfg.boundary), n, cfg.boundary) == Cell(count + n, cfg.boundary)
  {
    BoundaryHoldsBuffer(cfg);
    CellAdd(count, n, cfg.boundary);
  }

  lemma BoundaryHoldsBuffer(cfg: Config)
    requires ValidConfig(cfg)
    ensures var c := cfg.boundary / cfg.bufferSize;
            c >= 1 && cfg.boundary == c * cfg.bufferSize && cfg.bufferSize <= cfg.boundary
  {
  }

  /** The ring offset taken from the wrapped `hw_ptr` is the one of the running count. */
  lemma OffsetOfHwPtr(cfg: Config, count: nat)
    requires ValidConfig(cfg)
    ensures Cell(Cell(count, cfg.boundary), cfg.bufferSize) == Cell(count, cfg.bufferSize)
  {
    BoundaryHoldsBuffer(cfg);
    CellOfMultiple(count, cfg.boundary / cfg.bufferSize, cfg.bufferSize);
  }

  lemma {:induction false} RingStoreCell(ring: seq<Frame>, from: nat, data: seq<Frame>, i: nat)
    requires |ring| > 0 && |data| <= |ring|
    requires i < from + |data| <= i + |ring|
    ensures RingStore(ring, from, data)[Cell(i, |ring|)] == if i < from then ring[Cell(i, |ring|)] else data[i - from]
    decreases |data|
  {
    if data != [] {
      var k := from + |data| - 1;
      if i < k {
        RingStoreCell(ring, from, data[..|data| - 1], i);
        CellDistinct(i, k, |ring|);
      }
    }
  }
}
