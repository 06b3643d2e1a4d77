/** Where each sample of a cycle lies in the PipeWire blocks: the stride and
    block count of hw_params with the channel areas of the transfer step. */
module PcmLayout {
  import opened Common
  import opened Pcm

  datatype Format = Format(planar: bool, channels: nat, sampleBits: nat)

  /** Every format hw_params accepts has a width of whole bytes. */
  predicate ValidFormat(fmt: Format) {
    fmt.channels > 0 && fmt.sampleBits > 0 && fmt.sampleBits % 8 == 0
  }

  function Blocks(fmt: Format): nat {
    if fmt.planar then fmt.channels else 1
  }

  function Stride(fmt: Format): nat {
    if fmt.planar then fmt.sampleBits / 8 else fmt.channels * fmt.sampleBits / 8
  }

  /** snd_pcm_channel_area_t, with the block whose data it addresses. */
  datatype Area = Area(block: nat, first: nat, step: nat)

  function ChannelArea(fmt: Format, channel: nat): Area {
    if Blocks(fmt) == 1 then Area(0, channel * fmt.sampleBits, fmt.channels * fmt.sampleBits)
    else Area(channel, 0, fmt.sampleBits)
  }

  /** First bit of a sample in its block, relative to the chunk offset. */
  function SampleStart(fmt: Format, channel: nat, frame: nat): nat {
    var a := ChannelArea(fmt, channel);
    a.first + frame * a.step
  }

  /** Bytes before the first sample in a block. */
  function ChunkOffset(cfg: Config, b: Block): nat {
    if cfg.playback then 0 else Min(b.offset, b.maxsize)
  }

  lemma MulMonotone(a: nat, b: nat, c: nat)
    requires a <= b
    ensures a * c <= b * c
  {
  }

  lemma StrideBits(fmt: Format)
    requires ValidFormat(fmt)
    ensures Stride(fmt) > 0
    ensures Stride(fmt) * 8 == if Blocks(fmt) == 1 then fmt.channels * fmt.sampleBits else fmt.sampleBits
  {
    var k := fmt.sampleBits / 8;
    assert fmt.sampleBits == 8 * k && k >= 1;
    assert fmt.channels * fmt.sampleBits == 8 * (fmt.channels * k);
    assert fmt.channels * fmt.sampleBits / 8 == fmt.channels * k;
    MulMonotone(1, fmt.channels, k);
  }

  /** A sample of frame `frame` ends within the first `frame + 1` strides of its block. */
  lemma SampleEndsInStride(fmt: Format, channel: nat, frame: nat)
    requires ValidFormat(fmt) && channel < fmt.channels
    ensures SampleStart(fmt, channel, frame) + fmt.sampleBits <= (frame + 1) * Stride(fmt) * 8
    ensures frame * Stride(fmt) * 8 <= SampleStart(fmt, channel, frame)
  {
    StrideBits(fmt);
    var a := ChannelArea(fmt, channel);
    var unit := Stride(fmt) * 8;
    assert a.step == unit;
    assert frame * Stride(fmt) * 8 == frame * unit;
    assert (frame + 1) * Stride(fmt) * 8 == (frame + 1) * unit == frame * unit + unit;
    if Blocks(fmt) == 1 {
      assert channel * fmt.sampleBits + fmt.sampleBits == (channel + 1) * fmt.sampleBits;
      MulMonotone(channel + 1, fmt.channels, fmt.sampleBits);
    }
  }

  /** Every sample of the frames a cycle moves lies inside the usable bytes of
      its block, and those inside the block's memory. */
  lemma SampleInsideBlock(cfg: Config, fmt: Format, want: nat, blocks: seq<Block>, channel: nat, frame: nat)
    requires ValidFormat(fmt) && cfg.stride == Stride(fmt) && cfg.stride > 0 && |blocks| == Blocks(fmt)
    requires channel < fmt.channels && frame < Clip(cfg, want, blocks)
    ensures ChannelArea(fmt, channel).block < |blocks|
    ensures var b := blocks[ChannelArea(fmt, channel).block];
            && SampleStart(fmt, channel, frame) + fmt.sampleBits <= 8 * Usable(cfg, b)
            && ChunkOffset(cfg, b) + Usable(cfg, b) <= b.maxsize
  {
    var w := Clip(cfg, want, blocks);
    ClipIsGreatest(cfg, want, blocks, w);
    var b := blocks[ChannelArea(fmt, channel).block];
    assert w * cfg.stride <= Usable(cfg, b);
    SampleEndsInStride(fmt, channel, frame);
    MulMonotone(frame + 1, w, cfg.stride);
  }

  /** The chunk size a playback cycle stores never exceeds a block's memory. */
  lemma ChunkFits(cfg: Config, want: nat, blocks: seq<Block>, bl: nat)
    requires cfg.playback && cfg.stride > 0 && bl < |blocks|
    ensures Clip(cfg, want, blocks) * cfg.stride <= blocks[bl].maxsize
  {
    ClipIsGreatest(cfg, want, blocks, Clip(cfg, want, blocks));
  }

  /** Where the samples go. Channel `c` of a planar format has block `c` to itself,
      frame after frame; the channels of an interleaved frame follow one another,
      and the next frame follows the last channel. */
  lemma SamplesInOrder(fmt: Format, c: nat, frame: nat)
    requires ValidFormat(fmt) && c < fmt.channels
    ensures fmt.planar ==>
              && ChannelArea(fmt, c).block == c && SampleStart(fmt, c, 0) == 0
              && SampleStart(fmt, c, frame + 1) == SampleStart(fmt, c, frame) + fmt.sampleBits
    ensures !fmt.planar ==>
              && ChannelArea(fmt, c).block == 0 && SampleStart(fmt, 0, 0) == 0
              && SampleStart(fmt, c, frame) + fmt.sampleBits
                 == if c + 1 < fmt.channels then SampleStart(fmt, c + 1, frame) else SampleStart(fmt, 0, frame + 1)
  {
    var bits := fmt.sampleBits;
    assert (c + 1) * bits == c * bits + bits;
    var unit := ChannelArea(fmt, c).step;
    assert (frame + 1) * unit == frame * unit + unit;
  }

  /** The chunk offset is where the captured data begins, kept inside the block. */
  lemma OffsetIsGreatest(cfg: Config, b: Block, v: nat)
    ensures v <= ChunkOffset(cfg, b) <==> v == 0 || (!cfg.playback && v <= b.offset && v <= b.maxsize)
  {
  }

  /** Samples of different channels or frames never overlap. */
  lemma SamplesDisjoint(fmt: Format, c1: nat, f1: nat, c2: nat, f2: nat)
    requires ValidFormat(fmt) && c1 < fmt.channels && c2 < fmt.channels
    requires (c1, f1) != (c2, f2)
    requires ChannelArea(fmt, c1).block == ChannelArea(fmt, c2).block
    ensures || SampleStart(fmt, c1, f1) + fmt.sampleBits <= SampleStart(fmt, c2, f2)
            || SampleStart(fmt, c2, f2) + fmt.sampleBits <= SampleStart(fmt, c1, f1)
  {
    hide SampleStart, ChannelArea;
    if f1 < f2 {
      EarlierFrame(fmt, c1, f1, c2, f2);
    } else if f2 < f1 {
      EarlierFrame(fmt, c2, f2, c1, f1);
    } else if c1 < c2 {
      EarlierChannel(fmt, c1, c2, f1);
    } else {
      EarlierChannel(fmt, c2, c1, f1);
    }
  }

  lemma EarlierFrame(fmt: Format, c1: nat, f1: nat, c2: nat, f2: nat)
    requires ValidFormat(fmt) && c1 < fmt.channels && c2 < fmt.channels && f1 < f2
    ensures SampleStart(fmt, c1, f1) + fmt.sampleBits <= SampleStart(fmt, c2, f2)
  {
    hide SampleStart, Stride;
    SampleEndsInStride(fmt, c1, f1);
    SampleEndsInStride(fmt, c2, f2);
    MulMonotone(f1 + 1, f2, Stride(fmt));
  }

  lemma EarlierChannel(fmt: Format, c1: nat, c2: nat, frame: nat)
    requires c1 < c2 && ChannelArea(fmt, c1).block == ChannelArea(fmt, c2).block
    ensures SampleStart(fmt, c1, frame) + fmt.sampleBits <= SampleStart(fmt, c2, frame)
  {
    var bits := fmt.sampleBits;
    assert (c1 + 1) * bits == c1 * bits + bits;
    MulMonotone(c1 + 1, c2, bits);
  }
}
