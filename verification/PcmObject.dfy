/** `snd_pcm_pipewire_t`: the fields updated in place by the process callback,
    the drained event, drain, prepare, start and stop. */
module PcmObject {
  import opened Bits
  import opened Common
  import opened Pcm
  import PcmRuns

  /** Where the frames of a cycle went: from the ring into the PipeWire buffer,
      padded with silence, or from the input into the ring. */
  ghost predicate DataMoved(cfg: Config, hwPtr: nat, n: nat, clipped: nat, input: seq<Frame>,
                            ring: seq<Frame>, ring': seq<Frame>, dest: seq<OutFrame>, dest': seq<OutFrame>)
  {
    && |ring| > 0 && n <= clipped
    && (cfg.playback ==>
          && ring' == ring
          && clipped <= |dest'| && dest'[..clipped] == PlayedFrames(ring, hwPtr, n, clipped))
    && (!cfg.playback ==>
          && dest' == dest
          && n <= |input| && ring' == RingStore(ring, Cell(hwPtr, |ring|), input[..n]))
  }

  /** The fields a wait in drain() ends with. */
  datatype Wake = Wake(drained: bool, draining: bool, activated: bool, error: int) {
    predicate Stops() {
      drained || error < 0 || !activated
    }
  }

  /** The wait loop ends on a wakeup exactly if, in a run, drain() may return. */
  lemma ReturnAgrees(c: Config, w: PcmRuns.World)
    requires |w.ring| == c.bufferSize > 0 && c.stride > 0 && w.loop.Free? && w.inDrain
    ensures Wake(w.p.drained, w.p.draining, w.activated, w.error).Stops()
            <==> PcmRuns.Enabled(c, w, PcmRuns.DrainReturn)
  {
  }

  class PcmPlugin {
    var cfg: Config
    var hwPtr: nat
    var xrunDetected: bool
    var drained: bool
    var draining: bool
    var activated: bool
    var error: int
    var delay: int
    var transferred: nat
    var buffered: nat
    var now: int
    var sequence: nat

    ghost function Value(): Plugin
      reads this
    {
      Plugin(hwPtr, xrunDetected, drained, draining, delay, transferred, buffered, now)
    }

    /** snd_pcm_areas_copy_wrap out of the ring, from the hardware pointer. */
    method CopyFromRing(ring: array<Frame>, dest: array<OutFrame>, n: nat)
      requires ring.Length > 0 && n <= dest.Length
      modifies dest
      ensures dest[..n] == Sounds(RingFrames(ring[..], Cell(hwPtr, ring.Length), n))
      ensures dest[n..] == old(dest[n..])
    {
      var src := hwPtr % ring.Length;
      CellIsMod(hwPtr, ring.Length);
      ghost var from := src;
      for j := 0 to n
        invariant src == Cell(from + j, ring.Length)
        invariant forall k :: 0 <= k < j ==> dest[k] == Sound(ring[Cell(from + k, ring.Length)])
        invariant dest[n..] == old(dest[n..])
      {
        dest[j] := Sound(ring[src]);
        NextCell(from + j, ring.Length);
        src := src + 1;
        if src == ring.Length {
          src := 0;
        }
      }
    }

    /** snd_pcm_areas_copy_wrap into the ring, from the hardware pointer. */
    method CopyToRing(ring: array<Frame>, input: seq<Frame>)
      requires ring.Length > 0
      modifies ring
      ensures ring[..] == RingStore(old(ring[..]), Cell(hwPtr, ring.Length), input)
    {
      hide Cell;
      var dst := hwPtr % ring.Length;
      CellIsMod(hwPtr, ring.Length);
      ghost var from := dst;
      ghost var was := ring[..];
      CellFixed(hwPtr, ring.Length);
      for j := 0 to |input|
        invariant dst == Cell(from + j, ring.Length)
        invariant ring[..] == RingStore(was, from, input[..j])
      {
        ring[dst] := input[j];
        NextCell(from + j, ring.Length);
        assert input[..j + 1][..j] == input[..j];
        dst := dst + 1;
        if dst == ring.Length {
          dst := 0;
        }
      }
      assert input[..|input|] == input;
    }

    /** snd_pcm_areas_silence. */
    method FillSilence(dest: array<OutFrame>, from: nat, to: nat)
      requires from <= to <= dest.Length
      modifies dest
      ensures dest[..from] == old(dest[..from])
      ensures dest[from..to] == Silent(to - from)
    {
      for k := from to to
        invariant dest[..from] == old(dest[..from])
        invariant forall i :: from <= i < k ==> dest[i] == Silence
      {
        dest[k] := Silence;
      }
    }

    /** The copy of snd_pcm_pipewire_process, if io->state is active. */
    method CopyFrames(st: IoState, ring: array<Frame>, dest: array<OutFrame>, input: seq<Frame>, w: nat, avail: nat)
      returns (xfer: nat)
      requires ring.Length > 0 && w <= if cfg.playback then dest.Length else |input|
      modifies this`hwPtr, ring, dest
      ensures xfer == Copied(st, w, avail) && xfer <= w
      ensures hwPtr == AdvanceHw(old(hwPtr), xfer, cfg.boundary)
      ensures cfg.playback ==>
                && ring[..] == old(ring[..])
                && dest[..xfer] == Sounds(RingFrames(ring[..], Cell(old(hwPtr), ring.Length), xfer))
      ensures !cfg.playback ==>
                && dest[..] == old(dest[..])
                && ring[..] == RingStore(old(ring[..]), Cell(old(hwPtr), ring.Length), input[..xfer])
    {
      hide Cell, RingFrames, RingStore, Sounds;
      xfer := 0;
      if Active(st) {
        xfer := Min(w, avail);
        if xfer > 0 {
          if cfg.playback {
            CopyFromRing(ring, dest, xfer);
          } else {
            CopyToRing(ring, input[..xfer]);
          }
          hwPtr := hwPtr + xfer;
          if hwPtr >= cfg.boundary {
            hwPtr := hwPtr - cfg.boundary;
          }
        }
      }
      if xfer == 0 { NothingCopied(ring[..], Cell(old(hwPtr), ring.Length), input[..xfer]); }
    }

    /** snd_pcm_pipewire_process. `dest` is the PipeWire buffer of a playback
        cycle, `input` the frames in that of a capture cycle. io->state is read
        before the copy (`st`) and again before the xrun report (`st2`). */
    method Process(st: IoState, st2: IoState, ring: array<Frame>, dest: array<OutFrame>, input: seq<Frame>,
                   blocks: seq<Block>, avail: nat, want: nat)
      returns (xfer: nat, left: nat, ghost clipped: nat)
      requires ring.Length > 0 && cfg.stride > 0
      requires Clip(cfg, want, blocks) <= if cfg.playback then dest.Length else |input|
      modifies this`hwPtr, this`xrunDetected, ring, dest
      ensures clipped == Clip(cfg, want, blocks)
      ensures var n := Copied(st, clipped, avail);
              && hwPtr == AdvanceHw(old(hwPtr), n, cfg.boundary)
              && xrunDetected == (old(xrunDetected) || (n < clipped && Active(st2)))
              && left == avail - n
              && xfer == (if cfg.playback then clipped else n)
              && DataMoved(cfg, old(hwPtr), n, clipped, input, old(ring[..]), ring[..], old(dest[..]), dest[..])
    {
      hide Cell, Clip, RingFrames, RingStore, Sounds, Copied, AdvanceHw, Active;
      CopiedBound(st, Clip(cfg, want, blocks), avail);
      var w := ClipWant(cfg, want, blocks);
      clipped := w;
      xfer := CopyFrames(st, ring, dest, input, w, avail);
      left := avail - xfer;
      ghost var n := xfer;
      if xfer < w {
        if cfg.playback {
          FillSilence(dest, xfer, w);
          xfer := w;
        }
        if Active(st2) {
          xrunDetected := true;
        }
      }
      if cfg.playback {
        assert dest[..w] == dest[..n] + dest[n..w];
        assert dest[..][..w] == dest[..w];
      }
    }

    /** The seqlock section of on_stream_process. */
    method RunSection(st: IoState, st2: IoState, ring: array<Frame>, dest: array<OutFrame>, input: seq<Frame>,
                      blocks: seq<Block>, avail: nat, want: nat, pwDelay: int, pwNow: int)
      returns (left: nat)
      requires ring.Length > 0 && cfg.stride > 0
      requires Clip(cfg, want, blocks) <= if cfg.playback then dest.Length else |input|
      modifies this`hwPtr, this`xrunDetected, this`delay, this`transferred, this`buffered, this`now, this`sequence
      modifies ring, dest
      ensures sequence == old(sequence) + 2
      ensures var clipped := Clip(cfg, want, blocks);
              && Value() == Section(cfg, old(Value()), st, st2, avail, want, clipped, pwDelay, pwNow)
              && left == avail - Copied(st, clipped, avail)
      ensures var clipped := Clip(cfg, want, blocks);
              DataMoved(cfg, old(hwPtr), Copied(st, clipped, avail), clipped, input,
                        old(ring[..]), ring[..], old(dest[..]), dest[..])
    {
      hide Clip, Section, Surplus, DataMoved, AdvanceHw, Copied, Active;
      CopiedBound(st, Clip(cfg, want, blocks), avail);
      sequence := sequence + 1;
      if now != pwNow {
        transferred := buffered;
        buffered := 0;
      }
      var xfer;
      ghost var clipped;
      xfer, left, clipped := Process(st, st2, ring, dest, input, blocks, avail, want);
      delay := pwDelay;
      if cfg.playback {
        transferred := transferred + xfer;
      }
      buffered := Surplus(transferred, want);
      now := pwNow;
      sequence := sequence + 1;
      SectionOf(cfg, old(Value()), st, st2, avail, want, clipped, pwDelay, pwNow, Value());
    }

    /** on_stream_process; `buffer` says whether one could be dequeued. io->state
        is read a third time (`st3`) for the drain test. */
    method OnStreamProcess(st: IoState, st2: IoState, st3: IoState, ring: array<Frame>, dest: array<OutFrame>,
                           input: seq<Frame>, buffer: bool, blocks: seq<Block>, requested: nat, avail: nat,
                           pwDelay: int, pwNow: int)
      returns (flushed: bool)
      requires ring.Length > 0 && cfg.stride > 0
      requires Clip(cfg, if requested > 0 then requested else avail, blocks)
               <= if cfg.playback then dest.Length else |input|
      modifies this, ring, dest
      ensures cfg == old(cfg) && activated == old(activated) && error == old(error)
      ensures old(drained) || !buffer ==>
                && Value() == old(Value()) && sequence == old(sequence) && !flushed
                && ring[..] == old(ring[..]) && dest[..] == old(dest[..])
      ensures !old(drained) && buffer ==>
                var want := if requested > 0 then requested else avail;
                var clipped := Clip(cfg, want, blocks);
                var mid := Section(cfg, old(Value()), st, st2, avail, want, clipped, pwDelay, pwNow);
                var left := avail - Copied(st, clipped, avail);
                && Value() == DrainTest(cfg, mid, st3, left)
                && flushed == Flushes(cfg, mid, st3, left)
                && (flushed <==> cfg.playback && draining && !old(draining))
                && sequence == old(sequence) + 2
                && DataMoved(cfg, old(hwPtr), avail - left, clipped, input,
                             old(ring[..]), ring[..], old(dest[..]), dest[..])
    {
      hide Clip, Section, Copied, DataMoved;
      CopiedBound(st, Clip(cfg, if requested > 0 then requested else avail, blocks), avail);
      flushed := false;
      if drained || !buffer {
        return;
      }
      var want := if requested > 0 then requested else avail;
      var left := RunSection(st, st2, ring, dest, input, blocks, avail, want, pwDelay, pwNow);
      if st3 == Draining && !draining && left == 0 {
        if !cfg.playback {
          OnStreamDrained();
        } else {
          flushed := true;
          draining := true;
          drained := false;
        }
      }
    }

    method OnStreamDrained()
      modifies this`drained, this`draining
      ensures Value() == old(Value()).(drained := true, draining := false)
    {
      drained := true;
      draining := false;
    }

    /** snd_pcm_pipewire_drain. Each wait ends with the fields other threads left
        them in; `returned` is false if the last of them still keeps it waiting. */
    method Drain(hasStream: bool, wakes: seq<Wake>) returns (res: int, returned: bool, waits: nat)
      modifies this`drained, this`draining, this`activated, this`error
      ensures res == error && waits <= |wakes|
      ensures returned <==> drained || error < 0 || !activated
      ensures returned && res >= 0 && activated ==> drained && waits > 0
      ensures forall i :: 0 <= i < waits - 1 ==> !wakes[i].Stops()
      ensures !returned ==> waits == |wakes|
      ensures waits == 0 ==> !drained && !draining && error == old(error) && activated == (old(activated) || hasStream)
      ensures waits > 0 ==> wakes[waits - 1] == Wake(drained, draining, activated, error)
    {
      drained := false;
      draining := false;
      if !activated && hasStream {
        activated := true;
      }
      waits := 0;
      while !drained && error >= 0 && activated && waits < |wakes|
        invariant waits <= |wakes|
        invariant forall i :: 0 <= i < waits - 1 ==> !wakes[i].Stops()
        invariant waits == 0 ==>
                    && !drained && !draining && error == old(error)
                    && activated == (old(activated) || hasStream)
        invariant waits > 0 ==> wakes[waits - 1] == Wake(drained, draining, activated, error)
        decreases |wakes| - waits
      {
        var wake := wakes[waits];
        drained, draining, activated, error := wake.drained, wake.draining, wake.activated, wake.error;
        waits := waits + 1;
      }
      res := error;
      returned := drained || error < 0 || !activated;
    }
  }

  lemma NextCell(i: nat, m: nat)
    requires m > 0
    ensures Cell(i + 1, m) == if Cell(i, m) + 1 == m then 0 else Cell(i, m) + 1
  {
    CellAdd(i, 1, m);
  }

  lemma CellFixed(i: nat, m: nat)
    requires m > 0
    ensures Cell(Cell(i, m), m) == Cell(i, m)
  {
  }

  lemma SectionOf(cfg: Config, p: Plugin, st: IoState, st2: IoState, avail: nat, want: nat, clipped: nat,
                  delay: int, now: int, q: Plugin)
    requires var n := Copied(st, clipped, avail);
             var start := if p.now != now then p.buffered else p.transferred;
             && q.hwPtr == AdvanceHw(p.hwPtr, n, cfg.boundary)
             && q.xrun == (p.xrun || (n < clipped && Active(st2)))
             && q.transferred == (if cfg.playback then start + clipped else start)
             && q.buffered == Surplus(q.transferred, want)
             && q.delay == delay && q.now == now && q.drained == p.drained && q.draining == p.draining
    ensures q == Section(cfg, p, st, st2, avail, want, clipped, delay, now)
  {
  }

  lemma CopiedBound(st: IoState, clipped: nat, avail: nat)
    ensures Copied(st, clipped, avail) <= clipped && Copied(st, clipped, avail) <= avail
  {
  }

  lemma NothingCopied(ring: seq<Frame>, from: nat, data: seq<Frame>)
    requires |ring| > 0 && data == []
    ensures RingStore(ring, from, data) == ring
    ensures Sounds(RingFrames(ring, from, 0)) == []
  {
  }
}
