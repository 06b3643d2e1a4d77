/** Every run of the PCM plugin: the process callback, the application, and
    the main loop, interleaved.

    The callback is a step for each thing another thread can see: it loads
    hw_avail; it tests `drained`; it runs the seqlock section with its copy; it
    tests whether to flush, and flushes; and it stores `draining` and `drained`
    one after the other. The two stores of a drained event, and of drain() on
    entry before it starts the stream, are steps too; the loop lock keeps those two handlers apart. hw_avail
    counts the frames committed and not yet consumed (playback) or the free
    frames (capture), as ALSA defines it. Of pw_stream there are the two flags a
    flush sets, the cycle that finds its queue empty and posts a drained event,
    and the re-activation that clears the flags. The last block of World fields
    is history; a session begins at drain or prepare. */
module PcmRuns {
  import opened Bits
  import opened Common
  import opened Pcm

  datatype Callback =
    | Idle
    | Loading(avail: nat) // has not tested `drained` yet
    | Loaded(avail: nat)
    | Moved(left: nat)
    | Flushed // pw_stream_flush was called
    | Marked  // and `draining` was set
    | Ended   // capture: `drained` was set

  datatype Loop =
    | Free
    | Answering // a drained event has set `drained`
    | Entering  // drain() has cleared `drained`
    | Starting  // and `draining`, and is about to start the stream

  /** impl->draining and impl->drained of the stream, and whether a drained event
      was posted to the main loop and not handled to its end. */
  datatype Stream = Stream(draining: bool, drained: bool, posted: bool)

  /** At the last flush: frames committed, frames consumed, and how many were
      committed after that cycle loaded hw_avail. */
  datatype FlushRecord = FlushRecord(committed: nat, consumed: nat, window: nat)

  datatype World = World(
    ring: seq<Frame>,       // the mmap areas shared with the application
    st: IoState,            // io->state, set by ALSA
    p: Plugin,
    activated: bool,
    error: int,
    cb: Callback,
    loop: Loop,
    inDrain: bool,          // the application waits inside drain()
    stream: Stream,

    entered: seq<Frame>,    // frames put in the ring since prepare, in order
    exited: nat,            // how many of them left it
    sink: seq<OutFrame>,    // what came out: to PipeWire, or to the application
    window: nat,            // frames committed since the callback loaded hw_avail
    carry: Carry,
    h: History)

  /** The clock cycle: frames carried into it, moved in it, and calls in it. */
  datatype Carry = Carry(carried: nat, moved: nat, calls: nat)

  datatype History = History(
    flushes: nat,           // flushes in this session
    restarts: nat,          // re-activations in this session that cut a drain of the stream short
    crossed: bool,          // an event was already posted when the callback began
    stale: bool,            // the last prepare found an answer due
    clearInCb: bool,        // `draining` was clear at the callback's load, or cleared since
    record: Option<FlushRecord>)

  datatype Step =
    | AppPoke(j: nat, frame: Frame)
    | AppCommit(n: nat)
    | CbLoad
    | CbTest(buffer: bool)
    | CbMove(requested: nat, blocks: seq<Block>, input: seq<Frame>, delay: int, now: int, st2: IoState)
    | CbFinish
    | CbMark
    | CbClear
    | CbEnd
    | SetState(st: IoState)
    | DrainEnter
    | DrainCleared
    | DrainEntered
    | DrainReturn
    | StreamDrained
    | DrainedEvent
    | DrainedEnd
    | Activate(on: bool)
    | Fail(err: int)
    | Prepare(restart: bool)

  function Held(w: World): int {
    |w.entered| - w.exited
  }

  /** snd_pcm_ioplug_hw_avail. */
  function HwAvail(cfg: Config, w: World): int {
    if cfg.playback then Held(w) else cfg.bufferSize - Held(w)
  }

  function Want(s: Step, avail: nat): nat
    requires s.CbMove?
  {
    if s.requested > 0 then s.requested else avail
  }

  /** One transfer: what is asked for before and after clipping, the captured
      frames, the time values, and the second read of io->state. */
  datatype Transfer = Transfer(st2: IoState, want: nat, clipped: nat, input: seq<Frame>, delay: int, now: int)

  /** The transfer of a callback that loaded hw_avail. */
  function Asked(cfg: Config, s: Step, avail: nat): Transfer
    requires s.CbMove? && cfg.stride > 0
  {
    var want := Want(s, avail);
    Transfer(s.st2, want, Clip(cfg, want, s.blocks), s.input, s.delay, s.now)
  }

  predicate CanMove(cfg: Config, w: World, x: Transfer) {
    |w.ring| > 0 && w.cb.Loaded? && (cfg.playback || x.clipped <= |x.input|)
  }

  /** The plugin's fields after it. */
  function Transferred(cfg: Config, w: World, x: Transfer): Plugin
    requires CanMove(cfg, w, x)
  {
    Section(cfg, w.p, w.st, x.st2, w.cb.avail, x.want, x.clipped, x.delay, x.now)
  }

  predicate Enabled(cfg: Config, w: World, s: Step) {
    && |w.ring| == cfg.bufferSize && cfg.bufferSize > 0 && cfg.stride > 0
    && match s
       case AppPoke(j, _) => cfg.playback && j < cfg.bufferSize - Held(w)
       case AppCommit(n) => n <= (if cfg.playback then cfg.bufferSize - Held(w) else Held(w))
       case CbLoad => w.cb.Idle? && HwAvail(cfg, w) >= 0 && !w.stream.draining && !w.stream.drained
       case CbTest(_) => w.cb.Loading?
       case CbMove(_, blocks, _, _, _, _) =>
         w.cb.Loaded? && blocks != [] && CanMove(cfg, w, Asked(cfg, s, w.cb.avail))
       case CbFinish => w.cb.Moved?
       case CbMark => w.cb.Flushed?
       case CbClear => w.cb.Marked?
       case CbEnd => w.cb.Ended?
       case SetState(_) => true
       case DrainEnter => w.loop.Free? && !w.inDrain
       case DrainCleared => w.loop.Entering?
       case DrainEntered => w.loop.Starting? && (w.activated || w.cb.Idle?)
       case DrainReturn => w.loop.Free? && w.inDrain && (w.p.drained || w.error < 0 || !w.activated)
       case StreamDrained => w.cb.Idle? && (w.stream.draining || w.stream.drained)
       case DrainedEvent => w.loop.Free? && w.stream.posted
       case DrainedEnd => w.loop.Answering?
       case Activate(on) => w.loop.Free? && (on == w.activated || w.cb.Idle?)
       case Fail(err) => err < 0
       case Prepare(_) => w.loop.Free? && w.cb.Idle?
  }

  /** The steps of the callback that move no frames. */
  predicate OfCallback(s: Step) {
    s.CbLoad? || s.CbTest? || s.CbFinish? || s.CbMark? || s.CbClear? || s.CbEnd?
  }

  /** The steps that move frames, or drop them. */
  predicate OfData(s: Step) {
    s.AppPoke? || s.AppCommit? || s.CbMove? || s.Prepare?
  }

  ghost function Apply(cfg: Config, w: World, s: Step): World
    requires Enabled(cfg, w, s)
  {
    if OfCallback(s) then ApplyCallback(cfg, w, s)
    else if OfData(s) then ApplyData(cfg, w, s)
    else ApplyControl(cfg, w, s)
  }

  ghost function ApplyData(cfg: Config, w: World, s: Step): World
    requires Enabled(cfg, w, s) && OfData(s)
  {
    match s
    case AppPoke(j, frame) => w.(ring := w.ring[Cell(|w.entered| + j, |w.ring|) := frame])
    case AppCommit(n) => Commit(cfg, w, n)
    case CbMove(_, _, _, _, _, _) => Move(cfg, w, Asked(cfg, s, w.cb.avail))
    case Prepare(restart) => Reset(if restart then Restart(w) else w)
  }

  ghost function ApplyCallback(cfg: Config, w: World, s: Step): World
    requires Enabled(cfg, w, s) && OfCallback(s)
  {
    match s
    case CbLoad => w.(cb := Loading(HwAvail(cfg, w)), window := 0,
                      h := w.h.(clearInCb := !w.p.draining, crossed := w.stream.posted))
    case CbTest(buffer) => w.(cb := if w.p.drained || !buffer then Idle else Loaded(w.cb.avail))
    case CbFinish =>
      if w.st == Draining && !w.p.draining && w.cb.left == 0 then
        if cfg.playback then Flush(w) else w.(cb := Ended, p := w.p.(drained := true))
      else w.(cb := Idle)
    case CbMark => w.(cb := Marked, p := w.p.(draining := true))
    case CbClear => w.(cb := Idle, p := w.p.(drained := false))
    case CbEnd => w.(cb := Idle, p := w.p.(draining := false))
  }

  ghost function ApplyControl(cfg: Config, w: World, s: Step): World
    requires Enabled(cfg, w, s) && !OfCallback(s) && !OfData(s)
  {
    match s
    case SetState(st) => w.(st := st)
    case DrainEnter => NewSession(w).(p := w.p.(drained := false), loop := Entering)
    case DrainCleared => Clear(w).(loop := Starting)
    case DrainEntered => SetActive(w, true).(loop := Free, inDrain := true)
    case DrainReturn => w.(inDrain := false)
    case StreamDrained => w.(stream := Stream(false, true, true))
    case DrainedEvent => w.(p := w.p.(drained := true), loop := Answering)
    case DrainedEnd => Clear(w).(loop := Free, stream := w.stream.(posted := false))
    case Activate(on) => SetActive(w, on)
    case Fail(err) => w.(error := err)
  }

  /** A drained event was posted, or the stream will post one. */
  predicate Due(w: World) {
    w.stream.draining || w.stream.drained || w.stream.posted
  }

  function NewSession(w: World): World {
    w.(h := w.h.(flushes := 0, restarts := 0))
  }

  /** The second store of a handler. */
  function Clear(w: World): World {
    w.(p := w.p.(draining := false), h := w.h.(clearInCb := true))
  }

  /** The end of prepare. */
  function Reset(w: World): World {
    w.(p := AfterPrepare(w.p), entered := [], exited := 0, sink := [],
       h := w.h.(flushes := 0, restarts := 0, record := None, stale := Due(w)))
  }

  /** pw_stream_set_active: it ends the stream's drain, but not a posted event. */
  function Restart(w: World): World {
    w.(stream := Stream(false, false, w.stream.posted),
       h := w.h.(restarts := if w.stream.draining || w.stream.drained then w.h.restarts + 1 else w.h.restarts))
  }

  function SetActive(w: World, on: bool): World {
    if w.activated == on then w else Restart(w).(activated := on)
  }

  ghost function Flush(w: World): World {
    w.(cb := Flushed, stream := Stream(true, false, w.stream.posted),
       h := w.h.(flushes := w.h.flushes + 1, record := Some(FlushRecord(|w.entered|, w.exited, w.window))))
  }

  ghost function Commit(cfg: Config, w: World, n: nat): World
    requires |w.ring| > 0
  {
    if cfg.playback then
      w.(entered := w.entered + RingFrames(w.ring, |w.entered|, n), window := w.window + n)
    else
      w.(exited := w.exited + n, sink := w.sink + Sounds(RingFrames(w.ring, w.exited, n)), window := w.window + n)
  }

  ghost function Move(cfg: Config, w: World, x: Transfer): World
    requires CanMove(cfg, w, x)
  {
    var n := Copied(w.st, x.clipped, w.cb.avail);
    var c := if w.p.now != x.now then Carry(w.p.buffered, 0, 0) else w.carry;
    var w' := w.(
      p := Transferred(cfg, w, x),
      cb := Moved(w.cb.avail - n),
      carry := Carry(c.carried, c.moved + (if cfg.playback then x.clipped else 0), c.calls + 1));
    if cfg.playback then
      w'.(exited := w.exited + n, sink := w.sink + PlayedFrames(w.ring, w.p.hwPtr, n, x.clipped))
    else
      w'.(ring := RingStore(w.ring, Cell(w.p.hwPtr, |w.ring|), x.input[..n]), entered := w.entered + x.input[..n])
  }

  ghost predicate Init(cfg: Config, w: World) {
    && |w.ring| == cfg.bufferSize
    && w.p == Plugin(0, false, false, false, 0, 0, 0, 0)
    && !w.activated && w.error == 0 && w.cb.Idle? && w.loop.Free? && !w.inDrain
    && w.entered == [] && w.exited == 0 && w.sink == []
    && w.stream == Stream(false, false, false) && w.window == 0
    && w.h == History(0, 0, false, false, w.h.clearInCb, None)
    && w.carry == Carry(0, 0, 0)
  }

  ghost predicate IsRun(cfg: Config, ws: seq<World>, ss: seq<Step>) {
    && ValidConfig(cfg)
    && |ws| == |ss| + 1
    && Init(cfg, ws[0])
    && forall i :: 0 <= i < |ss| ==> Enabled(cfg, ws[i], ss[i]) && ws[i + 1] == Apply(cfg, ws[i], ss[i])
  }

  // ---------------------------------------------------------------------
  // Frames: none lost, repeated or reordered

  /** The frames of `out` with the silence deleted. */
  ghost function Heard(out: seq<OutFrame>): seq<Frame> {
    if out == [] then []
    else Heard(out[..|out| - 1]) + (if out[|out| - 1].Sound? then [out[|out| - 1].frame] else [])
  }

  lemma {:induction false} HeardAppend(a: seq<OutFrame>, b: seq<OutFrame>)
    ensures Heard(a + b) == Heard(a) + Heard(b)
    decreases |b|
  {
    if b == [] {
      assert a + b == a;
    } else {
      assert (a + b)[..|a + b| - 1] == a + b[..|b| - 1];
      HeardAppend(a, b[..|b| - 1]);
    }
  }

  lemma {:induction false} HeardSounds(frames: seq<Frame>)
    ensures Heard(Sounds(frames)) == frames
    decreases |frames|
  {
    if frames != [] {
      var n := |frames| - 1;
      assert Sounds(frames)[..n] == Sounds(frames[..n]);
      HeardSounds(frames[..n]);
    }
  }

  lemma {:induction false} HeardSilent(n: nat)
    ensures Heard(Silent(n)) == []
  {
    if n > 0 {
      assert Silent(n)[..n - 1] == Silent(n - 1);
      HeardSilent(n - 1);
    }
  }

  /** Frame `i` of the stream is in its ring cell. */
  ghost predicate InRing(ring: seq<Frame>, entered: seq<Frame>, i: nat) {
    |ring| > 0 && i < |entered| && ring[Cell(i, |ring|)] == entered[i]
  }

  /** Frames that passed the hardware pointer since prepare. */
  function HwCount(cfg: Config, w: World): nat {
    if cfg.playback then w.exited else |w.entered|
  }

  /** What the callback believes is available, short of what was committed since. */
  predicate AvailInv(cfg: Config, w: World) {
    match w.cb
    case Loading(avail) => avail + w.window == HwAvail(cfg, w)
    case Loaded(avail) => avail + w.window == HwAvail(cfg, w)
    case Moved(left) => left + w.window == HwAvail(cfg, w)
    case _ => true
  }

  ghost predicate DataInv(cfg: Config, w: World) {
    && |w.ring| == cfg.bufferSize > 0 && cfg.boundary > 0
    && 0 <= Held(w) <= cfg.bufferSize
    && w.p.hwPtr == Cell(HwCount(cfg, w), cfg.boundary)
    && (forall i: nat :: w.exited <= i < |w.entered| ==> InRing(w.ring, w.entered, i))
    && Heard(w.sink) == w.entered[..w.exited]
    && AvailInv(cfg, w)
  }

  lemma PokeInv(cfg: Config, w: World, j: nat, frame: Frame)
    requires DataInv(cfg, w) && Enabled(cfg, w, AppPoke(j, frame))
    ensures DataInv(cfg, Apply(cfg, w, AppPoke(j, frame)))
  {
    hide Cell, Heard;
    var w' := Apply(cfg, w, AppPoke(j, frame));
    forall i: nat | w.exited <= i < |w.entered| ensures InRing(w'.ring, w.entered, i) {
      assert InRing(w.ring, w.entered, i);
      CellDistinct(i, |w.entered| + j, |w.ring|);
    }
  }

  lemma PlayCommitInv(cfg: Config, w: World, n: nat)
    requires DataInv(cfg, w) && Enabled(cfg, w, AppCommit(n)) && cfg.playback
    ensures DataInv(cfg, Commit(cfg, w, n))
  {
    hide Cell, Heard;
    var w' := Commit(cfg, w, n);
    forall i: nat | w'.exited <= i < |w'.entered| ensures InRing(w'.ring, w'.entered, i) {
      assert i < |w.entered| ==> InRing(w.ring, w.entered, i);
    }
    assert w'.entered[..w.exited] == w.entered[..w.exited];
  }

  lemma CaptureCommitInv(cfg: Config, w: World, n: nat)
    requires DataInv(cfg, w) && Enabled(cfg, w, AppCommit(n)) && !cfg.playback
    ensures DataInv(cfg, Commit(cfg, w, n))
  {
    hide Cell, Heard, Sounds, RingFrames;
    var w' := Commit(cfg, w, n);
    forall i: nat | w'.exited <= i < |w'.entered| ensures InRing(w'.ring, w'.entered, i) {
      assert InRing(w.ring, w.entered, i);
    }
    var frames := RingFrames(w.ring, w.exited, n);
    HeardAppend(w.sink, Sounds(frames));
    HeardSounds(frames);
    TakenFromRing(w, n);
    assert w.entered[..w.exited + n] == w.entered[..w.exited] + w.entered[w.exited..w.exited + n];
  }

  lemma TakenFromRing(w: World, n: nat)
    requires |w.ring| > 0 && w.exited + n <= |w.entered|
    requires forall i: nat :: w.exited <= i < |w.entered| ==> InRing(w.ring, w.entered, i)
    ensures RingFrames(w.ring, w.exited, n) == w.entered[w.exited..w.exited + n]
  {
    hide Cell;
    forall j | 0 <= j < n ensures RingFrames(w.ring, w.exited, n)[j] == w.entered[w.exited + j] {
      assert InRing(w.ring, w.entered, w.exited + j);
    }
  }

  /** The copy starts at `hw_ptr % buffer_size`; that is where the running count points. */
  lemma RingFramesAtOffset(ring: seq<Frame>, from: nat, n: nat)
    requires |ring| > 0
    ensures RingFrames(ring, Cell(from, |ring|), n) == RingFrames(ring, from, n)
  {
    hide Cell;
    forall j | 0 <= j < n ensures RingFrames(ring, Cell(from, |ring|), n)[j] == RingFrames(ring, from, n)[j] {
      CellAdd(from, j, |ring|);
    }
  }

  lemma {:induction false} RingStoreAtOffset(ring: seq<Frame>, from: nat, data: seq<Frame>)
    requires |ring| > 0
    ensures RingStore(ring, Cell(from, |ring|), data) == RingStore(ring, from, data)
    decreases |data|
  {
    hide Cell;
    if data != [] {
      RingStoreAtOffset(ring, from, data[..|data| - 1]);
      CellAdd(from, |data| - 1, |ring|);
    }
  }

  lemma PlayInv(cfg: Config, w: World, x: Transfer)
    requires ValidConfig(cfg) && cfg.playback && DataInv(cfg, w) && CanMove(cfg, w, x)
    ensures DataInv(cfg, Move(cfg, w, x))
  {
    hide Cell, Heard, Sounds, Silent, RingFrames, AdvanceHw, RingStore;
    var n := Copied(w.st, x.clipped, w.cb.avail);
    AdvanceHwCounts(cfg, w.exited, n);
    OffsetOfHwPtr(cfg, w.exited);
    RingFramesAtOffset(w.ring, w.exited, n);
    TakenFromRing(w, n);
    var frames := w.entered[w.exited..w.exited + n];
    HeardAppend(w.sink, Sounds(frames) + Silent(x.clipped - n));
    HeardAppend(Sounds(frames), Silent(x.clipped - n));
    HeardSounds(frames);
    HeardSilent(x.clipped - n);
    assert w.entered[..w.exited + n] == w.entered[..w.exited] + frames;
  }

  lemma CaptureInv(cfg: Config, w: World, x: Transfer)
    requires ValidConfig(cfg) && !cfg.playback && DataInv(cfg, w) && CanMove(cfg, w, x)
    ensures DataInv(cfg, Move(cfg, w, x))
  {
    hide Cell, Heard, Sounds, Silent, RingFrames, AdvanceHw, RingStore;
    var n := Copied(w.st, x.clipped, w.cb.avail);
    var w' := Move(cfg, w, x);
    AdvanceHwCounts(cfg, |w.entered|, n);
    OffsetOfHwPtr(cfg, |w.entered|);
    RingStoreAtOffset(w.ring, |w.entered|, x.input[..n]);
    forall i: nat | w'.exited <= i < |w'.entered| ensures InRing(w'.ring, w'.entered, i) {
      RingStoreCell(w.ring, |w.entered|, x.input[..n], i);
      assert i < |w.entered| ==> InRing(w.ring, w.entered, i);
    }
    assert w'.entered[..w.exited] == w.entered[..w.exited];
  }

  lemma PrepareInv(cfg: Config, w: World, restart: bool)
    requires DataInv(cfg, w) && Enabled(cfg, w, Prepare(restart))
    ensures DataInv(cfg, Apply(cfg, w, Prepare(restart)))
  {
    hide Cell;
    CellZero(cfg.boundary);
  }

  lemma MoveInv(cfg: Config, w: World, s: Step)
    requires ValidConfig(cfg) && DataInv(cfg, w) && Enabled(cfg, w, s) && s.CbMove?
    ensures DataInv(cfg, Apply(cfg, w, s))
  {
    hide Cell, Move, Asked, DataInv;
    if cfg.playback {
      PlayInv(cfg, w, Asked(cfg, s, w.cb.avail));
    } else {
      CaptureInv(cfg, w, Asked(cfg, s, w.cb.avail));
    }
  }

  lemma CommitInv(cfg: Config, w: World, n: nat)
    requires DataInv(cfg, w) && Enabled(cfg, w, AppCommit(n))
    ensures DataInv(cfg, Apply(cfg, w, AppCommit(n)))
  {
    hide Cell, Commit, DataInv;
    if cfg.playback { PlayCommitInv(cfg, w, n); } else { CaptureCommitInv(cfg, w, n); }
  }

  /** What the other steps leave alone. */
  predicate KeepsData(w: World, w': World) {
    && w'.p.hwPtr == w.p.hwPtr && w'.p.xrun == w.p.xrun && w'.p.transferred == w.p.transferred
    && w'.p.buffered == w.p.buffered && w'.p.now == w.p.now && w'.p.delay == w.p.delay
    && w'.ring == w.ring && w'.entered == w.entered && w'.exited == w.exited && w'.sink == w.sink
    && w'.carry == w.carry
  }

  lemma CallbackKeeps(cfg: Config, w: World, s: Step)
    requires Enabled(cfg, w, s) && OfCallback(s)
    ensures KeepsData(w, ApplyCallback(cfg, w, s))
  {
    hide HwAvail, Clip;
  }

  lemma CallbackAvail(cfg: Config, w: World, s: Step)
    requires Enabled(cfg, w, s) && OfCallback(s) && AvailInv(cfg, w)
    ensures AvailInv(cfg, ApplyCallback(cfg, w, s))
  {
  }

  lemma ControlKeeps(cfg: Config, w: World, s: Step)
    requires Enabled(cfg, w, s) && !OfCallback(s) && !OfData(s)
    ensures var w' := ApplyControl(cfg, w, s);
            KeepsData(w, w') && w'.cb == w.cb && w'.window == w.window
  {
    hide SetActive, HwAvail, Asked, CanMove;
    if s.Activate? { SetActiveKeeps(w, s.on); }
    if s.DrainEntered? { SetActiveKeeps(w, true); }
  }

  lemma SetActiveKeeps(w: World, on: bool)
    ensures var w' := SetActive(w, on);
            w'.p == w.p && KeepsData(w, w') && w'.cb == w.cb && w'.window == w.window
  {
  }

  lemma SameAvail(cfg: Config, w: World, w': World)
    requires AvailInv(cfg, w) && w'.cb == w.cb && w'.window == w.window
    requires w'.entered == w.entered && w'.exited == w.exited
    ensures AvailInv(cfg, w')
  {
  }

  lemma QuietStep(cfg: Config, w: World, s: Step)
    requires Enabled(cfg, w, s) && !OfData(s)
    ensures KeepsData(w, Apply(cfg, w, s))
    ensures AvailInv(cfg, w) ==> AvailInv(cfg, Apply(cfg, w, s))
  {
    hide ApplyCallback, ApplyControl, AvailInv, Enabled;
    if OfCallback(s) {
      CallbackKeeps(cfg, w, s);
      if AvailInv(cfg, w) { CallbackAvail(cfg, w, s); }
    } else {
      ControlKeeps(cfg, w, s);
      if AvailInv(cfg, w) { SameAvail(cfg, w, Apply(cfg, w, s)); }
    }
  }

  lemma DataStep(cfg: Config, w: World, s: Step)
    requires ValidConfig(cfg) && DataInv(cfg, w) && Enabled(cfg, w, s)
    ensures DataInv(cfg, Apply(cfg, w, s))
  {
    hide Apply, Enabled, Cell, Heard, InRing, AvailInv;
    match s
    case AppPoke(j, frame) => PokeInv(cfg, w, j, frame);
    case AppCommit(n) => CommitInv(cfg, w, n);
    case CbMove(_, _, _, _, _, _) => MoveInv(cfg, w, s);
    case Prepare(restart) => PrepareInv(cfg, w, restart);
    case _ => QuietStep(cfg, w, s);
  }

  lemma CellZero(m: nat)
    requires m > 0
    ensures Cell(0, m) == 0
  {
  }

  lemma {:induction false} DataRun(cfg: Config, ws: seq<World>, ss: seq<Step>, n: nat)
    requires IsRun(cfg, ws, ss) && n <= |ss|
    ensures DataInv(cfg, ws[n])
  {
    hide Apply, Enabled;
    if n == 0 {
      hide Cell;
      CellZero(cfg.boundary);
    } else {
      DataRun(cfg, ws, ss, n - 1);
      hide DataInv;
      DataStep(cfg, ws[n - 1], ss[n - 1]);
    }
  }

  /** Deleting the silence from what came out leaves exactly a prefix of what
      went in, in order, with nothing lost or repeated; in both directions. */
  lemma FramesKeepOrder(cfg: Config, ws: seq<World>, ss: seq<Step>, n: nat)
    requires IsRun(cfg, ws, ss) && n <= |ss|
    ensures ws[n].exited <= |ws[n].entered| <= ws[n].exited + cfg.bufferSize
    ensures Heard(ws[n].sink) == ws[n].entered[..ws[n].exited]
  {
    DataRun(cfg, ws, ss, n);
  }

  /** `hw_ptr` stays in [0, boundary) and keeps the transferred total modulo the
      boundary and modulo the buffer size. */
  lemma HwPtrCounts(cfg: Config, ws: seq<World>, ss: seq<Step>, n: nat)
    requires IsRun(cfg, ws, ss) && n <= |ss|
    ensures ws[n].p.hwPtr < cfg.boundary
    ensures ws[n].p.hwPtr == HwCount(cfg, ws[n]) % cfg.boundary
    ensures ws[n].p.hwPtr % cfg.bufferSize == HwCount(cfg, ws[n]) % cfg.bufferSize
  {
    hide Cell;
    var count := HwCount(cfg, ws[n]);
    DataRun(cfg, ws, ss, n);
    OffsetOfHwPtr(cfg, count);
    CellIsMod(count, cfg.boundary);
    CellIsMod(count, cfg.bufferSize);
    CellIsMod(ws[n].p.hwPtr, cfg.bufferSize);
  }

  // ---------------------------------------------------------------------
  // What one cycle does

  /** How many frames a cycle moves: all that are asked for, fit and are there,
      if io->state is RUNNING or DRAINING, and none otherwise. */
  function FramesMoved(st: IoState, clipped: nat, avail: nat): nat {
    match st
    case Running => if clipped <= avail then clipped else avail
    case Draining => if clipped <= avail then clipped else avail
    case _ => 0
  }

  lemma PlaybackMoves(cfg: Config, w: World, x: Transfer)
    requires ValidConfig(cfg) && cfg.playback && DataInv(cfg, w) && CanMove(cfg, w, x)
    ensures var w', n := Move(cfg, w, x), FramesMoved(w.st, x.clipped, w.cb.avail);
            && w.exited + n <= |w.entered| && w'.exited == w.exited + n && w'.entered == w.entered
            && w'.sink == w.sink + Sounds(w.entered[w.exited..w.exited + n]) + Silent(x.clipped - n)
  {
    hide Cell, Heard, Sounds, Silent, RingFrames, Transferred;
    OffsetOfHwPtr(cfg, w.exited);
    var n := Copied(w.st, x.clipped, w.cb.avail);
    RingFramesAtOffset(w.ring, w.exited, n);
    TakenFromRing(w, n);
  }

  lemma CaptureMoves(cfg: Config, w: World, x: Transfer)
    requires !cfg.playback && CanMove(cfg, w, x)
    ensures var w', n := Move(cfg, w, x), FramesMoved(w.st, x.clipped, w.cb.avail);
            && n <= |x.input| && w'.entered == w.entered + x.input[..n]
            && w'.exited == w.exited && w'.sink == w.sink
  {
    hide Cell, RingStore, Transferred;
  }

  lemma FieldsAfterMove(cfg: Config, w: World, x: Transfer)
    requires CanMove(cfg, w, x)
    ensures var w' := Move(cfg, w, x);
            && w'.cb == Moved(w.cb.avail - FramesMoved(w.st, x.clipped, w.cb.avail))
            && w'.p.delay == x.delay && w'.p.now == x.now
            && w'.p.buffered == if x.want == 0 || w'.p.transferred < x.want then 0 else w'.p.transferred % x.want
  {
    hide Cell, RingStore, PlayedFrames, AdvanceHw;
  }

  /** Every cycle of every run: playback appends to the output the next frames of
      the ring and silence up to the clipped request, capture appends the first
      frames of the input to the ring's; the delay and the clock are the cycle's,
      and the surplus is what was transferred beyond whole requests. */
  lemma CycleMoves(cfg: Config, ws: seq<World>, ss: seq<Step>, i: nat)
    requires IsRun(cfg, ws, ss) && i < |ss| && ss[i].CbMove?
    ensures ws[i].cb.Loaded? && cfg.stride > 0
    ensures var w, w', s := ws[i], ws[i + 1], ss[i];
            var want := if s.requested == 0 then w.cb.avail else s.requested;
            var clipped := Clip(cfg, want, s.blocks);
            var n := FramesMoved(w.st, clipped, w.cb.avail);
            && w'.cb == Moved(w.cb.avail - n)
            && (if cfg.playback then
                  && w.exited + n <= |w.entered| && w'.exited == w.exited + n && w'.entered == w.entered
                  && w'.sink == w.sink + Sounds(w.entered[w.exited..w.exited + n]) + Silent(clipped - n)
                else
                  && n <= |s.input| && w'.entered == w.entered + s.input[..n]
                  && w'.exited == w.exited && w'.sink == w.sink)
            && w'.p.delay == s.delay && w'.p.now == s.now
            && w'.p.buffered == if want == 0 || w'.p.transferred < want then 0 else w'.p.transferred % want
  {
    var w, s := ws[i], ss[i];
    assert Enabled(cfg, w, s) && ws[i + 1] == Apply(cfg, w, s);
    hide Move, Cell, Clip, FramesMoved, Sounds, Silent, Heard;
    DataRun(cfg, ws, ss, i);
    var x := Asked(cfg, s, w.cb.avail);
    FieldsAfterMove(cfg, w, x);
    if cfg.playback { PlaybackMoves(cfg, w, x); } else { CaptureMoves(cfg, w, x); }
  }

  /** What the application writes ahead of its pointer is what it commits. */
  lemma PokedIsCommitted(cfg: Config, w: World, j: nat, frame: Frame, n: nat)
    requires Enabled(cfg, w, AppPoke(j, frame)) && Enabled(cfg, Apply(cfg, w, AppPoke(j, frame)), AppCommit(n)) && j < n
    ensures var w' := Apply(cfg, Apply(cfg, w, AppPoke(j, frame)), AppCommit(n));
            |w'.entered| == |w.entered| + n && w.entered <= w'.entered && w'.entered[|w.entered| + j] == frame
  {
    hide Cell, Asked;
  }

  /** A callback goes on to its transfer exactly if it finds `drained` clear and
      gets a buffer, with the hw_avail it loaded. */
  lemma TestPassesIff(cfg: Config, w: World, buffer: bool)
    requires Enabled(cfg, w, CbTest(buffer))
    ensures var cb := Apply(cfg, w, CbTest(buffer)).cb;
            && (cb == Loaded(w.cb.avail) <==> !w.p.drained && buffer)
            && (cb.Idle? <==> w.p.drained || !buffer)
  {
    hide Asked;
  }

  /** prepare starts the pointer and the clock over, and keeps what was carried. */
  lemma PrepareKeepsCarry(cfg: Config, w: World, restart: bool)
    requires Enabled(cfg, w, Prepare(restart))
    ensures var p, p' := w.p, Apply(cfg, w, Prepare(restart)).p;
            p' == Plugin(0, false, false, false, p.delay, p.transferred, p.buffered, 0)
  {
    hide Move, Commit;
  }

  // ---------------------------------------------------------------------
  // Xrun

  /** What one cycle of playback adds to the output and to the xrun flag. If it
      adds silence, it reports an xrun exactly if io->state is active when it
      looks again after the copy. */
  lemma SilenceReportsXrun(cfg: Config, w: World, s: Step)
    requires Enabled(cfg, w, s) && s.CbMove? && cfg.playback
    ensures var w' := Apply(cfg, w, s);
            && w.sink <= w'.sink
            && (Silence in w'.sink[|w.sink|..] ==> (w'.p.xrun <==> w.p.xrun || Active(s.st2)))
            && (Silence !in w'.sink[|w.sink|..] ==> w'.p.xrun == w.p.xrun)
  {
    hide Cell, Clip, RingFrames, Sounds, AdvanceHw, Surplus;
    var want := Want(s, w.cb.avail);
    var clipped := Clip(cfg, want, s.blocks);
    var n := Copied(w.st, clipped, w.cb.avail);
    var w' := Apply(cfg, w, s);
    var added := w'.sink[|w.sink|..];
    assert added == PlayedFrames(w.ring, w.p.hwPtr, n, clipped);
    PlayedSilence(w.ring, w.p.hwPtr, n, clipped);
  }

  lemma PlayedSilence(ring: seq<Frame>, hwPtr: nat, n: nat, clipped: nat)
    requires |ring| > 0 && n <= clipped
    ensures Silence in PlayedFrames(ring, hwPtr, n, clipped) <==> n < clipped
  {
    hide Cell;
    var out := PlayedFrames(ring, hwPtr, n, clipped);
    if n < clipped { assert out[n] == Silence; }
  }

  /** One step, as far as the flag and the output are concerned. */
  lemma XrunStep(cfg: Config, w: World, s: Step)
    requires Enabled(cfg, w, s) && cfg.playback
    ensures var w' := Apply(cfg, w, s);
            if s.Prepare? then !w'.p.xrun && w'.sink == []
            else
              && w.sink <= w'.sink && (w.p.xrun ==> w'.p.xrun)
              && (!s.CbMove? ==> w'.p.xrun == w.p.xrun && w'.sink == w.sink)
  {
    hide Cell, Clip, Move, RingFrames, ApplyCallback, ApplyControl;
    if s.CbMove? {
      SilenceReportsXrun(cfg, w, s);
    } else if !OfData(s) {
      QuietStep(cfg, w, s);
    }
  }

  predicate Sees(s: Step) {
    !s.Prepare? && (s.CbMove? ==> Active(s.st2))
  }

  lemma XrunAgrees(cfg: Config, w: World, s: Step)
    requires Enabled(cfg, w, s) && cfg.playback && Sees(s)
    requires w.p.xrun <==> Silence in w.sink
    ensures Apply(cfg, w, s).p.xrun <==> Silence in Apply(cfg, w, s).sink
  {
    hide Apply, Enabled;
    XrunStep(cfg, w, s);
    if s.CbMove? {
      SilenceReportsXrun(cfg, w, s);
      var a, b := w.sink, Apply(cfg, w, s).sink;
      assert b == a + b[|a|..];
    }
  }

  lemma XrunShown(cfg: Config, w: World, s: Step)
    requires Enabled(cfg, w, s) && cfg.playback
    requires w.p.xrun ==> Silence in w.sink
    ensures Apply(cfg, w, s).p.xrun ==> Silence in Apply(cfg, w, s).sink
  {
    hide Apply, Enabled;
    XrunStep(cfg, w, s);
    if s.CbMove? {
      SilenceReportsXrun(cfg, w, s);
      var a, b := w.sink, Apply(cfg, w, s).sink;
      assert b == a + b[|a|..];
    }
  }

  /** In every run of playback a set xrun flag has silence in the output since
      prepare to show for it. */
  lemma {:induction false} XrunMeansSilence(cfg: Config, ws: seq<World>, ss: seq<Step>, n: nat)
    requires IsRun(cfg, ws, ss) && n <= |ss| && cfg.playback
    ensures ws[n].p.xrun ==> Silence in ws[n].sink
  {
    hide Apply, Enabled;
    if n > 0 {
      XrunMeansSilence(cfg, ws, ss, n - 1);
      XrunShown(cfg, ws[n - 1], ss[n - 1]);
    }
  }

  /** From a prepare (or the start), as long as every cycle finds io->state active
      after its copy, the xrun flag is set exactly if there is silence in the
      output. */
  lemma {:induction false} XrunIffSilence(cfg: Config, ws: seq<World>, ss: seq<Step>, m: nat, n: nat)
    requires IsRun(cfg, ws, ss) && m <= n <= |ss| && cfg.playback
    requires ws[m].sink == [] && !ws[m].p.xrun
    requires forall i :: m <= i < n ==> Sees(ss[i])
    ensures ws[n].p.xrun <==> Silence in ws[n].sink
    decreases n
  {
    hide Apply, Enabled, Sees, Init, ValidConfig;
    if m < n {
      XrunIffSilence(cfg, ws, ss, m, n - 1);
      XrunAgrees(cfg, ws[n - 1], ss[n - 1]);
    }
  }

  /** What the transfer leaves in the fields and in the callback. */
  lemma MoveFields(cfg: Config, w: World, x: Transfer)
    requires CanMove(cfg, w, x)
    ensures var w' := Move(cfg, w, x);
            && w'.p == Transferred(cfg, w, x)
            && w'.cb == Moved(w.cb.avail - Copied(w.st, x.clipped, w.cb.avail))
            && |w'.ring| == |w.ring| && w'.st == w.st
  {
    hide Transferred, Copied, RingFrames, PlayedFrames, Cell;
  }

  /** A cycle that moved fewer frames than it was to, and found io->state active
      afterwards. */
  ghost predicate Short(cfg: Config, w: World, s: Step) {
    && s.CbMove? && w.cb.Loaded? && cfg.stride > 0 && Active(s.st2)
    && var x := Asked(cfg, s, w.cb.avail);
       Copied(w.st, x.clipped, w.cb.avail) < x.clipped
  }

  lemma XrunIsShort(cfg: Config, w: World, s: Step)
    requires Enabled(cfg, w, s) && !s.Prepare?
    ensures Apply(cfg, w, s).p.xrun <==> w.p.xrun || Short(cfg, w, s)
  {
    hide Cell, Clip, Move, RingFrames, AdvanceHw, Surplus, Copied, ApplyCallback, ApplyControl;
    if s.CbMove? {
      MoveFields(cfg, w, Asked(cfg, s, w.cb.avail));
    } else if !OfData(s) {
      QuietStep(cfg, w, s);
    }
  }

  /** From a state without xrun and without a prepare since, in playback and in
      capture: the flag is set exactly if some cycle came up short. */
  lemma {:induction false} XrunIffShort(cfg: Config, ws: seq<World>, ss: seq<Step>, m: nat, n: nat)
    requires IsRun(cfg, ws, ss) && m <= n <= |ss|
    requires !ws[m].p.xrun && forall i :: m <= i < n ==> !ss[i].Prepare?
    ensures ws[n].p.xrun <==> exists i :: m <= i < n && Short(cfg, ws[i], ss[i])
    decreases n
  {
    hide Apply, Enabled, Init, ValidConfig, Short;
    if m < n {
      XrunIffShort(cfg, ws, ss, m, n - 1);
      XrunIsShort(cfg, ws[n - 1], ss[n - 1]);
    }
  }

  /** Once set, the flag stays set until prepare. */
  lemma {:induction false} XrunSticks(cfg: Config, ws: seq<World>, ss: seq<Step>, m: nat, n: nat)
    requires IsRun(cfg, ws, ss) && m <= n <= |ss|
    requires ws[m].p.xrun && forall i :: m <= i < n ==> !ss[i].Prepare?
    ensures ws[n].p.xrun
    decreases n
  {
    hide Apply, Enabled, Init, ValidConfig;
    if m < n {
      XrunSticks(cfg, ws, ss, m, n - 1);
      XrunIsShort(cfg, ws[n - 1], ss[n - 1]);
    }
  }

  // ---------------------------------------------------------------------
  // Carry-over accounting

  ghost predicate CarryInv(cfg: Config, w: World) {
    if cfg.playback then w.p.transferred == w.carry.carried + w.carry.moved
    else w.p.transferred == 0 && w.p.buffered == 0
  }

  lemma CarryStep(cfg: Config, w: World, s: Step)
    requires Enabled(cfg, w, s) && CarryInv(cfg, w)
    ensures CarryInv(cfg, Apply(cfg, w, s))
  {
    hide Cell, Clip, RingFrames, RingStore, PlayedFrames, Sounds, AdvanceHw, Copied, ApplyCallback, ApplyControl;
    if !OfData(s) { QuietStep(cfg, w, s); }
  }

  lemma {:induction false} CarryAccounts(cfg: Config, ws: seq<World>, ss: seq<Step>, n: nat)
    requires IsRun(cfg, ws, ss) && n <= |ss|
    ensures CarryInv(cfg, ws[n])
  {
    hide Apply, Enabled;
    if n > 0 {
      hide CarryInv;
      CarryAccounts(cfg, ws, ss, n - 1);
      CarryStep(cfg, ws[n - 1], ss[n - 1]);
    }
  }

  /** Every cycle of the run asked for at most `q` frames. */
  ghost predicate WantsAtMost(ws: seq<World>, ss: seq<Step>, q: nat)
    requires |ws| == |ss| + 1
  {
    forall i :: 0 <= i < |ss| && ss[i].CbMove? && ws[i].cb.Loaded? ==> Want(ss[i], ws[i].cb.avail) <= q
  }

  ghost predicate CarryBound(w: World, q: nat) {
    w.p.buffered < q && w.carry.carried < q && w.carry.moved <= w.carry.calls * q
  }

  lemma CarryBoundMove(cfg: Config, w: World, x: Transfer, q: nat)
    requires CanMove(cfg, w, x)
    requires q > 0 && CarryBound(w, q) && x.clipped <= x.want <= q
    ensures CarryBound(Move(cfg, w, x), q)
  {
    hide Cell, Surplus, RingStore, PlayedFrames, AdvanceHw, Copied;
    var w' := Move(cfg, w, x);
    SurplusBelow(w'.p.transferred, x.want);
    NextMultiple(w'.carry.calls - 1, q);
  }

  lemma NextMultiple(k: nat, q: nat)
    ensures (k + 1) * q == k * q + q
  {
  }

  lemma CarryBoundStep(cfg: Config, w: World, s: Step, q: nat)
    requires Enabled(cfg, w, s) && q > 0 && CarryBound(w, q)
    requires s.CbMove? ==> Want(s, w.cb.avail) <= q
    ensures CarryBound(Apply(cfg, w, s), q)
  {
    hide Cell, Clip, Move, RingFrames, Sounds, ApplyCallback, ApplyControl;
    if !OfData(s) { QuietStep(cfg, w, s); }
    if s.CbMove? {
      hide CarryBound;
      var want := Want(s, w.cb.avail);
      ClipIsGreatest(cfg, want, s.blocks, Clip(cfg, want, s.blocks));
      CarryBoundMove(cfg, w, Asked(cfg, s, w.cb.avail), q);
    }
  }

  lemma {:induction false} CarryBoundRun(cfg: Config, ws: seq<World>, ss: seq<Step>, q: nat, n: nat)
    requires IsRun(cfg, ws, ss) && n <= |ss| && q > 0 && WantsAtMost(ws, ss, q)
    ensures CarryBound(ws[n], q)
  {
    if n > 0 {
      CarryBoundRun(cfg, ws, ss, q, n - 1);
      assert ss[n - 1].CbMove? ==> ws[n - 1].cb.Loaded?;
      hide Apply, Enabled, CarryBound, Want;
      CarryBoundStep(cfg, ws[n - 1], ss[n - 1], q);
    }
  }

  /** With `m` calls in the current clock cycle, `transferred < (m + 1) * q`. */
  lemma TransferredBounded(cfg: Config, ws: seq<World>, ss: seq<Step>, q: nat, n: nat)
    requires IsRun(cfg, ws, ss) && n <= |ss| && q > 0 && WantsAtMost(ws, ss, q)
    ensures ws[n].p.transferred < (ws[n].carry.calls + 1) * q
  {
    CarryBoundRun(cfg, ws, ss, q, n);
    CarryAccounts(cfg, ws, ss, n);
    assert (ws[n].carry.calls + 1) * q == ws[n].carry.calls * q + q;
  }

  // ---------------------------------------------------------------------
  // A callback nobody interrupts is the sequential one

  /** The callback's steps after its transfer, with nothing between them. */
  ghost function FinishCallback(cfg: Config, w: World): World
    requires |w.ring| == cfg.bufferSize && cfg.bufferSize > 0 && cfg.stride > 0 && w.cb.Moved?
  {
    var w1 := Apply(cfg, w, CbFinish);
    if w1.cb.Flushed? then Apply(cfg, Apply(cfg, w1, CbMark), CbClear)
    else if w1.cb.Ended? then Apply(cfg, w1, CbEnd)
    else w1
  }

  /** The stores at the end of a callback: what each makes of the fields. */
  lemma StoreSteps(cfg: Config, w: World, s: Step)
    requires Enabled(cfg, w, s) && (s.CbMark? || s.CbClear? || s.CbEnd?)
    ensures var w' := Apply(cfg, w, s);
            && |w'.ring| == |w.ring|
            && (s.CbMark? ==> w'.cb.Marked? && w'.p == w.p.(draining := true))
            && (s.CbClear? ==> w'.cb.Idle? && w'.p == w.p.(drained := false))
            && (s.CbEnd? ==> w'.cb.Idle? && w'.p == w.p.(draining := false))
  {
  }

  lemma FinishStep(cfg: Config, w: World)
    requires Enabled(cfg, w, CbFinish)
    ensures var w', ends := Apply(cfg, w, CbFinish), w.st == Draining && !w.p.draining && w.cb.left == 0;
            && |w'.ring| == |w.ring|
            && w'.cb == (if !ends then Idle else if cfg.playback then Flushed else Ended)
            && w'.p == (if ends && !cfg.playback then w.p.(drained := true) else w.p)
  {
    hide Clip, ApplyData, ApplyControl;
  }

  lemma FinishIsDrainTest(cfg: Config, w: World)
    requires |w.ring| == cfg.bufferSize && cfg.bufferSize > 0 && cfg.stride > 0 && w.cb.Moved?
    ensures FinishCallback(cfg, w).cb.Idle?
    ensures FinishCallback(cfg, w).p == DrainTest(cfg, w.p, w.st, w.cb.left)
  {
    hide Apply;
    FinishStep(cfg, w);
    var w1 := Apply(cfg, w, CbFinish);
    if w1.cb.Flushed? {
      StoreSteps(cfg, w1, CbMark);
      StoreSteps(cfg, Apply(cfg, w1, CbMark), CbClear);
    } else if w1.cb.Ended? {
      StoreSteps(cfg, w1, CbEnd);
    }
  }

  /** The callback calls pw_stream_flush in the sequential code exactly if its step
      does in a run. */
  lemma FlushesAgree(cfg: Config, w: World)
    requires Enabled(cfg, w, CbFinish)
    ensures Flushes(cfg, w.p, w.st, w.cb.left) <==> Apply(cfg, w, CbFinish).cb.Flushed?
  {
    hide Asked;
  }

  /** A callback whose steps nothing separates does to the fields what
      on_stream_process does as sequential code. */
  lemma CallbackIsSequential(cfg: Config, w: World, s: Step)
    requires Enabled(cfg, w, CbLoad) && !w.p.drained
    requires s.CbMove? && Enabled(cfg, Apply(cfg, Apply(cfg, w, CbLoad), CbTest(true)), s)
    ensures var w1 := Apply(cfg, Apply(cfg, w, CbLoad), CbTest(true));
            var w2 := Apply(cfg, w1, s);
            var avail := HwAvail(cfg, w);
            var x := Asked(cfg, s, avail);
            var mid := Section(cfg, w.p, w.st, x.st2, avail, x.want, x.clipped, x.delay, x.now);
            && |w2.ring| == cfg.bufferSize && w2.cb.Moved?
            && FinishCallback(cfg, w2).cb.Idle?
            && FinishCallback(cfg, w2).p == DrainTest(cfg, mid, w.st, avail - Copied(w.st, x.clipped, avail))
  {
    hide Asked, Move, Section, Copied, DrainTest, FinishCallback;
    var w1 := Apply(cfg, Apply(cfg, w, CbLoad), CbTest(true));
    MoveFields(cfg, w1, Asked(cfg, s, w1.cb.avail));
    FinishIsDrainTest(cfg, Apply(cfg, w1, s));
  }
}
