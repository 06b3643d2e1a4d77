/** Drain safety over every run of `PcmRuns`: what the drained and draining
    flags, the flushes, their answers and the return of drain() say about the
    frames. */
module PcmDrain {
  import opened Common
  import opened Pcm
  import opened PcmRuns

  // ---------------------------------------------------------------------
  // The steps that leave the flags, the handlers, the stream and its history alone

  predicate Inert(s: Step) {
    s.AppPoke? || s.AppCommit? || s.CbMove? || s.SetState? || s.DrainReturn? || s.Fail?
  }

  predicate SameDrain(w: World, w': World) {
    && w'.p.drained == w.p.drained && w'.p.draining == w.p.draining
    && w'.loop == w.loop && w'.stream == w.stream && w'.h == w.h && w'.activated == w.activated
    && (w'.cb == w.cb || (w.cb.Loaded? && w'.cb.Moved?))
  }

  lemma InertStep(cfg: Config, w: World, s: Step)
    requires Enabled(cfg, w, s) && Inert(s)
    ensures SameDrain(w, Apply(cfg, w, s))
  {
    hide Asked, RingFrames, Move, ApplyCallback;
    if s.CbMove? { InertMove(cfg, w, Asked(cfg, s, w.cb.avail)); }
  }

  lemma InertMove(cfg: Config, w: World, x: Transfer)
    requires CanMove(cfg, w, x)
    ensures SameDrain(w, Move(cfg, w, x)) && Move(cfg, w, x).window == w.window
  {
    hide Copied, RingFrames, PlayedFrames, RingStore, AdvanceHw, Surplus;
  }

  // ---------------------------------------------------------------------
  // The flags and the stream

  function Bit(b: bool): nat {
    if b then 1 else 0
  }

  predicate BeforeFlush(cb: Callback) {
    cb.Loading? || cb.Loaded? || cb.Moved?
  }

  /** The stream starts no callback while it drains, and drains only between
      callbacks: so an event that meets a callback was posted before it began. */
  predicate StreamInv(w: World) {
    && (BeforeFlush(w.cb) ==> !w.stream.draining && !w.stream.drained && (w.h.clearInCb <==> !w.p.draining))
    && (w.cb.Flushed? || w.cb.Marked? ==> w.stream.draining)
    && !(w.stream.draining && w.stream.drained)
    && (w.cb.Flushed? ==> !w.p.draining)
    && !w.cb.Ended?
    && (w.stream.posted && !w.cb.Idle? ==> w.h.crossed)
    && (w.loop.Answering? ==> w.stream.posted)
    && (w.p.drained && !w.cb.Idle? && !w.cb.Loading? ==> w.h.crossed)
    && (w.p.drained && w.p.draining ==> w.loop.Answering? || (w.cb.Marked? && w.h.crossed))
  }

  /** Flushes of this session, and their records. */
  predicate FlushInv(w: World) {
    && w.h.flushes + Bit(!w.stream.draining && !w.stream.drained) <= 1 + w.h.restarts
    && ((w.p.drained || Due(w)) && !w.h.stale ==> w.h.record.Some?)
  }

  /** Capture never drains the stream. */
  predicate CaptureInv(w: World) {
    !w.p.draining && !w.cb.Flushed? && !w.cb.Marked? && w.loop != Answering && !Due(w)
  }

  predicate DrainInv(cfg: Config, w: World) {
    if cfg.playback then StreamInv(w) && FlushInv(w) else CaptureInv(w)
  }

  lemma DrainInert(cfg: Config, w: World, s: Step)
    requires Enabled(cfg, w, s) && DrainInv(cfg, w) && Inert(s)
    ensures DrainInv(cfg, Apply(cfg, w, s))
  {
    hide Apply;
    InertStep(cfg, w, s);
  }

  lemma DrainCallback(cfg: Config, w: World, s: Step)
    requires Enabled(cfg, w, s) && DrainInv(cfg, w) && OfCallback(s)
    ensures DrainInv(cfg, Apply(cfg, w, s))
  {
    hide ApplyData, ApplyControl, HwAvail;
  }

  lemma DrainControl(cfg: Config, w: World, s: Step)
    requires Enabled(cfg, w, s) && DrainInv(cfg, w) && !OfCallback(s) && !Inert(s)
    ensures DrainInv(cfg, Apply(cfg, w, s))
  {
    hide Move, Commit, ApplyCallback;
  }

  lemma DrainStep(cfg: Config, w: World, s: Step)
    requires Enabled(cfg, w, s) && DrainInv(cfg, w)
    ensures DrainInv(cfg, Apply(cfg, w, s))
  {
    hide Apply, Enabled, DrainInv;
    if Inert(s) {
      DrainInert(cfg, w, s);
    } else if OfCallback(s) {
      DrainCallback(cfg, w, s);
    } else {
      DrainControl(cfg, w, s);
    }
  }

  lemma {:induction false} DrainRun(cfg: Config, ws: seq<World>, ss: seq<Step>, n: nat)
    requires IsRun(cfg, ws, ss) && n <= |ss|
    ensures DrainInv(cfg, ws[n])
  {
    hide Apply, Enabled;
    if n > 0 {
      hide DrainInv;
      DrainRun(cfg, ws, ss, n - 1);
      DrainStep(cfg, ws[n - 1], ss[n - 1]);
    }
  }

  /** `draining` and `drained` are both set only between the two stores of a
      drained event, never in capture; or between the two stores of a flush, if
      an event was already posted when that callback began. */
  lemma FlagsBothSet(cfg: Config, ws: seq<World>, ss: seq<Step>, n: nat)
    requires IsRun(cfg, ws, ss) && n <= |ss|
    ensures ws[n].p.draining && ws[n].p.drained ==>
              && cfg.playback
              && (ws[n].loop.Answering? || (ws[n].cb.Marked? && ws[n].h.crossed))
  {
    DrainRun(cfg, ws, ss, n);
  }

  /** At most one flush from one drain or prepare to the next, and one more for
      each re-activation in between that cut a drain of the stream short. */
  lemma FlushesPerDrain(cfg: Config, ws: seq<World>, ss: seq<Step>, n: nat)
    requires IsRun(cfg, ws, ss) && n <= |ss| && cfg.playback
    ensures ws[n].h.flushes <= 1 + ws[n].h.restarts
  {
    DrainRun(cfg, ws, ss, n);
  }

  /** A callback flushes exactly if it ends in DRAINING with nothing left and
      `draining` was clear when it began, or was cleared while it ran. It is the
      first flush of its session unless a re-activation cut one short in it. */
  lemma FlushIff(cfg: Config, ws: seq<World>, ss: seq<Step>, n: nat)
    requires IsRun(cfg, ws, ss) && n < |ss| && cfg.playback && ss[n].CbFinish?
    ensures ws[n].cb.Moved?
    ensures ws[n + 1].h.flushes == ws[n].h.flushes + 1
            <==> ws[n].st == Draining && ws[n].cb.left == 0 && ws[n].h.clearInCb
    ensures ws[n + 1].h.flushes > ws[n].h.flushes ==> ws[n].h.flushes == 0 || ws[n].h.restarts >= 1
  {
    DrainRun(cfg, ws, ss, n);
    FinishFlushes(cfg, ws[n]);
  }

  lemma FinishFlushes(cfg: Config, w: World)
    requires Enabled(cfg, w, CbFinish) && cfg.playback
    ensures Apply(cfg, w, CbFinish).h.flushes
            == w.h.flushes + Bit(w.st == Draining && !w.p.draining && w.cb.left == 0)
  {
  }

  /** A capture callback ends the drain itself: exactly if it ends in DRAINING with
      no room left, and as soon as it does, `drained` is set. */
  lemma CaptureDrainedIff(cfg: Config, ws: seq<World>, ss: seq<Step>, n: nat)
    requires IsRun(cfg, ws, ss) && n < |ss| && !cfg.playback && ss[n].CbFinish?
    ensures ws[n].cb.Moved?
    ensures ws[n + 1].p.drained <==> ws[n].p.drained || (ws[n].st == Draining && ws[n].cb.left == 0)
    ensures ws[n + 1].h.flushes == ws[n].h.flushes
  {
    DrainRun(cfg, ws, ss, n);
    assert Enabled(cfg, ws[n], ss[n]) && ws[n + 1] == Apply(cfg, ws[n], ss[n]);
  }

  // ---------------------------------------------------------------------
  // No answer is lost

  /** Callbacks wait for an answer that nothing will give. */
  predicate Lost(w: World) {
    w.p.draining && !w.p.drained && !Due(w)
  }

  /** start, stop, or the start inside drain(), when they change something. */
  predicate Reactivates(w: World, s: Step) {
    (s.Activate? && s.on != w.activated) || (s.DrainEntered? && !w.activated)
  }

  /** The stream is re-activated between a flush and the cycle that answers it. */
  predicate CutsOff(w: World, s: Step) {
    Reactivates(w, s) && w.p.draining && !w.p.drained && !w.stream.posted
  }

  lemma LostOtherwise(cfg: Config, w: World, s: Step)
    requires Enabled(cfg, w, s) && cfg.playback && StreamInv(w) && !Inert(s)
    ensures !Lost(w) ==> (Lost(Apply(cfg, w, s)) <==> CutsOff(w, s))
  {
    hide Move, Commit, HwAvail;
  }

  lemma LostStep(cfg: Config, w: World, s: Step)
    requires Enabled(cfg, w, s) && cfg.playback && StreamInv(w)
    ensures !Lost(w) ==> (Lost(Apply(cfg, w, s)) <==> CutsOff(w, s))
  {
    hide Apply, Enabled, StreamInv;
    if Inert(s) { InertStep(cfg, w, s); } else { LostOtherwise(cfg, w, s); }
  }

  /** In every run, the step that loses an answer is exactly one that
      re-activates the stream between a flush and the cycle that answers it: a
      stop or a start, or the start that drain() itself makes. */
  lemma AnswerLostIff(cfg: Config, ws: seq<World>, ss: seq<Step>, n: nat)
    requires IsRun(cfg, ws, ss) && n < |ss| && cfg.playback && !Lost(ws[n])
    ensures Lost(ws[n + 1]) <==> CutsOff(ws[n], ss[n])
  {
    hide Apply, Enabled, StreamInv, Lost;
    DrainRun(cfg, ws, ss, n);
    LostStep(cfg, ws[n], ss[n]);
  }

  /** So without such a step no answer is ever lost. */
  lemma {:induction false} NoAnswerLost(cfg: Config, ws: seq<World>, ss: seq<Step>, n: nat)
    requires IsRun(cfg, ws, ss) && n <= |ss| && cfg.playback
    requires forall i :: 0 <= i < n ==> !CutsOff(ws[i], ss[i])
    ensures !Lost(ws[n])
  {
    hide Apply, Enabled, CutsOff;
    if n > 0 {
      hide Lost;
      NoAnswerLost(cfg, ws, ss, n - 1);
      AnswerLostIff(cfg, ws, ss, n - 1);
    }
  }

  lemma LostControl(cfg: Config, w: World, s: Step)
    requires Enabled(cfg, w, s) && cfg.playback && StreamInv(w) && Lost(w) && !Inert(s)
    requires !s.Prepare? && !s.DrainCleared?
    ensures Lost(Apply(cfg, w, s))
  {
    hide Move, Commit, HwAvail;
  }

  /** A lost answer stays lost until the next prepare or drain(), and meanwhile
      drain() returns only on an error or from a stopped stream. */
  lemma {:induction false} LostStays(cfg: Config, ws: seq<World>, ss: seq<Step>, m: nat, n: nat)
    requires IsRun(cfg, ws, ss) && m <= n <= |ss| && cfg.playback && Lost(ws[m])
    requires forall i :: m <= i < n ==> !ss[i].Prepare? && !ss[i].DrainCleared?
    ensures Lost(ws[n])
    ensures n < |ss| && ss[n].DrainReturn? ==> ws[n].error < 0 || !ws[n].activated
    decreases n
  {
    hide Apply, Init, ValidConfig;
    if m < n {
      hide StreamInv, Enabled;
      LostStays(cfg, ws, ss, m, n - 1);
      DrainRun(cfg, ws, ss, n - 1);
      if Inert(ss[n - 1]) { InertStep(cfg, ws[n - 1], ss[n - 1]); } else { LostControl(cfg, ws[n - 1], ss[n - 1]); }
    }
    if n < |ss| { assert Enabled(cfg, ws[n], ss[n]); }
  }

  // ---------------------------------------------------------------------
  // What a flush accounts for

  predicate RecordInv(w: World) {
    w.h.record.Some? ==>
      var r := w.h.record.value;
      r.consumed + r.window == r.committed && r.consumed <= w.exited && r.committed <= |w.entered|
  }

  lemma MoveGrows(cfg: Config, w: World, x: Transfer)
    requires CanMove(cfg, w, x)
    ensures var w' := Move(cfg, w, x);
            && w.exited <= w'.exited && |w.entered| <= |w'.entered|
            && (cfg.playback ==> w'.entered == w.entered)
  {
    hide Transferred, Copied, PlayedFrames, RingStore;
  }

  lemma Grows(cfg: Config, w: World, s: Step)
    requires Enabled(cfg, w, s) && !s.Prepare?
    ensures var w' := Apply(cfg, w, s);
            && w.exited <= w'.exited && |w.entered| <= |w'.entered|
            && (cfg.playback && !s.AppCommit? ==> w'.entered == w.entered)
  {
    hide Asked, Move, RingFrames, Sounds, ApplyCallback, ApplyControl;
    if s.CbMove? {
      MoveGrows(cfg, w, Asked(cfg, s, w.cb.avail));
    } else if !OfData(s) {
      QuietStep(cfg, w, s);
    }
  }

  lemma Records(cfg: Config, w: World, s: Step)
    requires Enabled(cfg, w, s) && !s.Prepare? && !Inert(s)
    ensures var w' := Apply(cfg, w, s);
            if s.CbFinish? && w'.cb.Flushed? then
              w.cb.Moved? && w.cb.left == 0 && w'.h.record == Some(FlushRecord(|w.entered|, w.exited, w.window))
            else w'.h.record == w.h.record
  {
    hide Move, Commit, HwAvail;
  }

  lemma RecordStep(cfg: Config, w: World, s: Step)
    requires Enabled(cfg, w, s) && cfg.playback && RecordInv(w) && AvailInv(cfg, w)
    ensures RecordInv(Apply(cfg, w, s))
  {
    if s.Prepare? {
      hide Move, Commit;
    } else {
      hide Apply;
      Grows(cfg, w, s);
      if Inert(s) { InertStep(cfg, w, s); } else { Records(cfg, w, s); }
    }
  }

  lemma {:induction false} RecordRun(cfg: Config, ws: seq<World>, ss: seq<Step>, n: nat)
    requires IsRun(cfg, ws, ss) && n <= |ss| && cfg.playback
    ensures RecordInv(ws[n])
  {
    hide Apply, Enabled;
    if n > 0 {
      hide RecordInv, AvailInv;
      RecordRun(cfg, ws, ss, n - 1);
      DataRun(cfg, ws, ss, n - 1);
      RecordStep(cfg, ws[n - 1], ss[n - 1]);
    }
  }

  /** Whenever playback is drained there was a flush since prepare, unless the
      prepare found an answer due; and the last flush accounts for the frames:
      those consumed by then are in the output in order, and those it missed are
      exactly the ones committed after its cycle loaded hw_avail. */
  lemma DrainedMeansConsumed(cfg: Config, ws: seq<World>, ss: seq<Step>, n: nat)
    requires IsRun(cfg, ws, ss) && n <= |ss| && cfg.playback && ws[n].p.drained
    ensures ws[n].h.record.Some? || ws[n].h.stale
    ensures ws[n].h.record.Some? ==>
              var r := ws[n].h.record.value;
              && r.consumed + r.window == r.committed <= |ws[n].entered|
              && ws[n].entered[..r.consumed] <= Heard(ws[n].sink)
  {
    DrainRun(cfg, ws, ss, n);
    RecordRun(cfg, ws, ss, n);
    DataRun(cfg, ws, ss, n);
  }

  // ---------------------------------------------------------------------
  // A drain consumes everything, or exactly when it may not

  /** A callback that can still come to its drain test with nothing left: a
      playback cycle moves at most min_avail frames. */
  predicate Risky(cfg: Config, cb: Callback) {
    ((cb.Loading? || cb.Loaded?) && cb.avail <= cfg.minAvail) || cb == Moved(0)
  }

  /** Such a callback loaded hw_avail before the last commit. */
  predicate Late(cfg: Config, w: World) {
    Risky(cfg, w.cb) && w.window > 0
  }

  /** drain() called now may return with frames left: there are frames in the
      ring, and an answer is due or a callback is late. */
  predicate Vulnerable(cfg: Config, w: World) {
    Held(w) > 0 && (Due(w) || Late(cfg, w))
  }

  /** Nothing due and no callback late. */
  predicate Quiescent(cfg: Config, w: World) {
    !Due(w) && !w.p.drained && !w.cb.Flushed? && !w.cb.Marked? && !Late(cfg, w)
  }

  predicate Safe(cfg: Config, w: World, total: nat) {
    |w.entered| == total && (w.exited == total || Quiescent(cfg, w))
  }

  /** A step of the drain itself, or one that is no concern of the application. */
  predicate WithinDrain(s: Step) {
    !s.AppCommit? && !s.Prepare? && !s.DrainEnter?
  }

  lemma ClippedToMinAvail(cfg: Config, want: nat, blocks: seq<Block>)
    requires cfg.playback && cfg.stride > 0 && blocks != []
    ensures Clip(cfg, want, blocks) <= cfg.minAvail
  {
    var c := Clip(cfg, want, blocks);
    ClipIsGreatest(cfg, want, blocks, c);
    assert c * cfg.stride <= Usable(cfg, blocks[0]);
    if c > cfg.minAvail { Scaled(cfg.minAvail, c, cfg.stride); }
  }

  lemma Scaled(a: nat, b: nat, k: nat)
    requires a < b && k > 0
    ensures a * k < b * k
  {
  }

  lemma MoveStaysQuiescent(cfg: Config, w: World, s: Step)
    requires Enabled(cfg, w, s) && cfg.playback && s.CbMove? && Quiescent(cfg, w)
    ensures Quiescent(cfg, Apply(cfg, w, s))
  {
    hide Clip, Move;
    var x := Asked(cfg, s, w.cb.avail);
    ClippedToMinAvail(cfg, x.want, s.blocks);
    InertMove(cfg, w, x);
    MoveFields(cfg, w, x);
  }

  /** Within a drain a quiescent state stays so, unless a callback flushes with
      nothing left that it knows of. */
  lemma QuiescentStep(cfg: Config, w: World, s: Step)
    requires Enabled(cfg, w, s) && cfg.playback && WithinDrain(s) && Quiescent(cfg, w) && !w.cb.Ended?
    ensures Quiescent(cfg, Apply(cfg, w, s)) || (s.CbFinish? && w.cb == Moved(0) && w.window == 0)
  {
    if s.CbMove? {
      hide Apply, Enabled, Quiescent;
      MoveStaysQuiescent(cfg, w, s);
    } else {
      hide Move, HwAvail;
    }
  }

  lemma SafeStep(cfg: Config, w: World, s: Step, total: nat)
    requires Enabled(cfg, w, s) && cfg.playback && WithinDrain(s)
    requires AvailInv(cfg, w) && !w.cb.Ended? && 0 <= Held(Apply(cfg, w, s))
    requires Safe(cfg, w, total)
    ensures Safe(cfg, Apply(cfg, w, s), total)
  {
    hide Apply, Enabled, Quiescent;
    Grows(cfg, w, s);
    if w.exited != total { QuiescentStep(cfg, w, s); }
  }

  lemma RunFacts(cfg: Config, ws: seq<World>, ss: seq<Step>, n: nat)
    requires IsRun(cfg, ws, ss) && n <= |ss| && cfg.playback
    ensures 0 <= Held(ws[n]) && AvailInv(cfg, ws[n]) && StreamInv(ws[n])
  {
    hide Apply, Enabled, StreamInv, AvailInv;
    DataRun(cfg, ws, ss, n);
    DrainRun(cfg, ws, ss, n);
  }

  lemma {:induction false} SafeRun(cfg: Config, ws: seq<World>, ss: seq<Step>, m: nat, n: nat, total: nat)
    requires IsRun(cfg, ws, ss) && m <= n <= |ss| && cfg.playback && Safe(cfg, ws[m], total)
    requires forall i :: m <= i < n ==> WithinDrain(ss[i])
    ensures Safe(cfg, ws[n], total)
    decreases n
  {
    hide Apply, Enabled, Init, ValidConfig, Safe, AvailInv, WithinDrain, Held;
    if m < n {
      SafeRun(cfg, ws, ss, m, n - 1, total);
      RunFacts(cfg, ws, ss, n - 1);
      RunFacts(cfg, ws, ss, n);
      SafeStep(cfg, ws[n - 1], ss[n - 1], total);
    }
  }

  lemma EnterIsSafe(cfg: Config, w: World)
    requires Enabled(cfg, w, DrainEnter) && StreamInv(w) && 0 <= Held(w) && !Vulnerable(cfg, w)
    ensures Safe(cfg, Apply(cfg, w, DrainEnter), |w.entered|)
  {
    hide ApplyData, ApplyCallback;
  }

  /** A drain begun when not vulnerable, with nothing committed during it:
      whenever it is drained, exactly the frames committed before it were
      consumed, and all of them are in the output, in order. */
  lemma DrainConsumesAll(cfg: Config, ws: seq<World>, ss: seq<Step>, m: nat, n: nat)
    requires IsRun(cfg, ws, ss) && m < n <= |ss| && cfg.playback
    requires ss[m].DrainEnter? && !Vulnerable(cfg, ws[m])
    requires forall i :: m < i < n ==> WithinDrain(ss[i])
    requires ws[n].p.drained
    ensures ws[n].exited == |ws[n].entered| == |ws[m].entered|
    ensures Heard(ws[n].sink) == ws[n].entered
  {
    hide Apply, Enabled, Vulnerable, AvailInv, StreamInv;
    RunFacts(cfg, ws, ss, m);
    DataRun(cfg, ws, ss, n);
    EnterIsSafe(cfg, ws[m]);
    SafeRun(cfg, ws, ss, m + 1, n, |ws[m].entered|);
  }

  /** So it is when drain() returns from an active stream without an error. */
  lemma DrainReturnMeansConsumed(cfg: Config, ws: seq<World>, ss: seq<Step>, m: nat, n: nat)
    requires IsRun(cfg, ws, ss) && m < n < |ss| && cfg.playback
    requires ss[m].DrainEnter? && !Vulnerable(cfg, ws[m])
    requires forall i :: m < i < n ==> WithinDrain(ss[i])
    requires ss[n].DrainReturn? && ws[n].error >= 0 && ws[n].activated
    ensures ws[n].exited == |ws[n].entered| == |ws[m].entered|
    ensures Heard(ws[n].sink) == ws[n].entered
  {
    assert Enabled(cfg, ws[n], ss[n]);
    DrainConsumesAll(cfg, ws, ss, m, n);
  }
}
