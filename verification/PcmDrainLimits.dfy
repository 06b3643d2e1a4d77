/** Where the drain theorems stop: for every state in which drain() is called,
    whether it can return with frames left; for every prepare, whether an old
    answer can reach it; and reachable states that show each exception the
    theorems make. */
module PcmDrainLimits {
  import opened Common
  import opened Pcm
  import opened PcmRuns
  import opened PcmDrain

  // ---------------------------------------------------------------------
  // What can follow a drain() or a prepare

  /** After a drain() nothing is committed or prepared and no drain() begun;
      after a prepare nothing is prepared. */
  predicate Allowed(first: Step, s: Step) {
    !s.Prepare? && (first.DrainEnter? ==> WithinDrain(s))
  }

  /** `w` is where the run can get with `first` as its next step. */
  ghost predicate Continues(cfg: Config, ws: seq<World>, ss: seq<Step>, first: Step, w: World) {
    exists ws', ss' :: IsContinuation(cfg, ws, ss, first, ws', ss') && w == ws'[|ss'|]
  }

  ghost predicate IsContinuation(cfg: Config, ws: seq<World>, ss: seq<Step>, first: Step,
                                 ws': seq<World>, ss': seq<Step>)
  {
    && IsRun(cfg, ws', ss')
    && ws <= ws' && ss < ss' && |ws| == |ss| + 1
    && ss'[|ss|] == first
    && forall i :: |ss| < i < |ss'| ==> Allowed(first, ss'[i])
  }

  lemma GoOn(cfg: Config, ws: seq<World>, ss: seq<Step>, first: Step, w: World, s: Step)
    requires Continues(cfg, ws, ss, first, w) && Enabled(cfg, w, s) && Allowed(first, s)
    ensures Continues(cfg, ws, ss, first, Apply(cfg, w, s))
  {
    hide Apply, Enabled, Init, Allowed;
    var ws', ss' :| IsContinuation(cfg, ws, ss, first, ws', ss') && w == ws'[|ss'|];
    var ws2, ss2 := ws' + [Apply(cfg, w, s)], ss' + [s];
    assert ss2[|ss|] == ss'[|ss|];
    assert IsContinuation(cfg, ws, ss, first, ws2, ss2) && Apply(cfg, w, s) == ws2[|ss2|];
  }

  lemma Begin(cfg: Config, ws: seq<World>, ss: seq<Step>, first: Step)
    requires IsRun(cfg, ws, ss) && Enabled(cfg, ws[|ss|], first)
    ensures Continues(cfg, ws, ss, first, Apply(cfg, ws[|ss|], first))
  {
    hide Apply, Enabled, Init;
    var w := Apply(cfg, ws[|ss|], first);
    var ws2, ss2 := ws + [w], ss + [first];
    assert IsContinuation(cfg, ws, ss, first, ws2, ss2) && w == ws2[|ss2|];
  }

  /** A step, with what it is known to do. */
  lemma Take(cfg: Config, ws: seq<World>, ss: seq<Step>, first: Step, v: World, s: Step) returns (w: World)
    requires Continues(cfg, ws, ss, first, v) && Enabled(cfg, v, s) && Allowed(first, s)
    ensures Continues(cfg, ws, ss, first, w) && w == Apply(cfg, v, s)
  {
    hide Apply, Enabled, Allowed, Continues;
    GoOn(cfg, ws, ss, first, v, s);
    w := Apply(cfg, v, s);
  }

  // ---------------------------------------------------------------------
  // Whether a drain consumes everything, decided at its entry

  /** Still short of `v`'s frames, with the ring and the flags in order. */
  predicate Unfinished(cfg: Config, v: World, w: World) {
    && |w.ring| == cfg.bufferSize > 0 && cfg.stride > 0
    && w.entered == v.entered && w.exited == v.exited
    && !w.loop.Answering? && w.inDrain == v.inDrain
  }

  /** A cycle in a buffer without room. */
  const NO_ROOM: Step := CbMove(0, [Block(0, 0, 0)], [], 0, 0, Draining)

  lemma MoveNothing(cfg: Config, w: World)
    requires |w.ring| == cfg.bufferSize > 0 && cfg.stride > 0 && cfg.playback && w.cb.Loaded?
    ensures Enabled(cfg, w, NO_ROOM)
    ensures var w' := Apply(cfg, w, NO_ROOM);
            SameDrain(w, w') && w'.cb.Moved? && w'.ring == w.ring && w'.entered == w.entered && w'.exited == w.exited
            && w'.inDrain == w.inDrain
  {
    var x := Asked(cfg, NO_ROOM, w.cb.avail);
    ClipNothing(cfg, x.want);
    InertMove(cfg, w, x);
    hide Clip, Transferred, PlayedFrames;
  }

  lemma ClipNothing(cfg: Config, want: nat)
    requires cfg.playback && cfg.stride > 0
    ensures Clip(cfg, want, [Block(0, 0, 0)]) == 0
  {
    var blocks := [Block(0, 0, 0)];
    var c := Clip(cfg, want, blocks);
    ClipIsGreatest(cfg, want, blocks, c);
    assert Usable(cfg, blocks[0]) == 0;
    if c > 0 { Scaled(0, c, cfg.stride); }
  }

  /** Whatever the callback is at, it can end without moving a frame or flushing. */
  lemma EndCallback(cfg: Config, ws: seq<World>, ss: seq<Step>, v: World) returns (w: World)
    requires Continues(cfg, ws, ss, DrainEnter, v) && cfg.playback && Unfinished(cfg, v, v) && !v.cb.Ended?
    ensures Continues(cfg, ws, ss, DrainEnter, w) && Unfinished(cfg, v, w) && w.cb.Idle?
    ensures w.stream == v.stream && w.loop == v.loop && w.activated == v.activated
  {
    hide Continues, Move, Commit, HwAvail;
    w := v;
    if w.cb.Loading? {
      w := Take(cfg, ws, ss, DrainEnter, w, CbTest(false));
    }
    if w.cb.Loaded? {
      w := EndLoaded(cfg, ws, ss, w);
    }
    if w.cb.Moved? {
      w := EndMoved(cfg, ws, ss, w);
    }
    if w.cb.Flushed? {
      w := Take(cfg, ws, ss, DrainEnter, w, CbMark);
    }
    if w.cb.Marked? {
      w := Take(cfg, ws, ss, DrainEnter, w, CbClear);
    }
  }

  lemma EndLoaded(cfg: Config, ws: seq<World>, ss: seq<Step>, v: World) returns (w: World)
    requires Continues(cfg, ws, ss, DrainEnter, v) && cfg.playback && Unfinished(cfg, v, v) && v.cb.Loaded?
    ensures Continues(cfg, ws, ss, DrainEnter, w) && Unfinished(cfg, v, w) && w.cb.Moved?
    ensures w.stream == v.stream && w.loop == v.loop && w.activated == v.activated
  {
    hide Continues, Apply, Enabled;
    MoveNothing(cfg, v);
    w := Take(cfg, ws, ss, DrainEnter, v, NO_ROOM);
  }

  lemma EndMoved(cfg: Config, ws: seq<World>, ss: seq<Step>, v: World) returns (w: World)
    requires Continues(cfg, ws, ss, DrainEnter, v) && cfg.playback && Unfinished(cfg, v, v) && v.cb.Moved?
    ensures Continues(cfg, ws, ss, DrainEnter, w) && Unfinished(cfg, v, w) && w.cb.Idle?
    ensures w.stream == v.stream && w.loop == v.loop && w.activated == v.activated
  {
    hide Continues, Move, Commit, HwAvail;
    w := Take(cfg, ws, ss, DrainEnter, v, SetState(Running));
    w := Take(cfg, ws, ss, DrainEnter, w, CbFinish);
  }

  /** With an answer due and no callback, the drain comes to its end. */
  lemma Conclude(cfg: Config, ws: seq<World>, ss: seq<Step>, v: World) returns (w: World)
    requires Continues(cfg, ws, ss, DrainEnter, v) && cfg.playback && Unfinished(cfg, v, v) && v.cb.Idle? && Due(v)
    ensures Continues(cfg, ws, ss, DrainEnter, w) && w.p.drained && w.entered == v.entered && w.exited == v.exited
  {
    hide Continues, Move, Commit, HwAvail;
    w := v;
    if !w.stream.posted {
      w := Take(cfg, ws, ss, DrainEnter, w, StreamDrained);
    }
    w := WaitForIt(cfg, ws, ss, w);
    w := Take(cfg, ws, ss, DrainEnter, w, DrainedEvent);
  }

  /** drain() comes to its wait. */
  lemma WaitForIt(cfg: Config, ws: seq<World>, ss: seq<Step>, v: World) returns (w: World)
    requires Continues(cfg, ws, ss, DrainEnter, v) && Unfinished(cfg, v, v) && v.cb.Idle? && v.stream.posted
    ensures Continues(cfg, ws, ss, DrainEnter, w) && w.loop.Free? && w.stream.posted
    ensures w.ring == v.ring && w.entered == v.entered && w.exited == v.exited
  {
    hide Continues, Move, Commit, HwAvail;
    w := v;
    if w.loop.Entering? {
      w := Take(cfg, ws, ss, DrainEnter, w, DrainCleared);
    }
    if w.loop.Starting? {
      w := Take(cfg, ws, ss, DrainEnter, w, DrainEntered);
    }
  }

  /** A callback about to come to its drain test with `window` frames missed. */
  predicate AboutToFlush(cfg: Config, w: World) {
    && |w.ring| == cfg.bufferSize > 0 && cfg.stride > 0 && !w.loop.Answering?
    && !w.p.drained && !w.p.draining && Risky(cfg, w.cb) && AvailInv(cfg, w) && w.window > 0
  }

  /** drain() past its two stores. */
  lemma Enter(cfg: Config, ws: seq<World>, ss: seq<Step>, v: World) returns (w: World)
    requires Continues(cfg, ws, ss, DrainEnter, v) && cfg.playback && v.loop.Entering? && !v.p.drained
    requires |v.ring| == cfg.bufferSize > 0 && cfg.stride > 0 && AvailInv(cfg, v) && Late(cfg, v)
    ensures Continues(cfg, ws, ss, DrainEnter, w) && AboutToFlush(cfg, w)
  {
    hide Continues, Move, Commit;
    w := Take(cfg, ws, ss, DrainEnter, v, DrainCleared);
  }

  lemma Test(cfg: Config, ws: seq<World>, ss: seq<Step>, v: World) returns (w: World)
    requires Continues(cfg, ws, ss, DrainEnter, v) && cfg.playback && AboutToFlush(cfg, v)
    ensures Continues(cfg, ws, ss, DrainEnter, w) && AboutToFlush(cfg, w) && !w.cb.Loading? && w.st == Draining
  {
    hide Continues, Move, Commit;
    w := v;
    if v.cb.Loading? {
      w := Take(cfg, ws, ss, DrainEnter, w, CbTest(true));
    }
    w := Take(cfg, ws, ss, DrainEnter, w, SetState(Draining));
  }

  /** A cycle without a request, in a block with room for `avail` frames. */
  function AskAll(cfg: Config, avail: nat): Step {
    CbMove(0, [Block(avail * cfg.stride, 0, 0)], [], 0, 0, Draining)
  }

  lemma ClipAll(cfg: Config, avail: nat)
    requires cfg.playback && cfg.stride > 0 && avail <= cfg.minAvail
    ensures Clip(cfg, avail, [Block(avail * cfg.stride, 0, 0)]) == avail
  {
    var blocks := [Block(avail * cfg.stride, 0, 0)];
    if avail < cfg.minAvail { Scaled(avail, cfg.minAvail, cfg.stride); }
    assert Usable(cfg, blocks[0]) == avail * cfg.stride;
    assert Fits(cfg, avail, blocks);
    ClipIsGreatest(cfg, avail, blocks, avail);
    ClipIsGreatest(cfg, avail, blocks, Clip(cfg, avail, blocks));
  }

  lemma MoveAll(cfg: Config, w: World)
    requires |w.ring| == cfg.bufferSize > 0 && cfg.stride > 0 && cfg.playback && w.st == Draining
    requires w.cb.Loaded? && w.cb.avail <= cfg.minAvail
    ensures Enabled(cfg, w, AskAll(cfg, w.cb.avail))
    ensures var w' := Apply(cfg, w, AskAll(cfg, w.cb.avail));
            && SameDrain(w, w') && w'.cb == Moved(0) && w'.window == w.window && w'.st == w.st && w'.ring == w.ring
            && w'.entered == w.entered && w'.exited == w.exited + w.cb.avail
            && w'.inDrain == w.inDrain && w'.error == w.error
  {
    var x := Asked(cfg, AskAll(cfg, w.cb.avail), w.cb.avail);
    ClipAll(cfg, w.cb.avail);
    InertMove(cfg, w, x);
    hide Clip, Transferred, PlayedFrames;
  }

  lemma MoveRest(cfg: Config, ws: seq<World>, ss: seq<Step>, v: World) returns (w: World)
    requires Continues(cfg, ws, ss, DrainEnter, v) && cfg.playback && AboutToFlush(cfg, v)
    requires !v.cb.Loading? && v.st == Draining
    ensures Continues(cfg, ws, ss, DrainEnter, w) && AboutToFlush(cfg, w) && w.cb == Moved(0) && w.st == Draining
  {
    hide Continues, Apply, Enabled;
    w := v;
    if v.cb.Loaded? {
      MoveAll(cfg, v);
      w := Take(cfg, ws, ss, DrainEnter, v, AskAll(cfg, v.cb.avail));
    }
  }

  lemma FlushNow(cfg: Config, ws: seq<World>, ss: seq<Step>, v: World) returns (w: World)
    requires Continues(cfg, ws, ss, DrainEnter, v) && cfg.playback && AboutToFlush(cfg, v)
    requires v.cb == Moved(0) && v.st == Draining
    ensures Continues(cfg, ws, ss, DrainEnter, w) && Unfinished(cfg, w, w) && !w.cb.Ended? && Due(w)
    ensures w.exited < |w.entered|
  {
    hide Continues, Move, Commit;
    w := Take(cfg, ws, ss, DrainEnter, v, CbFinish);
  }

  lemma LateFlushes(cfg: Config, ws: seq<World>, ss: seq<Step>, v: World) returns (w: World)
    requires Continues(cfg, ws, ss, DrainEnter, v) && cfg.playback && v.loop.Entering? && !v.p.drained
    requires |v.ring| == cfg.bufferSize > 0 && cfg.stride > 0 && AvailInv(cfg, v) && Late(cfg, v)
    ensures Continues(cfg, ws, ss, DrainEnter, w) && Unfinished(cfg, w, w) && !w.cb.Ended? && Due(w)
    ensures w.exited < |w.entered|
  {
    hide Continues, AboutToFlush, Late, AvailInv, Due;
    w := Enter(cfg, ws, ss, v);
    w := Test(cfg, ws, ss, w);
    w := MoveRest(cfg, ws, ss, w);
    w := FlushNow(cfg, ws, ss, w);
  }

  lemma Entered(cfg: Config, ws: seq<World>, ss: seq<Step>) returns (w: World)
    requires IsRun(cfg, ws, ss) && Enabled(cfg, ws[|ss|], DrainEnter)
    ensures Continues(cfg, ws, ss, DrainEnter, w)
    ensures var v := ws[|ss|];
            && w.ring == v.ring && w.cb == v.cb && w.window == v.window && w.stream == v.stream
            && w.entered == v.entered && w.exited == v.exited && w.activated == v.activated
            && w.loop.Entering? && !w.p.drained && w.p.draining == v.p.draining
  {
    hide Continues, ApplyData, ApplyCallback;
    Begin(cfg, ws, ss, DrainEnter);
    w := Apply(cfg, ws[|ss|], DrainEnter);
  }

  /** From every vulnerable state a drain can end with frames not consumed. */
  lemma VulnerableLoses(cfg: Config, ws: seq<World>, ss: seq<Step>) returns (w: World)
    requires IsRun(cfg, ws, ss) && cfg.playback && Enabled(cfg, ws[|ss|], DrainEnter)
    requires Vulnerable(cfg, ws[|ss|])
    ensures Continues(cfg, ws, ss, DrainEnter, w) && w.p.drained && w.exited < |w.entered|
  {
    hide Continues, Apply, AvailInv;
    var v := ws[|ss|];
    RunFacts(cfg, ws, ss, |ss|);
    w := Entered(cfg, ws, ss);
    if !Due(v) {
      SameAvail(cfg, v, w);
      w := LateFlushes(cfg, ws, ss, w);
    }
    w := EndCallback(cfg, ws, ss, w);
    w := Conclude(cfg, ws, ss, w);
  }

  /** A drain is bound to have consumed every frame by the time it is drained, if
      and only if it does not begin in a vulnerable state. */
  lemma DrainCompleteIff(cfg: Config, ws: seq<World>, ss: seq<Step>)
    requires IsRun(cfg, ws, ss) && cfg.playback && Enabled(cfg, ws[|ss|], DrainEnter)
    ensures (forall w :: Continues(cfg, ws, ss, DrainEnter, w) && w.p.drained ==> w.exited == |w.entered|)
            <==> !Vulnerable(cfg, ws[|ss|])
  {
    hide Apply, Enabled, Vulnerable;
    if Vulnerable(cfg, ws[|ss|]) {
      var w := VulnerableLoses(cfg, ws, ss);
    } else {
      forall w | Continues(cfg, ws, ss, DrainEnter, w) && w.p.drained ensures w.exited == |w.entered| {
        var ws', ss' :| IsContinuation(cfg, ws, ss, DrainEnter, ws', ss') && w == ws'[|ss'|];
        assert ws'[|ss|] == ws[|ss|];
        DrainConsumesAll(cfg, ws', ss', |ss|, |ss'|);
      }
    }
  }

  // ---------------------------------------------------------------------
  // Whether an old answer can reach a prepared stream

  lemma {:induction false} StaleKept(cfg: Config, ws: seq<World>, ss: seq<Step>, m: nat, n: nat)
    requires IsRun(cfg, ws, ss) && m <= n <= |ss|
    requires forall i :: m <= i < n ==> !ss[i].Prepare?
    ensures ws[n].h.stale == ws[m].h.stale
    decreases n
  {
    hide Apply, Enabled, Init, ValidConfig;
    if m < n {
      StaleKept(cfg, ws, ss, m, n - 1);
      StaleStep(cfg, ws[n - 1], ss[n - 1]);
    }
  }

  lemma StaleStep(cfg: Config, w: World, s: Step)
    requires Enabled(cfg, w, s) && !s.Prepare?
    ensures Apply(cfg, w, s).h.stale == w.h.stale
  {
    hide Move, HwAvail, RingFrames;
    if s.CbMove? { InertStep(cfg, w, s); }
  }

  /** The state a prepare leaves behind, up to the stream and its history. */
  lemma Prepared(cfg: Config, w: World, restart: bool)
    requires Enabled(cfg, w, Prepare(restart))
    ensures var w' := Apply(cfg, w, Prepare(restart));
            && w'.cb.Idle? && w'.loop.Free? && w'.h.record == None && w'.h.stale == Due(w')
            && |w'.ring| == |w.ring| && w'.stream == if restart then Stream(false, false, w.stream.posted) else w.stream
  {
    hide Move, Commit, ApplyCallback, ApplyControl;
  }

  lemma StaleArrives(cfg: Config, ws: seq<World>, ss: seq<Step>, restart: bool) returns (w: World)
    requires IsRun(cfg, ws, ss) && Enabled(cfg, ws[|ss|], Prepare(restart))
    requires Due(Apply(cfg, ws[|ss|], Prepare(restart)))
    ensures Continues(cfg, ws, ss, Prepare(restart), w) && w.p.drained && w.h.record == None
  {
    hide Continues, ApplyData, ApplyCallback;
    var first := Prepare(restart);
    Begin(cfg, ws, ss, first);
    Prepared(cfg, ws[|ss|], restart);
    w := Apply(cfg, ws[|ss|], first);
    if !w.stream.posted {
      w := Take(cfg, ws, ss, first, w, StreamDrained);
    }
    w := Take(cfg, ws, ss, first, w, DrainedEvent);
  }

  /** After a prepare playback is drained only by a flush made since, if and only
      if the prepare left no answer due: none posted, and the stream not draining
      or drained unless the prepare re-activated it. */
  lemma PrepareCleanIff(cfg: Config, ws: seq<World>, ss: seq<Step>, restart: bool)
    requires IsRun(cfg, ws, ss) && cfg.playback && Enabled(cfg, ws[|ss|], Prepare(restart))
    ensures (forall w :: Continues(cfg, ws, ss, Prepare(restart), w) && w.p.drained ==> w.h.record.Some?)
            <==> !ws[|ss|].stream.posted && (restart || !Due(ws[|ss|]))
  {
    var first := Prepare(restart);
    Prepared(cfg, ws[|ss|], restart);
    hide Apply, Enabled, Continues;
    if Due(Apply(cfg, ws[|ss|], first)) {
      var w := StaleArrives(cfg, ws, ss, restart);
    } else {
      forall w | Continues(cfg, ws, ss, first, w) && w.p.drained ensures w.h.record.Some? {
        CleanContinuation(cfg, ws, ss, restart, w);
      }
    }
  }

  lemma CleanContinuation(cfg: Config, ws: seq<World>, ss: seq<Step>, restart: bool, w: World)
    requires IsRun(cfg, ws, ss) && cfg.playback && Enabled(cfg, ws[|ss|], Prepare(restart))
    requires !Apply(cfg, ws[|ss|], Prepare(restart)).h.stale
    requires Continues(cfg, ws, ss, Prepare(restart), w) && w.p.drained
    ensures w.h.record.Some?
  {
    hide Apply, Enabled;
    var ws', ss' :| IsContinuation(cfg, ws, ss, Prepare(restart), ws', ss') && w == ws'[|ss'|];
    assert ws'[|ss|] == ws[|ss|] && ws'[|ss| + 1] == Apply(cfg, ws'[|ss|], ss'[|ss|]);
    StaleKept(cfg, ws', ss', |ss| + 1, |ss'|);
    DrainedMeansConsumed(cfg, ws', ss', |ss'|);
  }

  // ---------------------------------------------------------------------
  // Each exception happens

  ghost const TINY: Config := Config(true, 1, 1, 1, 1)

  ghost const START: World :=
    World([[]], Setup, Plugin(0, false, false, false, 0, 0, 0, 0), false, 0, Idle, Free, false,
          Stream(false, false, false), [], 0, [], 0, Carry(0, 0, 0), History(0, 0, false, false, false, None))

  ghost predicate Reachable(cfg: Config, w: World) {
    exists ws, ss :: IsRun(cfg, ws, ss) && w == ws[|ss|]
  }

  lemma Reach(v: World, s: Step) returns (w: World)
    requires Reachable(TINY, v) && Enabled(TINY, v, s)
    ensures Reachable(TINY, w) && w == Apply(TINY, v, s)
  {
    hide Apply, Enabled, Init;
    var ws, ss :| IsRun(TINY, ws, ss) && v == ws[|ss|];
    w := Apply(TINY, v, s);
    var ws', ss' := ws + [w], ss + [s];
    assert IsRun(TINY, ws', ss') && w == ws'[|ss'|];
  }

  lemma StartReachable()
    ensures Reachable(TINY, START)
  {
    var ws, ss := [START], [];
    assert IsRun(TINY, ws, ss) && START == ws[|ss|];
  }

  /** A frame committed after a callback loaded hw_avail. */
  lemma LateCommitIsVulnerable() returns (w: World)
    ensures Reachable(TINY, w) && Enabled(TINY, w, DrainEnter) && Vulnerable(TINY, w) && !Due(w)
  {
    hide Reachable, Move;
    StartReachable();
    w := Reach(START, CbLoad);
    w := Reach(w, AppCommit(1));
  }

  /** The drain that follows can end without that frame. */
  lemma LateCommitIsMissed() returns (w: World)
    ensures Reachable(TINY, w) && w.p.drained && w.exited < |w.entered|
  {
    hide Apply, Enabled, Vulnerable;
    var v := LateCommitIsVulnerable();
    var ws, ss :| IsRun(TINY, ws, ss) && v == ws[|ss|];
    w := VulnerableLoses(TINY, ws, ss);
  }

  /** Inside drain() with nothing in the ring. */
  predicate Empty(w: World) {
    && w.ring == [[]] && w.st == Draining && w.entered == [] && w.exited == 0
    && w.inDrain && w.activated && w.error == 0 && w.loop.Free?
  }

  lemma EmptyDrain() returns (w: World)
    ensures Reachable(TINY, w) && Empty(w) && w.cb.Idle? && !w.p.drained && !w.p.draining
    ensures w.stream == Stream(false, false, false) && w.h.flushes == w.h.restarts == 0
  {
    hide Reachable, Move, Commit;
    StartReachable();
    w := Reach(START, SetState(Draining));
    w := Reach(w, DrainEnter);
    w := Reach(w, DrainCleared);
    w := Reach(w, DrainEntered);
  }

  lemma Load(v: World) returns (w: World)
    requires Reachable(TINY, v) && Empty(v) && v.cb.Idle? && !v.p.drained
    requires !v.stream.draining && !v.stream.drained
    ensures Reachable(TINY, w) && Empty(w) && w.cb == Loaded(0)
    ensures w.p == v.p && w.stream == v.stream && w.h.flushes == v.h.flushes && w.h.restarts == v.h.restarts
  {
    hide Reachable, Move, Commit;
    w := Reach(v, CbLoad);
    w := Reach(w, CbTest(true));
  }

  lemma Flushing(v: World) returns (w: World)
    requires Reachable(TINY, v) && Empty(v) && v.cb == Loaded(0) && !v.p.draining
    ensures Reachable(TINY, w) && Empty(w) && w.cb == Flushed && !w.p.draining && w.p.drained == v.p.drained
    ensures w.stream == Stream(true, false, v.stream.posted)
    ensures w.h.flushes == v.h.flushes + 1 && w.h.restarts == v.h.restarts
  {
    hide Reachable, Move, Commit, AskAll;
    MoveAll(TINY, v);
    w := Reach(v, AskAll(TINY, 0));
    assert Empty(w) && w.cb == Moved(0) && SameDrain(v, w);
    w := Finish(w);
  }

  lemma Finish(v: World) returns (w: World)
    requires Reachable(TINY, v) && Empty(v) && v.cb == Moved(0) && !v.p.draining
    ensures Reachable(TINY, w) && Empty(w) && w.cb == Flushed && w.p == v.p
    ensures w.stream == Stream(true, false, v.stream.posted)
    ensures w.h.flushes == v.h.flushes + 1 && w.h.restarts == v.h.restarts
  {
    hide Reachable, Move, Commit;
    w := Reach(v, CbFinish);
  }

  /** drain() waits for the answer to a flush. */
  lemma Waiting() returns (w: World)
    ensures Reachable(TINY, w) && Empty(w) && w.cb.Idle? && w.p.draining && !w.p.drained
    ensures w.stream == Stream(true, false, false) && w.h.flushes == 1 && w.h.restarts == 0
  {
    hide Reachable, Move, Commit;
    w := EmptyDrain();
    w := Load(w);
    w := Flushing(w);
    w := Reach(w, CbMark);
    w := Reach(w, CbClear);
  }

  /** Both flags set between the two stores of a drained event. */
  lemma BothSetWhileAnswering() returns (w: World)
    ensures Reachable(TINY, w) && w.p.draining && w.p.drained && w.cb.Idle?
    ensures Empty(w.(loop := Free)) && w.loop.Answering? && w.stream == Stream(false, true, true)
  {
    hide Reachable, Move, Commit;
    w := Waiting();
    w := Reach(w, StreamDrained);
    w := Reach(w, DrainedEvent);
  }

  lemma StopAndStart(v: World) returns (w: World)
    requires Reachable(TINY, v) && Empty(v) && v.cb.Idle? && (v.stream.draining || v.stream.drained)
    ensures Reachable(TINY, w) && Empty(w) && w.cb.Idle? && w.p == v.p
    ensures w.stream == Stream(false, false, v.stream.posted)
    ensures w.h.flushes == v.h.flushes && w.h.restarts == v.h.restarts + 1
  {
    hide Reachable, Move, Commit;
    w := Reach(v, Activate(false));
    w := Reach(w, Activate(true));
  }

  /** Stopped and started while its event is on the way, the stream runs a
      callback that the event catches in the middle: a second flush. */
  lemma RestartFlushesTwice() returns (w: World)
    ensures Reachable(TINY, w) && Empty(w) && w.cb.Flushed? && w.h.flushes == 2 && w.h.restarts == 1
    ensures w.p.drained && !w.p.draining
  {
    hide Reachable, Move, Commit;
    w := Waiting();
    w := Reach(w, StreamDrained);
    w := StopAndStart(w);
    w := Load(w);
    w := Reach(w, DrainedEvent);
    w := Reach(w, DrainedEnd);
    w := Flushing(w);
  }

  /** And both flags set between the two stores of that flush. */
  lemma BothSetWhileMarking() returns (w: World)
    ensures Reachable(TINY, w) && w.p.draining && w.p.drained && w.cb.Marked? && w.loop.Free?
  {
    hide Reachable, Move, Commit;
    w := RestartFlushesTwice();
    w := Reach(w, CbMark);
  }

  /** Stopped and started between its flush and the answer, the stream forgets
      the drain, and drain() waits on. */
  lemma RestartLosesAnswer() returns (w: World)
    ensures Reachable(TINY, w) && Lost(w) && w.inDrain && w.activated && w.error == 0
  {
    hide Reachable, Move, Commit;
    w := Waiting();
    w := StopAndStart(w);
  }

  predicate Undisturbed(ss: seq<Step>) {
    forall i :: 0 <= i < |ss| ==> !ss[i].Activate?
  }

  /** Reached without a stop or a start from outside. */
  ghost predicate ReachableAlone(cfg: Config, w: World) {
    exists ws, ss :: IsRun(cfg, ws, ss) && w == ws[|ss|] && Undisturbed(ss)
  }

  lemma GoAlone(v: World, s: Step) returns (w: World)
    requires ReachableAlone(TINY, v) && Enabled(TINY, v, s) && !s.Activate?
    ensures ReachableAlone(TINY, w) && w == Apply(TINY, v, s)
  {
    hide Apply, Enabled, Init;
    var ws, ss :| IsRun(TINY, ws, ss) && v == ws[|ss|] && Undisturbed(ss);
    w := Apply(TINY, v, s);
    var ws', ss' := ws + [w], ss + [s];
    assert IsRun(TINY, ws', ss') && w == ws'[|ss'|] && Undisturbed(ss');
  }

  /** drain() about to start a stream that was never started, past its stores,
      while a callback is at work. */
  lemma StartingLate() returns (w: World)
    ensures ReachableAlone(TINY, w) && w.ring == [[]] && w.cb == Loaded(0) && w.st == Draining
    ensures w.loop.Starting? && !w.activated && !w.p.drained && !w.p.draining && w.error == 0
    ensures w.stream == Stream(false, false, false)
  {
    hide ReachableAlone, Move, Commit;
    w := LoadAlone();
    w := GoAlone(w, DrainEnter);
    w := GoAlone(w, DrainCleared);
  }

  lemma StartAlone()
    ensures ReachableAlone(TINY, START)
  {
    var ws, ss := [START], [];
    assert IsRun(TINY, ws, ss) && START == ws[|ss|] && Undisturbed(ss);
  }

  lemma LoadAlone() returns (w: World)
    ensures ReachableAlone(TINY, w) && w.ring == [[]] && w.cb == Loaded(0) && w.st == Draining
    ensures w.loop.Free? && !w.activated && !w.inDrain && !w.p.drained && w.error == 0
    ensures w.stream == Stream(false, false, false)
  {
    hide ReachableAlone, Move, Commit;
    StartAlone();
    w := GoAlone(START, SetState(Draining));
    w := GoAlone(w, CbLoad);
    w := GoAlone(w, CbTest(true));
  }

  /** The start inside drain() forgets the flush of a callback that was at work
      when drain() began, and drain() waits on: no stop or start in the run. */
  lemma OwnStartLosesAnswer() returns (w: World)
    ensures ReachableAlone(TINY, w) && Lost(w) && w.inDrain && w.activated && w.error == 0
  {
    hide ReachableAlone, Move, Commit, AskAll;
    w := StartingLate();
    MoveAll(TINY, w);
    w := GoAlone(w, AskAll(TINY, 0));
    w := EndAlone(w);
  }

  lemma EndAlone(v: World) returns (w: World)
    requires ReachableAlone(TINY, v) && v.ring == [[]] && v.cb == Moved(0) && v.st == Draining
    requires v.loop.Starting? && !v.activated && !v.p.drained && !v.p.draining && v.error == 0
    requires v.stream == Stream(false, false, false)
    ensures ReachableAlone(TINY, w) && Lost(w) && w.inDrain && w.activated && w.error == 0
  {
    hide ReachableAlone, Move, Commit;
    w := GoAlone(v, CbFinish);
    w := GoAlone(w, CbMark);
    w := GoAlone(w, CbClear);
    w := GoAlone(w, DrainEntered);
  }

  /** The stream posts an event in every cycle until it is stopped; one still on
      the way at the next prepare marks the prepared stream as drained. */
  lemma OldAnswerAfterPrepare() returns (w: World)
    ensures Reachable(TINY, w) && w.p.drained && w.h.record == None && !w.inDrain && !w.activated
  {
    hide Reachable, Move, Commit;
    w := BothSetWhileAnswering();
    w := Reach(w, DrainedEnd);
    w := Reach(w, DrainReturn);
    w := PostAndStop(w);
    w := Reach(w, Prepare(false));
    w := Reach(w, DrainedEvent);
  }

  lemma PostAndStop(v: World) returns (w: World)
    requires Reachable(TINY, v) && v.ring == [[]] && v.cb.Idle? && v.loop.Free? && v.activated && !v.inDrain
    requires v.stream == Stream(false, true, false)
    ensures Reachable(TINY, w) && w.ring == [[]] && w.cb.Idle? && w.loop.Free? && !w.activated && !w.inDrain
    ensures w.stream == Stream(false, false, true)
  {
    hide Reachable, Move, Commit;
    w := Reach(v, StreamDrained);
    w := Reach(w, Activate(false));
  }
}
