/** The resync handshake of the ALSA control plugin against a server that
    answers requests in order and numbers syncs freshly.

    `requests` is everything the plugin ever sent and `delivered` how much of it
    the server has answered. Handlers run when an answer or an unsolicited
    registry event arrives; a handler that sends requests ends with do_resync.
    The waiting thread may wake at any time. */
module CtlResync {
  import opened Common

  datatype Request = Sync(number: int) | Other

  datatype Caller = Free | Waiting | Returned(code: int)

  datatype State = State(
    requests: seq<Request>, delivered: nat,
    pendingSeq: int, lastSeq: int, error: int, caller: Caller)

  /** What a handler sends: nothing, or `others` requests and one sync. */
  datatype Handler = Quiet | Resyncs(others: nat, number: int)

  datatype Step =
    | Deliver(h: Handler)         // the next answer; a sync's answer is on_core_done
    | Unsolicited(h: Handler)     // registry_event_global
    | Fail(res: int)              // on_core_error
    | Wait(others: nat, number: int)  // the caller's requests, then wait_resync
    | Wake

  predicate Fresh(s: State, number: int) {
    number != 0 && forall i :: 0 <= i < |s.requests| ==> s.requests[i] != Sync(number)
  }

  predicate FreshHandler(s: State, h: Handler) {
    h.Resyncs? ==> Fresh(s, h.number)
  }

  predicate Enabled(s: State, step: Step) {
    match step
    case Deliver(h) => s.delivered < |s.requests| && (s.requests[s.delivered].Sync? ==> h.Quiet?) && FreshHandler(s, h)
    case Unsolicited(h) => FreshHandler(s, h)
    case Fail(_) => true
    case Wait(_, number) => !s.caller.Waiting? && Fresh(s, number)
    case Wake => s.caller.Waiting?
  }

  /** Other requests followed by do_resync. */
  function Send(s: State, others: nat, number: int): State {
    s.(requests := s.requests + seq(others, _ => Other) + [Sync(number)], pendingSeq := number)
  }

  function Handle(s: State, h: Handler): State {
    if h.Quiet? then s else Send(s, h.others, h.number)
  }

  /** on_core_done stores the number; its volume update is in module Ctl. */
  function Done(s: State, number: int): State {
    s.(lastSeq := number)
  }

  /** The body of wait_resync's loop after a wakeup. */
  function CheckWakeup(s: State): State
    requires s.caller.Waiting?
  {
    if s.error < 0 then s.(error := 0, caller := Returned(s.error))
    else if s.pendingSeq == s.lastSeq then s.(caller := Returned(0))
    else s
  }

  function Apply(s: State, step: Step): State
    requires Enabled(s, step)
  {
    match step
    case Deliver(h) =>
      var r := s.requests[s.delivered];
      var s1 := s.(delivered := s.delivered + 1);
      if r.Sync? then Done(s1, r.number) else Handle(s1, h)
    case Unsolicited(h) => Handle(s, h)
    case Fail(res) => if res == -ENOENT then s else s.(error := res)
    case Wait(others, number) => Send(s, others, number).(caller := Waiting)
    case Wake => CheckWakeup(s)
  }

  ghost predicate Init(s: State) {
    s.requests == [] && s.delivered == 0 && s.pendingSeq == 0 && s.lastSeq == 0 && s.error == 0 && s.caller.Free?
  }

  ghost predicate IsRun(states: seq<State>, steps: seq<Step>) {
    && |states| == |steps| + 1 && Init(states[0])
    && forall i :: 0 <= i < |steps| ==> Enabled(states[i], steps[i]) && states[i + 1] == Apply(states[i], steps[i])
  }

  // ---------------------------------------------------------------------

  /** Sync numbers are nonzero and never repeat. */
  ghost predicate Numbered(requests: seq<Request>) {
    && (forall i :: 0 <= i < |requests| && requests[i].Sync? ==> requests[i].number != 0)
    && (forall i, j :: 0 <= i < j < |requests| && requests[i].Sync? && requests[j].Sync? ==> requests[i] != requests[j])
  }

  /** The last number answered comes from a delivered sync. */
  ghost predicate Answered(requests: seq<Request>, delivered: nat, last: int) {
    last == 0 || exists i :: 0 <= i < delivered <= |requests| && requests[i] == Sync(last)
  }

  ghost predicate Inv(s: State) {
    && s.delivered <= |s.requests|
    && Numbered(s.requests)
    && (s.requests == [] ==> s.pendingSeq == 0)
    && (s.requests != [] ==> s.requests[|s.requests| - 1] == Sync(s.pendingSeq))
    && Answered(s.requests, s.delivered, s.lastSeq)
    && (s.caller.Waiting? ==> s.requests != [])
  }

  lemma SendInv(s: State, others: nat, number: int)
    requires Inv(s) && Fresh(s, number)
    ensures Inv(Send(s, others, number)) && |Send(s, others, number).requests| > 0
  {
    var s' := Send(s, others, number);
    assert forall i :: 0 <= i < |s.requests| ==> s'.requests[i] == s.requests[i];
    assert forall i :: |s.requests| <= i < |s'.requests| - 1 ==> s'.requests[i] == Other;
    if s.lastSeq != 0 {
      var i :| 0 <= i < s.delivered <= |s.requests| && s.requests[i] == Sync(s.lastSeq);
      assert s'.requests[i] == Sync(s.lastSeq);
    }
  }

  lemma DeliverInv(s: State, h: Handler)
    requires Inv(s) && Enabled(s, Deliver(h))
    ensures Inv(Apply(s, Deliver(h)))
  {
    var r := s.requests[s.delivered];
    var s1 := s.(delivered := s.delivered + 1);
    if r.Sync? {
      assert s1.requests[s.delivered] == Sync(r.number);
    } else {
      assert Inv(s1);
      if h.Resyncs? { SendInv(s1, h.others, h.number); }
    }
  }

  lemma StepInv(s: State, step: Step)
    requires Inv(s) && Enabled(s, step)
    ensures Inv(Apply(s, step))
  {
    match step
    case Deliver(h) => DeliverInv(s, h);
    case Unsolicited(h) => if h.Resyncs? { SendInv(s, h.others, h.number); }
    case Fail(_) =>
    case Wait(others, number) => SendInv(s, others, number);
    case Wake =>
  }

  lemma {:induction false} RunInv(states: seq<State>, steps: seq<Step>, n: nat)
    requires IsRun(states, steps) && n <= |steps|
    ensures Inv(states[n])
  {
    hide Apply, Enabled;
    if n > 0 {
      hide Inv;
      RunInv(states, steps, n - 1);
      StepInv(states[n - 1], steps[n - 1]);
    }
  }

  /** wait_resync returns 0 exactly when, at a wakeup without an error, every
      request sent so far has been answered: its own sync, the syncs event
      handlers issued while it waited, and everything sent before them. */
  lemma ReturnsZeroIff(states: seq<State>, steps: seq<Step>, n: nat)
    requires IsRun(states, steps) && n < |steps| && steps[n].Wake?
    ensures states[n].caller.Waiting?
    ensures states[n + 1].caller == Returned(0)
            <==> states[n].error >= 0 && states[n].delivered == |states[n].requests|
  {
    RunInv(states, steps, n);
    var s := states[n];
    assert Enabled(s, steps[n]) && states[n + 1] == Apply(s, steps[n]);
    var k := |s.requests| - 1;
    if s.pendingSeq == s.lastSeq {
      assert s.requests[k].number != 0;
      var i :| 0 <= i < s.delivered <= |s.requests| && s.requests[i] == Sync(s.lastSeq);
      assert i == k;
    } else if s.delivered == |s.requests| {
      LastAnswered(states, steps, n);
    }
  }

  /** A wakeup with an error returns it and clears it; one without, while requests
      are unanswered, waits on. */
  lemma WakeReports(states: seq<State>, steps: seq<Step>, n: nat)
    requires IsRun(states, steps) && n < |steps| && steps[n].Wake?
    ensures states[n].error < 0 ==> states[n + 1].caller == Returned(states[n].error) && states[n + 1].error == 0
    ensures states[n].error >= 0 && states[n].delivered < |states[n].requests| ==> states[n + 1] == states[n]
  {
    var s := states[n];
    assert Enabled(s, steps[n]) && states[n + 1] == Apply(s, steps[n]);
    ReturnsZeroIff(states, steps, n);
  }

  /** An error of the core reaches the waiting caller at its next wakeup, unless it
      is ENOENT, which changes nothing. */
  lemma ErrorReachesCaller(states: seq<State>, steps: seq<Step>, n: nat)
    requires IsRun(states, steps) && n + 1 < |steps| && steps[n].Fail? && steps[n + 1].Wake?
    ensures steps[n].res == -ENOENT ==> states[n + 1] == states[n]
    ensures steps[n].res < 0 && steps[n].res != -ENOENT ==> states[n + 2].caller == Returned(steps[n].res)
  {
    assert states[n + 1] == Apply(states[n], steps[n]);
    WakeReports(states, steps, n + 1);
  }

  /** What a handler sends while a caller waits is waited for: at a wakeup right
      after it the caller does not return 0. */
  lemma ResyncIsAwaited(states: seq<State>, steps: seq<Step>, n: nat)
    requires IsRun(states, steps) && n + 1 < |steps| && steps[n + 1].Wake?
    requires steps[n].Unsolicited? || (steps[n].Deliver? && states[n].requests[states[n].delivered].Other?)
    requires steps[n].h.Resyncs?
    ensures |states[n + 1].requests| == |states[n].requests| + steps[n].h.others + 1
    ensures states[n + 1].requests[|states[n].requests| + steps[n].h.others] == Sync(steps[n].h.number)
    ensures states[n + 2].caller != Returned(0)
  {
    var s := states[n];
    assert Enabled(s, steps[n]) && states[n + 1] == Apply(s, steps[n]);
    RunInv(states, steps, n);
    ReturnsZeroIff(states, steps, n + 1);
  }

  /** So is what the caller itself sends. */
  lemma WaitSends(states: seq<State>, steps: seq<Step>, n: nat)
    requires IsRun(states, steps) && n < |steps| && steps[n].Wait?
    ensures states[n + 1].caller.Waiting?
    ensures |states[n + 1].requests| == |states[n].requests| + steps[n].others + 1
    ensures states[n + 1].delivered == states[n].delivered < |states[n + 1].requests|
  {
    RunInv(states, steps, n);
    assert Enabled(states[n], steps[n]) && states[n + 1] == Apply(states[n], steps[n]);
  }

  /** Once everything is delivered the last number answered is the pending one. */
  ghost predicate CaughtUp(s: State) {
    s.delivered > 0 && s.delivered == |s.requests| ==> s.lastSeq == s.pendingSeq
  }

  lemma {:induction false} LastAnswered(states: seq<State>, steps: seq<Step>, n: nat)
    requires IsRun(states, steps) && n <= |steps|
    ensures CaughtUp(states[n])
  {
    if n > 0 {
      LastAnswered(states, steps, n - 1);
      RunInv(states, steps, n - 1);
      RunInv(states, steps, n);
      var s := states[n - 1];
      assert Enabled(s, steps[n - 1]) && states[n] == Apply(s, steps[n - 1]);
    }
  }
}
