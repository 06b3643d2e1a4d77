/** The seqlock between on_stream_process and snd_pcm_pipewire_delay, and
    prepare, which stores two of the fields outside any section. The reader's
    loads and prepare's stores are in program order, the writer's stores in any
    order, and single loads and stores interleave freely; the sequence number
    wraps like `uintptr_t`. No callback runs during a prepare. */
module PcmSeqlock {
  import opened Pcm

  const SEQ_MOD: nat := 0x1_0000_0000_0000_0000

  /** The fields the delay reader uses. */
  datatype Field = FDelay | FTransferred | FNow | FHwPtr

  datatype Snapshot = Snapshot(delay: int, transferred: int, now: int, hwPtr: int) {
    function Get(f: Field): int {
      match f
      case FDelay => delay
      case FTransferred => transferred
      case FNow => now
      case FHwPtr => hwPtr
    }

    function Set(f: Field, v: int): Snapshot {
      match f
      case FDelay => this.(delay := v)
      case FTransferred => this.(transferred := v)
      case FNow => this.(now := v)
      case FHwPtr => this.(hwPtr := v)
    }
  }

  /** The order of the loads. */
  function FieldAt(k: nat): Field
    requires k < 4
  {
    [FDelay, FTransferred, FNow, FHwPtr][k]
  }

  /** `began` and `ended` count the increments at the ends of the read, `during`
      is every memory there was from its begin on; both are history. */
  datatype Reader =
    | Out
    | Reading(seq1: nat, got: seq<int>, began: nat, during: set<Snapshot>)
    | Finished(value: Snapshot, began: nat, ended: nat, during: set<Snapshot>)

  /** `incs` counts the increments ever made; memory holds it modulo SEQ_MOD.
      `preparing` is set between the two stores of prepare. */
  datatype State = State(mem: Snapshot, incs: nat, preparing: bool, reader: Reader)

  datatype Step =
    | WOpen
    | WStore(f: Field, v: int)
    | WClose
    | PrepareHwPtr
    | PrepareNow
    | RBegin
    | RLoad
    | REnd

  function Seq(s: State): nat {
    s.incs % SEQ_MOD
  }

  /** SPA_SEQ_READ_SUCCESS. */
  predicate ReadSuccess(seq1: nat, seq2: nat) {
    seq1 == seq2 && seq2 % 2 == 0
  }

  predicate Enabled(s: State, step: Step) {
    match step
    case WOpen => s.incs % 2 == 0 && !s.preparing
    case WStore(_, _) => s.incs % 2 == 1
    case WClose => s.incs % 2 == 1
    case PrepareHwPtr => s.incs % 2 == 0 && !s.preparing
    case PrepareNow => s.preparing
    case RBegin => !s.reader.Reading?
    case RLoad => s.reader.Reading? && |s.reader.got| < 4
    case REnd => s.reader.Reading? && |s.reader.got| == 4
  }

  function StoreMem(s: State, mem: Snapshot): State {
    var r := s.reader;
    s.(mem := mem, reader := if r.Reading? then Reading(r.seq1, r.got, r.began, r.during + {mem}) else r)
  }

  function Apply(s: State, step: Step): State
    requires Enabled(s, step)
  {
    match step
    case WOpen => s.(incs := s.incs + 1)
    case WStore(f, v) => StoreMem(s, s.mem.Set(f, v))
    case WClose => s.(incs := s.incs + 1)
    case PrepareHwPtr => StoreMem(s, s.mem.Set(FHwPtr, 0)).(preparing := true)
    case PrepareNow => StoreMem(s, s.mem.Set(FNow, 0)).(preparing := false)
    case RBegin => s.(reader := Reading(Seq(s), [], s.incs, {s.mem}))
    case RLoad => s.(reader := s.reader.(got := s.reader.got + [s.mem.Get(FieldAt(|s.reader.got|))]))
    case REnd =>
      var r := s.reader;
      if ReadSuccess(r.seq1, Seq(s)) then
        s.(reader := Finished(Snapshot(r.got[0], r.got[1], r.got[2], r.got[3]), r.began, s.incs, r.during))
      else s.(reader := Out)
  }

  ghost predicate Init(s: State) {
    s.incs == 0 && !s.preparing && s.reader.Out?
  }

  ghost predicate IsRun(states: seq<State>, steps: seq<Step>) {
    && |states| == |steps| + 1
    && Init(states[0])
    && forall i :: 0 <= i < |steps| ==> Enabled(states[i], steps[i]) && states[i + 1] == Apply(states[i], steps[i])
  }

  /** What a read will return if no more stores come: the fields loaded so far,
      the others from memory. */
  function Candidate(mem: Snapshot, got: seq<int>): Snapshot
    requires |got| <= 4
  {
    Snapshot(if |got| > 0 then got[0] else mem.delay, if |got| > 1 then got[1] else mem.transferred,
             if |got| > 2 then got[2] else mem.now, if |got| > 3 then got[3] else mem.hwPtr)
  }

  /** Outside sections that is a memory there was during the read: only prepare
      stores then, and it clears hw_ptr before now. */
  predicate ReadInv(s: State, got: seq<int>, during: set<Snapshot>) {
    && |got| <= 4 && s.mem in during && Candidate(s.mem, got) in during
    && (|got| > 0 ==> got[0] == s.mem.delay) && (|got| > 1 ==> got[1] == s.mem.transferred)
    && (|got| > 2 && got[2] != s.mem.now ==> s.mem.hwPtr == 0)
  }

  predicate Inv(s: State) {
    && (s.preparing ==> s.incs % 2 == 0 && s.mem.hwPtr == 0)
    && match s.reader
       case Out => true
       case Reading(seq1, got, began, during) =>
         && |got| <= 4 && began <= s.incs && seq1 == began % SEQ_MOD
         && (began == s.incs && began % 2 == 0 ==> ReadInv(s, got, during))
       case Finished(value, began, ended, during) =>
         ended - began < SEQ_MOD ==> began == ended && began % 2 == 0 && value in during
  }

  lemma SameSequence(a: nat, b: nat)
    requires a <= b < a + SEQ_MOD && a % SEQ_MOD == b % SEQ_MOD
    ensures a == b
  {
  }

  lemma StepInv(s: State, step: Step)
    requires Inv(s) && Enabled(s, step)
    ensures Inv(Apply(s, step))
  {
    if step.REnd? && ReadSuccess(s.reader.seq1, Seq(s)) && s.incs - s.reader.began < SEQ_MOD {
      SameSequence(s.reader.began, s.incs);
    }
  }

  lemma {:induction false} RunInv(states: seq<State>, steps: seq<Step>, n: nat)
    requires IsRun(states, steps) && n <= |steps|
    ensures Inv(states[n])
  {
    hide Apply, Enabled;
    if n > 0 {
      hide Inv;
      RunInv(states, steps, n - 1);
      StepInv(states[n - 1], steps[n - 1]);
    }
  }

  /** The values that leave the retry loop are the memory at one instant of that
      read, and no section was open or completed during it: in every
      interleaving, prepares included, with fewer than 2^64 increments per read
      attempt. The instant may lie between the two stores of a prepare. */
  lemma ReadIsOneInstant(states: seq<State>, steps: seq<Step>, n: nat)
    requires IsRun(states, steps) && n <= |steps| && states[n].reader.Finished?
    requires states[n].reader.ended - states[n].reader.began < SEQ_MOD
    ensures states[n].reader.began == states[n].reader.ended && states[n].reader.began % 2 == 0
    ensures states[n].reader.value in states[n].reader.during
  {
    RunInv(states, steps, n);
  }

  /** A read attempt leaves the retry loop exactly if it began outside a section
      and the sequence number is the same at its end; so one that no section
      touches always does. */
  lemma ReadLeavesIff(states: seq<State>, steps: seq<Step>, n: nat)
    requires IsRun(states, steps) && n < |steps| && steps[n].REnd?
    ensures states[n].reader.Reading?
    ensures states[n + 1].reader.Finished?
            <==> states[n].reader.began % 2 == 0 && states[n].reader.began % SEQ_MOD == states[n].incs % SEQ_MOD
    ensures states[n].reader.began == states[n].incs && states[n].incs % 2 == 0 ==> states[n + 1].reader.Finished?
  {
    RunInv(states, steps, n);
    assert Enabled(states[n], steps[n]) && states[n + 1] == Apply(states[n], steps[n]);
    SameParity(states[n].reader.began);
  }

  lemma SameParity(x: nat)
    ensures x % SEQ_MOD % 2 == x % 2
  {
  }

  /** `t` is where `steps`, one after the other, take `s`. */
  ghost predicate Leads(s: State, steps: seq<Step>, t: State)
    decreases |steps|
  {
    if steps == [] then s == t
    else Enabled(s, steps[0]) && Leads(Apply(s, steps[0]), steps[1..], t)
  }

  lemma LeadsThree(s: State, a: Step, b: Step, c: Step, t: State)
    requires Enabled(s, a) && Enabled(Apply(s, a), b) && Enabled(Apply(Apply(s, a), b), c)
    requires t == Apply(Apply(Apply(s, a), b), c)
    ensures Leads(s, [a, b, c], t)
  {
    hide Apply, Enabled;
    var s1 := Apply(s, a);
    assert [a, b, c][1..] == [b, c] && [b, c][1..] == [c] && [c][1..] == [];
    assert Leads(Apply(Apply(s1, b), c), [], t);
    assert Leads(Apply(s1, b), [c], t);
    assert Leads(s1, [b, c], t);
  }

  /** Outside sections a section can run, and leaves its store and two increments. */
  lemma SectionAlone(s: State, f: Field, v: int)
    requires s.incs % 2 == 0 && !s.preparing && !s.reader.Reading?
    ensures Leads(s, [WOpen, WStore(f, v), WClose], s.(mem := s.mem.Set(f, v), incs := s.incs + 2))
  {
    hide Leads;
    LeadsThree(s, WOpen, WStore(f, v), WClose, s.(mem := s.mem.Set(f, v), incs := s.incs + 2));
  }

  /** So can a prepare. */
  lemma PrepareAlone(s: State)
    requires s.incs % 2 == 0 && !s.preparing && !s.reader.Reading?
    ensures Leads(s, [PrepareHwPtr, PrepareNow], s.(mem := s.mem.(hwPtr := 0, now := 0)))
  {
    var t := s.(mem := s.mem.(hwPtr := 0, now := 0));
    assert [PrepareHwPtr, PrepareNow][1..] == [PrepareNow] && [PrepareNow][1..] == [];
    assert Leads(Apply(Apply(s, PrepareHwPtr), PrepareNow), [], t);
    assert Leads(Apply(s, PrepareHwPtr), [PrepareNow], t);
  }

  lemma Loads(s: State, got: seq<int>)
    requires s.reader.Reading? && s.reader.got == got && |got| <= 2
    ensures Enabled(s, RLoad) && Enabled(Apply(s, RLoad), RLoad)
    ensures var r, k := s.reader, |got|;
            var more := [s.mem.Get(FieldAt(k)), s.mem.Get(FieldAt(k + 1))];
            Apply(Apply(s, RLoad), RLoad) == s.(reader := Reading(r.seq1, got + more, r.began, r.during))
  {
    hide FieldAt;
    var k := |got|;
    assert got + [s.mem.Get(FieldAt(k))] + [s.mem.Get(FieldAt(k + 1))]
        == got + [s.mem.Get(FieldAt(k)), s.mem.Get(FieldAt(k + 1))];
  }

  /** A read then returns what is in memory. */
  lemma ReadAlone(s: State)
    requires s.incs % 2 == 0 && !s.reader.Reading?
    ensures var mid := s.(reader := Reading(Seq(s), [s.mem.delay, s.mem.transferred], s.incs, {s.mem}));
            && Leads(s, [RBegin, RLoad, RLoad], mid)
            && Leads(mid, [RLoad, RLoad, REnd], s.(reader := Finished(s.mem, s.incs, s.incs, {s.mem})))
  {
    hide Leads, ReadSuccess;
    FirstLoads(s);
    LastLoads(s);
  }

  lemma FirstLoads(s: State)
    requires !s.reader.Reading?
    ensures var mid := s.(reader := Reading(Seq(s), [s.mem.delay, s.mem.transferred], s.incs, {s.mem}));
            Leads(s, [RBegin, RLoad, RLoad], mid)
  {
    hide Leads, ReadSuccess, Seq;
    Loads(Apply(s, RBegin), []);
    assert [] + [s.mem.Get(FieldAt(0)), s.mem.Get(FieldAt(1))] == [s.mem.delay, s.mem.transferred];
    LeadsThree(s, RBegin, RLoad, RLoad, Apply(Apply(Apply(s, RBegin), RLoad), RLoad));
  }

  lemma LastLoads(s: State)
    requires s.incs % 2 == 0
    ensures var mid := s.(reader := Reading(Seq(s), [s.mem.delay, s.mem.transferred], s.incs, {s.mem}));
            Leads(mid, [RLoad, RLoad, REnd], s.(reader := Finished(s.mem, s.incs, s.incs, {s.mem})))
  {
    hide Leads;
    SameParity(s.incs);
    var mid := s.(reader := Reading(Seq(s), [s.mem.delay, s.mem.transferred], s.incs, {s.mem}));
    Loads(mid, mid.reader.got);
    LeadsThree(mid, RLoad, RLoad, REnd, Apply(Apply(Apply(mid, RLoad), RLoad), REnd));
  }

  // ---------------------------------------------------------------------
  // The stores of the actual section

  function View(p: Plugin): Snapshot {
    Snapshot(p.delay, p.transferred, p.now, p.hwPtr)
  }

  /** A store that happens if `on`. */
  datatype Access = Access(on: bool, f: Field, v: int)

  function StoreOne(m: Snapshot, a: Access): Snapshot {
    if a.on then m.Set(a.f, a.v) else m
  }

  function Store(m: Snapshot, ws: seq<Access>): Snapshot
    decreases |ws|
  {
    if ws == [] then m else Store(StoreOne(m, ws[0]), ws[1..])
  }

  /** The stores on_stream_process makes to these fields, in program order. */
  function SectionStores(cfg: Config, p: Plugin, st: IoState,
                         avail: nat, clipped: nat, delay: int, now: int): seq<Access>
  {
    var start := if p.now != now then p.buffered else p.transferred;
    var n := Copied(st, clipped, avail);
    [ Access(p.now != now, FTransferred, p.buffered),
      Access(n > 0, FHwPtr, AdvanceHw(p.hwPtr, n, cfg.boundary)),
      Access(true, FDelay, delay),
      Access(cfg.playback, FTransferred, start + clipped),
      Access(true, FNow, now) ]
  }

  lemma StoreFive(m: Snapshot, a: Access, b: Access, c: Access, d: Access, e: Access)
    ensures Store(m, [a, b, c, d, e]) == StoreOne(StoreOne(StoreOne(StoreOne(StoreOne(m, a), b), c), d), e)
  {
    hide StoreOne;
    var m1 := StoreOne(m, a);
    var m2 := StoreOne(m1, b);
    var m3 := StoreOne(m2, c);
    var m4 := StoreOne(m3, d);
    assert [a, b, c, d, e][1..] == [b, c, d, e] && [b, c, d, e][1..] == [c, d, e];
    assert Store(m, [a, b, c, d, e]) == Store(m2, [c, d, e]);
    assert [c, d, e][1..] == [d, e] && [d, e][1..] == [e];
    assert Store(m2, [c, d, e]) == Store(m4, [e]);
    assert [e][1..] == [] && Store(m4, [e]) == StoreOne(m4, e);
  }

  /** Run one after the other, they leave the fields as `Section` computes them. */
  lemma StoresMakeSection(cfg: Config, p: Plugin, st: IoState, st2: IoState,
                          avail: nat, want: nat, clipped: nat, delay: int, now: int)
    ensures Store(View(p), SectionStores(cfg, p, st, avail, clipped, delay, now))
            == View(Section(cfg, p, st, st2, avail, want, clipped, delay, now))
  {
    hide Store, Surplus;
    var ws := SectionStores(cfg, p, st, avail, clipped, delay, now);
    StoreFive(View(p), ws[0], ws[1], ws[2], ws[3], ws[4]);
  }
}
