/** The event logic of the ALSA control plugin: the cached mute and volume, the
    update bits, and the eventfd a client polls. Which node is the default sink
    or source is an input; None means there is none. */
module Ctl {
  import opened Common

  const WORD: nat := 0x1_0000_0000

  /** A C `long` of 64 bits. */
  type Long = x: int | -0x8000_0000_0000_0000 <= x < 0x8000_0000_0000_0000

  /** struct volume: `channels` values of type long. */
  datatype Volume = Volume(values: seq<Long>)

  datatype NodeInfo = NodeInfo(mute: bool, volume: Volume)

  datatype Bit = SinkVol | SinkMute | SourceVol | SourceMute

  /** The ALSA element names. */
  datatype Element = PlaybackVolume | PlaybackSwitch | CaptureVolume | CaptureSwitch

  datatype Control = Control(
    sinkMuted: bool, sinkVolume: Volume, sourceMuted: bool, sourceVolume: Volume,
    updated: set<Bit>, fd: nat, error: int, subscribed: bool, hasDefaultSource: bool)

  // ---------------------------------------------------------------------
  // volume_equal

  /** The `k`-th 4-byte word of an array of 8-byte little-endian longs. */
  function WordAt(values: seq<Long>, k: nat): int
    requires k < 2 * |values|
  {
    if k % 2 == 0 then Low(values[k / 2]) else High(values[k / 2])
  }

  function Low(v: Long): int {
    v % WORD
  }

  function High(v: Long): int {
    v / WORD % WORD
  }

  lemma LongFromWords(a: Long, b: Long)
    requires Low(a) == Low(b) && High(a) == High(b)
    ensures a == b
  {
  }

  /** volume_equal: it compares `sizeof(float)` bytes per channel. */
  predicate VolumeEqual(a: Volume, b: Volume) {
    && |a.values| == |b.values|
    && forall k :: 0 <= k < |a.values| ==> WordAt(a.values, k) == WordAt(b.values, k)
  }

  /** What that sees of two volumes with the same number of channels: the first
      half of the values and, of an odd number, the low word of the middle one. */
  ghost predicate HalfEqual(a: Volume, b: Volume) {
    var half := |a.values| / 2;
    && |a.values| == |b.values|
    && a.values[..half] == b.values[..half]
    && (|a.values| % 2 == 1 ==> Low(a.values[half]) == Low(b.values[half]))
  }

  lemma WordsEqual(a: Volume, b: Volume, i: nat)
    requires VolumeEqual(a, b) && i < |a.values| / 2
    ensures a.values[i] == b.values[i]
  {
    assert WordAt(a.values, 2 * i) == WordAt(b.values, 2 * i);
    assert WordAt(a.values, 2 * i + 1) == WordAt(b.values, 2 * i + 1);
    LongFromWords(a.values[i], b.values[i]);
  }

  lemma VolumeEqualIff(a: Volume, b: Volume)
    ensures VolumeEqual(a, b) <==> HalfEqual(a, b)
  {
    hide Low, High;
    var n := |a.values|;
    if VolumeEqual(a, b) {
      forall i | 0 <= i < n / 2 ensures a.values[i] == b.values[i] { WordsEqual(a, b, i); }
      if n % 2 == 1 { assert WordAt(a.values, n - 1) == WordAt(b.values, n - 1); }
    }
    if HalfEqual(a, b) {
      forall k | 0 <= k < n ensures WordAt(a.values, k) == WordAt(b.values, k) {
        if k / 2 < n / 2 { assert a.values[..n / 2][k / 2] == b.values[..n / 2][k / 2]; }
      }
    }
  }

  // ---------------------------------------------------------------------
  // pipewire_update_volume

  function UpdateSink(c: Control, node: Option<NodeInfo>): Control {
    match node
    case None => c
    case Some(g) =>
      var c1 := if c.sinkMuted != g.mute then c.(sinkMuted := g.mute, updated := c.updated + {SinkMute}) else c;
      if VolumeEqual(c.sinkVolume, g.volume) then c1
      else c1.(sinkVolume := g.volume, updated := c1.updated + {SinkVol})
  }

  function UpdateSource(c: Control, node: Option<NodeInfo>): Control {
    match node
    case None => c
    case Some(g) =>
      var c1 := if c.sourceMuted != g.mute then c.(sourceMuted := g.mute, updated := c.updated + {SourceMute}) else c;
      if VolumeEqual(c.sourceVolume, g.volume) then c1
      else c1.(sourceVolume := g.volume, updated := c1.updated + {SourceVol})
  }

  /** The node differs from the cache as far as the plugin can tell. */
  predicate Differs(muted: bool, volume: Volume, node: Option<NodeInfo>) {
    node.Some? && (muted != node.value.mute || !VolumeEqual(volume, node.value.volume))
  }

  function UpdateVolume(c: Control, sink: Option<NodeInfo>, source: Option<NodeInfo>): Control {
    var changed := Differs(c.sinkMuted, c.sinkVolume, sink) || Differs(c.sourceMuted, c.sourceVolume, source);
    var c1 := UpdateSource(UpdateSink(c, sink), source);
    if changed then c1.(fd := c1.fd + 1) else c1
  }

  /** The cached volume cannot be told from the node's, but is not it. */
  ghost predicate Stale(cached: Volume, node: Volume) {
    HalfEqual(cached, node) && cached != node
  }

  /** What is cached of one node, and its two bits. */
  datatype Cache = Cache(muted: bool, volume: Volume, muteBit: bool, volBit: bool)

  function SinkCache(c: Control): Cache {
    Cache(c.sinkMuted, c.sinkVolume, SinkMute in c.updated, SinkVol in c.updated)
  }

  function SourceCache(c: Control): Cache {
    Cache(c.sourceMuted, c.sourceVolume, SourceMute in c.updated, SourceVol in c.updated)
  }

  predicate Changed(a: Cache, b: Cache) {
    a.muted != b.muted || a.volume != b.volume
  }

  /** What an update does to it: nothing without the node; with it the mute
      follows, and the volume follows exactly unless it is stale. A change of a
      cached value sets its bit, and nothing else does. */
  ghost predicate Refreshed(a: Cache, b: Cache, node: Option<NodeInfo>) {
    && (b.muteBit <==> a.muteBit || b.muted != a.muted)
    && (b.volBit <==> a.volBit || b.volume != a.volume)
    && match node
       case None => !Changed(a, b)
       case Some(g) =>
         && b.muted == g.mute && (b.volume != g.volume <==> Stale(a.volume, g.volume))
         && (Stale(a.volume, g.volume) ==> b.volume == a.volume)
  }

  lemma SinkRefreshed(c: Control, node: Option<NodeInfo>)
    ensures var c' := UpdateSink(c, node);
            && Refreshed(SinkCache(c), SinkCache(c'), node) && SourceCache(c') == SourceCache(c)
            && (Differs(c.sinkMuted, c.sinkVolume, node) <==> Changed(SinkCache(c), SinkCache(c')))
            && c' == c.(sinkMuted := c'.sinkMuted, sinkVolume := c'.sinkVolume, updated := c'.updated)
            && c.updated <= c'.updated
  {
    hide VolumeEqual, HalfEqual;
    if node.Some? {
      VolumeEqualIff(c.sinkVolume, node.value.volume);
      EqualReflexive(node.value.volume);
    }
  }

  lemma SourceRefreshed(c: Control, node: Option<NodeInfo>)
    ensures var c' := UpdateSource(c, node);
            && Refreshed(SourceCache(c), SourceCache(c'), node) && SinkCache(c') == SinkCache(c)
            && (Differs(c.sourceMuted, c.sourceVolume, node) <==> Changed(SourceCache(c), SourceCache(c')))
            && c' == c.(sourceMuted := c'.sourceMuted, sourceVolume := c'.sourceVolume, updated := c'.updated)
            && c.updated <= c'.updated
  {
    hide VolumeEqual, HalfEqual;
    if node.Some? {
      VolumeEqualIff(c.sourceVolume, node.value.volume);
      EqualReflexive(node.value.volume);
    }
  }

  /** Both caches are refreshed, no pending bit is lost, and the descriptor is
      written exactly if a cached value changed. */
  lemma UpdateRefreshesCache(c: Control, sink: Option<NodeInfo>, source: Option<NodeInfo>)
    ensures var c' := UpdateVolume(c, sink, source);
            && c.updated <= c'.updated
            && Refreshed(SinkCache(c), SinkCache(c'), sink)
            && Refreshed(SourceCache(c), SourceCache(c'), source)
            && c'.fd == (if Changed(SinkCache(c), SinkCache(c')) || Changed(SourceCache(c), SourceCache(c'))
                         then c.fd + 1 else c.fd)
            && c'.error == c.error && c'.subscribed == c.subscribed && c'.hasDefaultSource == c.hasDefaultSource
  {
    hide Refreshed, UpdateSink, UpdateSource, Differs;
    SinkRefreshed(c, sink);
    SourceRefreshed(UpdateSink(c, sink), source);
  }

  lemma EqualReflexive(v: Volume)
    ensures VolumeEqual(v, v)
  {
  }

  /** For instance a stereo change of the right channel only. */
  lemma RightChannelMissed(left: Long, r1: Long, r2: Long, c: Control)
    requires r1 != r2 && c.sinkVolume == Volume([left, r1]) && !c.sinkMuted
    ensures UpdateVolume(c, Some(NodeInfo(false, Volume([left, r2]))), None) == c
  {
  }

  /** Or a mono value the application wrote with a high word. */
  lemma HighWordMissed(c: Control)
    requires c.sinkVolume == Volume([0x1_0000_0005]) && !c.sinkMuted
    ensures UpdateVolume(c, Some(NodeInfo(false, Volume([5]))), None) == c
  {
  }

  // ---------------------------------------------------------------------
  // pipewire_read_event

  /** The name pipewire_elem_list gives to element `offset`. */
  function ElementName(hasDefaultSource: bool, offset: nat): Option<Element> {
    var o := if hasDefaultSource then offset else offset + 2;
    if o == 0 then Some(CaptureVolume)
    else if o == 1 then Some(CaptureSwitch)
    else if o == 2 then Some(PlaybackVolume)
    else if o == 3 then Some(PlaybackSwitch)
    else None
  }

  function ElementOf(b: Bit): Element {
    match b
    case SinkVol => PlaybackVolume
    case SinkMute => PlaybackSwitch
    case SourceVol => CaptureVolume
    case SourceMute => CaptureSwitch
  }

  datatype Result = Event(bit: Bit, name: Option<Element>) | Errno(code: int)

  /** The bit served next, and the element offset it is listed under. */
  function Served(c: Control): (Bit, nat)
    requires c.updated != {}
  {
    var offset := if c.hasDefaultSource then 2 else 0;
    if SourceVol in c.updated then (SourceVol, 0)
    else if SourceMute in c.updated then (SourceMute, 1)
    else if SinkVol in c.updated then (SinkVol, offset)
    else (SinkMute, offset + 1)
  }

  /** poll_deactivate on the way out when nothing is pending. */
  function Settle(c: Control): Control {
    if c.updated == {} then c.(fd := 0) else c
  }

  function ReadEvent(c: Control): (Control, Result) {
    if c.error < 0 then (Settle(c.(error := 0)), Errno(c.error))
    else if c.updated == {} || !c.subscribed then (Settle(c), Errno(-EAGAIN))
    else
      var (bit, offset) := Served(c);
      (Settle(c.(updated := c.updated - {bit})), Event(bit, ElementName(c.hasDefaultSource, offset)))
  }

  /** on_core_error for the core object. */
  function CoreError(c: Control, res: int): Control {
    if res == -ENOENT then c else c.(error := res, fd := c.fd + 1)
  }

  lemma ServesPending(c: Control)
    requires c.updated != {}
    ensures Served(c).0 in c.updated
  {
    var b :| b in c.updated;
    match b
    case SinkVol =>
    case SinkMute =>
    case SourceVol =>
    case SourceMute =>
  }

  function Rank(b: Bit): nat {
    match b
    case SourceVol => 0
    case SourceMute => 1
    case SinkVol => 2
    case SinkMute => 3
  }

  /** What a read returns and what it leaves: a pending error first, which it
      clears; EAGAIN if nothing is pending or nobody subscribed; otherwise the
      first pending bit, which it takes. Bits are lost in no other way. */
  lemma ReadEventCases(c: Control)
    ensures var (c', r) := ReadEvent(c);
            && (c.error < 0 ==> r == Errno(c.error) && c'.error == 0)
            && (c.error >= 0 ==> c'.error == c.error)
            && (c.error >= 0 && (c.updated == {} || !c.subscribed) ==> r == Errno(-EAGAIN))
            && (r.Event? <==> c.error >= 0 && c.subscribed && c.updated != {})
            && (r.Event? ==> r.bit in c.updated && forall b :: b in c.updated ==> Rank(r.bit) <= Rank(b))
            && c'.updated == (if r.Event? then c.updated - {r.bit} else c.updated)
            && c'.fd == if c'.updated == {} then 0 else c.fd
  {
    if c.updated != {} { ServesPending(c); }
  }

  /** The next read reports an error of the core, unless it is ENOENT, which
      changes nothing; until then the descriptor is readable. */
  lemma ErrorReported(c: Control, res: int)
    ensures res == -ENOENT ==> CoreError(c, res) == c
    ensures res < 0 && res != -ENOENT ==>
              ReadEvent(CoreError(c, res)).1 == Errno(res) && CoreError(c, res).fd == c.fd + 1
  {
  }

  /** An event names the element that changed if and only if there is a default
      source or no change of the source is pending. */
  lemma NameRightIff(c: Control)
    requires c.error >= 0 && c.subscribed && c.updated != {}
    ensures ReadEvent(c).1.Event?
    ensures ReadEvent(c).1.name == Some(ElementOf(ReadEvent(c).1.bit))
            <==> c.hasDefaultSource || (SourceVol !in c.updated && SourceMute !in c.updated)
  {
  }

  /** A capture change without a default source is reported under a playback name. */
  lemma WrongName(c: Control)
    requires c.error >= 0 && c.subscribed && !c.hasDefaultSource && SourceVol in c.updated
    ensures ReadEvent(c).1 == Event(SourceVol, Some(PlaybackVolume))
  {
  }

  // ---------------------------------------------------------------------
  // Runs

  datatype Step =
    | Refresh(sink: Option<NodeInfo>, source: Option<NodeInfo>)
    | Read
    | Fail(res: int)
    | TakeError
    | Subscribe(on: bool)
    | DefaultSource(has: bool)
    | WriteCache(sinkMuted: bool, sinkVolume: Volume, sourceMuted: bool, sourceVolume: Volume)

  function Apply(c: Control, s: Step): Control {
    match s
    case Refresh(sink, source) => UpdateVolume(c, sink, source)
    case Read => ReadEvent(c).0
    case Fail(res) => CoreError(c, res)
    case TakeError => c.(error := 0)
    case Subscribe(on) => c.(subscribed := on)
    case DefaultSource(has) => c.(hasDefaultSource := has)
    case WriteCache(sm, sv, om, ov) => c.(sinkMuted := sm, sinkVolume := sv, sourceMuted := om, sourceVolume := ov)
  }

  function After(c: Control, ss: seq<Step>): Control {
    if ss == [] then c else Apply(After(c, ss[..|ss| - 1]), ss[|ss| - 1])
  }

  lemma RefreshWakes(c: Control, sink: Option<NodeInfo>, source: Option<NodeInfo>)
    requires c.updated != {} || c.error < 0 ==> c.fd > 0
    ensures var c' := UpdateVolume(c, sink, source); c'.updated != {} || c'.error < 0 ==> c'.fd > 0
  {
    hide VolumeEqual;
  }

  /** No lost wakeups: in every reachable state pending bits or a pending error
      mean the descriptor is readable. */
  lemma {:induction false} PendingMeansReadable(c: Control, ss: seq<Step>)
    requires c.updated == {} && c.fd == 0 && c.error >= 0
    ensures After(c, ss).updated != {} || After(c, ss).error < 0 ==> After(c, ss).fd > 0
  {
    hide UpdateVolume, Served;
    if ss != [] {
      PendingMeansReadable(c, ss[..|ss| - 1]);
      var s, d := ss[|ss| - 1], After(c, ss[..|ss| - 1]);
      if s.Refresh? { RefreshWakes(d, s.sink, s.source); }
    }
  }

  /** The state after, and the results of, `n` successive reads. */
  function Reads(c: Control, n: nat): (Control, seq<Result>)
    decreases n
  {
    if n == 0 then (c, [])
    else
      var (c1, r) := ReadEvent(c);
      var (c2, rs) := Reads(c1, n - 1);
      (c2, [r] + rs)
  }

  /** The bits a sequence of results reported, with multiplicity. */
  function Reported(rs: seq<Result>): multiset<Bit> {
    if rs == [] then multiset{}
    else (if rs[0].Event? then multiset{rs[0].bit} else multiset{}) + Reported(rs[1..])
  }

  /** A subscribed reader gets every pending bit exactly once, and after as many
      reads as bits nothing is pending and the descriptor is quiet. */
  lemma {:induction false} ReadsServeEachOnce(c: Control)
    requires c.error >= 0 && c.subscribed && c.updated != {}
    ensures var (c', rs) := Reads(c, |c.updated|);
            && c'.updated == {} && c'.fd == 0
            && |rs| == |c.updated| && Reported(rs) == multiset(c.updated)
    decreases |c.updated|
  {
    ServesPending(c);
    hide Served;
    var bit := Served(c).0;
    var (c1, r) := ReadEvent(c);
    assert c1.updated == c.updated - {bit};
    assert multiset(c.updated) == multiset{bit} + multiset(c1.updated);
    var (c2, rs) := Reads(c1, |c.updated| - 1);
    assert ([r] + rs)[1..] == rs;
    if c1.updated != {} {
      ReadsServeEachOnce(c1);
    } else {
      assert c.updated == {bit};
    }
  }
}
