/** `snd_ctl_pipewire_t` as far as the event logic updates it in place. Its
    `updated` is a C bit mask; module `Ctl` has it as a set of bits. */
module CtlObject {
  import opened Bits
  import opened Common
  import opened Ctl

  function Index(b: Bit): nat {
    match b
    case SinkVol => 0
    case SinkMute => 1
    case SourceVol => 2
    case SourceMute => 3
  }

  /** UPDATE_SINK_VOL and so on. */
  function Mask(b: Bit): nat {
    Pow2(Index(b))
  }

  /** `~mask` as an unsigned int. */
  function Complement(mask: nat): nat
    requires mask <= 0xFFFF_FFFF
  {
    0xFFFF_FFFF - mask
  }

  ghost function Pending(mask: nat): set<Bit> {
    set b: Bit | TestBit(mask, Index(b))
  }

  lemma FourBits(x: nat)
    ensures TestBit(x, 0) <==> x % 2 == 1
    ensures TestBit(x, 1) <==> x / 2 % 2 == 1
    ensures TestBit(x, 2) <==> x / 4 % 2 == 1
    ensures TestBit(x, 3) <==> x / 8 % 2 == 1
  {
    assert x / 4 == x / 2 / 2 && x / 8 == x / 4 / 2;
    assert TestBit(x, 2) == TestBit(x / 2, 1) == TestBit(x / 4, 0);
    assert TestBit(x, 3) == TestBit(x / 2, 2) == TestBit(x / 4, 1) == TestBit(x / 8, 0);
  }

  lemma MaskSmall(b: Bit)
    ensures Mask(b) < 16 == Pow2(4)
  {
  }

  lemma OnlyItsBit(b: Bit, c: Bit)
    ensures TestBit(Mask(b), Index(c)) <==> b == c
  {
    FourBits(Mask(b));
    hide TestBit;
    match b case SinkVol => case SinkMute => case SourceVol => case SourceMute =>
  }

  lemma AllOtherBits(b: Bit, c: Bit)
    requires Mask(b) <= 0xFFFF_FFFF
    ensures TestBit(Complement(Mask(b)), Index(c)) <==> b != c
  {
    FourBits(Complement(Mask(b)));
    hide TestBit;
    match b case SinkVol => case SinkMute => case SourceVol => case SourceMute =>
  }

  /** `updated |= mask`. */
  lemma OrAdds(mask: nat, b: Bit)
    requires mask < 16
    ensures BitOr(mask, Mask(b)) < 16
    ensures Pending(BitOr(mask, Mask(b))) == Pending(mask) + {b}
  {
    MaskSmall(b);
    OrBelow(mask, Mask(b), 4);
    forall c: Bit ensures c in Pending(BitOr(mask, Mask(b))) <==> c in Pending(mask) || c == b {
      TestBitOr(mask, Mask(b), Index(c));
      OnlyItsBit(b, c);
    }
  }

  /** `updated &= ~mask`. */
  lemma AndRemoves(mask: nat, b: Bit)
    requires mask < 16 && Mask(b) <= 0xFFFF_FFFF
    ensures BitAnd(mask, Complement(Mask(b))) < 16
    ensures Pending(BitAnd(mask, Complement(Mask(b)))) == Pending(mask) - {b}
  {
    AndAtMost(mask, Complement(Mask(b)));
    forall c: Bit ensures c in Pending(BitAnd(mask, Complement(Mask(b)))) <==> c in Pending(mask) && c != b {
      TestBitAnd(mask, Complement(Mask(b)), Index(c));
      AllOtherBits(b, c);
    }
  }

  /** `updated & mask`. */
  lemma AndTests(mask: nat, b: Bit)
    ensures BitAnd(mask, Mask(b)) != 0 <==> b in Pending(mask)
  {
    AndPow2(mask, Index(b));
  }

  lemma NoneSet(mask: nat)
    requires mask < 16
    ensures mask == 0 <==> Pending(mask) == {}
  {
    FourBits(mask);
    if Pending(mask) == {} {
      assert SinkVol !in Pending(mask) && SinkMute !in Pending(mask);
      assert SourceVol !in Pending(mask) && SourceMute !in Pending(mask);
    }
    forall b: Bit | mask == 0 ensures b !in Pending(mask) { TestBitZero(Index(b)); }
  }

  /** The memcmp of volume_equal, word by word. */
  method SameVolume(a: Volume, b: Volume) returns (same: bool)
    ensures same <==> HalfEqual(a, b)
  {
    VolumeEqualIff(a, b);
    hide HalfEqual, Low, High;
    same := |a.values| == |b.values|;
    var k := 0;
    while same && k < |a.values|
      invariant k <= |a.values|
      invariant same ==> |a.values| == |b.values|
      invariant same ==> forall i :: 0 <= i < k ==> WordAt(a.values, i) == WordAt(b.values, i)
      invariant !same ==> !VolumeEqual(a, b)
      decreases |a.values| - k, same
    {
      if WordAt(a.values, k) != WordAt(b.values, k) {
        same := false;
      } else {
        k := k + 1;
      }
    }
  }

  class CtlPlugin {
    var sinkMuted: bool
    var sinkVolume: Volume
    var sourceMuted: bool
    var sourceVolume: Volume
    var updated: nat
    var fd: nat
    var error: int
    var subscribed: bool
    var hasDefaultSource: bool

    /** Only the four bits, and none of them without a readable descriptor. */
    ghost predicate Valid()
      reads this
    {
      updated < 16 && (updated != 0 ==> fd > 0)
    }

    ghost function Value(): Control
      reads this
    {
      Control(sinkMuted, sinkVolume, sourceMuted, sourceVolume,
              Pending(updated), fd, error, subscribed, hasDefaultSource)
    }

    constructor (sinkVol: Volume, sourceVol: Volume)
      ensures Valid() && Value() == Control(false, sinkVol, false, sourceVol, {}, 0, 0, false, false)
    {
      sinkMuted, sinkVolume, sourceMuted, sourceVolume := false, sinkVol, false, sourceVol;
      updated, fd, error, subscribed, hasDefaultSource := 0, 0, 0, false, false;
      NoneSet(0);
    }

    method Mark(b: Bit)
      requires updated < 16
      modifies this`updated
      ensures updated < 16 && Pending(updated) == old(Pending(updated)) + {b} && updated != 0
    {
      OrAdds(updated, b);
      updated := BitOr(updated, Mask(b));
      NoneSet(updated);
      assert b in Pending(updated);
    }

    method Unmark(b: Bit)
      requires updated < 16
      modifies this`updated
      ensures updated < 16 && Pending(updated) == old(Pending(updated)) - {b}
    {
      MaskSmall(b);
      AndRemoves(updated, b);
      updated := BitAnd(updated, Complement(Mask(b)));
    }

    method Marked(b: Bit) returns (r: bool)
      ensures r <==> b in Pending(updated)
    {
      AndTests(updated, b);
      r := BitAnd(updated, Mask(b)) != 0;
    }

    method RefreshSink(sink: Option<NodeInfo>) returns (changed: bool)
      requires updated < 16
      modifies this`sinkMuted, this`sinkVolume, this`updated
      ensures Value() == UpdateSink(old(Value()), sink) && updated < 16
      ensures changed == old(Differs(sinkMuted, sinkVolume, sink))
      ensures !changed ==> updated == old(updated)
    {
      hide VolumeEqual, HalfEqual, Pending;
      changed := false;
      if sink.Some? {
        var g := sink.value;
        VolumeEqualIff(sinkVolume, g.volume);
        var same := SameVolume(sinkVolume, g.volume);
        if sinkMuted != g.mute {
          sinkMuted := g.mute;
          Mark(SinkMute);
          changed := true;
        }
        if !same {
          sinkVolume := g.volume;
          Mark(SinkVol);
          changed := true;
        }
      }
    }

    method RefreshSource(source: Option<NodeInfo>) returns (changed: bool)
      requires updated < 16
      modifies this`sourceMuted, this`sourceVolume, this`updated
      ensures Value() == UpdateSource(old(Value()), source) && updated < 16
      ensures changed == old(Differs(sourceMuted, sourceVolume, source))
      ensures !changed ==> updated == old(updated)
    {
      hide VolumeEqual, HalfEqual, Pending;
      changed := false;
      if source.Some? {
        var g := source.value;
        VolumeEqualIff(sourceVolume, g.volume);
        var same := SameVolume(sourceVolume, g.volume);
        if sourceMuted != g.mute {
          sourceMuted := g.mute;
          Mark(SourceMute);
          changed := true;
        }
        if !same {
          sourceVolume := g.volume;
          Mark(SourceVol);
          changed := true;
        }
      }
    }

    method RefreshBoth(sink: Option<NodeInfo>, source: Option<NodeInfo>)
      requires Valid()
      modifies this
      ensures Valid()
      ensures Value() == UpdateVolume(old(Value()), sink, source)
    {
      hide UpdateSink, UpdateSource, Differs, Pending, VolumeEqual, HalfEqual;
      var changed := RefreshSink(sink);
      var more := RefreshSource(source);
      changed := changed || more;
      if changed {
        fd := fd + 1;
      }
    }

    /** pipewire_update_volume: the sink part, then the source part. */
    method RefreshVolume(sink: Option<NodeInfo>, source: Option<NodeInfo>)
      requires Valid()
      modifies this
      ensures Valid()
      ensures Value() == UpdateVolume(old(Value()), sink, source)
      ensures old(Pending(updated)) <= Pending(updated)
      ensures Refreshed(old(SinkCache(Value())), SinkCache(Value()), sink)
      ensures Refreshed(old(SourceCache(Value())), SourceCache(Value()), source)
    {
      hide Refreshed, UpdateVolume, Pending;
      UpdateRefreshesCache(Value(), sink, source);
      RefreshBoth(sink, source);
    }

    /** pipewire_read_event. */
    method NextEvent() returns (r: Result)
      requires Valid()
      modifies this`updated, this`fd, this`error
      ensures Valid()
      ensures (Value(), r) == ReadEvent(old(Value()))
      ensures r.Event? ==> r.bit in old(Pending(updated)) && Pending(updated) == old(Pending(updated)) - {r.bit}
      ensures r.Errno? ==>
                && updated == old(updated)
                && (r.code == old(error) < 0 || (r.code == -EAGAIN && (updated == 0 || !subscribed)))
      ensures fd == if updated == 0 then 0 else old(fd)
    {
      hide Pending;
      NoneSet(updated);
      ghost var c := Value();
      if error < 0 {
        r := Errno(error);
        error := 0;
      } else if updated == 0 || !subscribed {
        r := Errno(-EAGAIN);
      } else {
        var offset := if hasDefaultSource then 2 else 0;
        var sourceVol := Marked(SourceVol);
        var sourceMute := Marked(SourceMute);
        var sinkVol := Marked(SinkVol);
        ServesPending(c);
        var bit, at := SinkMute, offset + 1;
        if sourceVol {
          bit, at := SourceVol, 0;
        } else if sourceMute {
          bit, at := SourceMute, 1;
        } else if sinkVol {
          bit, at := SinkVol, offset;
        }
        Unmark(bit);
        r := Event(bit, ElementName(hasDefaultSource, at));
      }
      NoneSet(updated);
      if updated == 0 {
        fd := 0;
      }
    }
  }
}
