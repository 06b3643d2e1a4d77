/** The global store itself: `globals.descriptions` reassigned by the update
    path, the search loops, and the snapshots handed to callers. */
module MetadataObject {
  import opened Common
  import opened Metadata

  /** What jack_get_properties and jack_get_all_properties hand out. */
  datatype Snapshot = Snapshot(subject: nat, properties: seq<Property>)

  function SnapshotLookup(r: seq<Snapshot>, subject: nat, key: string): Option<(string, string)> {
    if r == [] then None
    else if r[0].subject == subject then FindIn(r[0].properties, key)
    else SnapshotLookup(r[1..], subject, key)
  }

  function FindIn(ps: seq<Property>, key: string): Option<(string, string)> {
    if ps == [] then None
    else if ps[0].key == key then Some((ps[0].data, ps[0].typ))
    else FindIn(ps[1..], key)
  }

  predicate Copies(d: Description, c: Snapshot) {
    && d.cnt <= |d.slots| && c.subject == d.subject && |c.properties| == d.cnt
    && forall i :: 0 <= i < d.cnt ==> d.slots[i] == Live(c.properties[i])
  }

  lemma {:induction false} FindInAgrees(slots: seq<Slot>, ps: seq<Property>, key: string)
    requires |slots| == |ps| && forall i :: 0 <= i < |ps| ==> slots[i] == Live(ps[i])
    ensures FindIn(ps, key)
            == var i := FindSlot(slots, key);
               if i < |slots| then Some((slots[i].p.data, slots[i].p.typ)) else None
  {
    if ps != [] { FindInAgrees(slots[1..], ps[1..], key); }
  }

  /** A snapshot of the whole store answers every lookup as the store does. */
  lemma {:induction false} SnapshotAgrees(s: Store, r: seq<Snapshot>, subject: nat, key: string)
    requires |r| == |s| && forall i :: 0 <= i < |s| ==> Copies(s[i], r[i])
    ensures SnapshotLookup(r, subject, key) == Lookup(s, subject, key)
  {
    if s != [] {
      if s[0].subject == subject {
        FindInAgrees(InUse(s[0]), r[0].properties, key);
      } else {
        SnapshotAgrees(s[1..], r[1..], subject, key);
      }
    }
  }

  /** The first `n` slots can be read. */
  predicate AllLive(d: Description, n: nat) {
    n <= |d.slots| && forall k :: 0 <= k < n ==> d.slots[k].Live?
  }

  /** The search of an update comes to its key, or to the end, without meeting
      a freed slot. */
  predicate Searchable(s: Store, u: Update)
    requires ArraysFit(s)
  {
    var i := FindDescription(s, u.subject);
    u.key.Some? && i < |s| ==> AllLive(s[i], FindSlot(InUse(s[i]), u.key.value))
  }

  /** Which allocations of one copy succeed: the array, and each property. */
  datatype CopyAlloc = CopyAlloc(room: bool, properties: seq<bool>)

  predicate Copyable(d: Description, a: CopyAlloc)
    requires d.cnt <= |a.properties|
  {
    a.room && forall i :: 0 <= i < d.cnt ==> a.properties[i]
  }

  class MetadataStore {
    var descriptions: Store

    constructor ()
      ensures descriptions == []
    {
      descriptions := [];
    }

    method FindDescriptionIndex(subject: nat) returns (i: nat)
      ensures i == FindDescription(descriptions, subject)
    {
      i := 0;
      while i < |descriptions|
        invariant i <= |descriptions|
        invariant forall j :: 0 <= j < i ==> descriptions[j].subject != subject
      {
        if descriptions[i].subject == subject {
          return;
        }
        i := i + 1;
      }
    }

    /** find_property; it meets no freed slot. */
    method FindPropertyIndex(d: Description, key: string) returns (j: nat)
      requires d.cnt <= |d.slots| && AllLive(d, FindSlot(InUse(d), key))
      ensures j == FindSlot(InUse(d), key)
    {
      ghost var at := FindSlot(InUse(d), key);
      j := 0;
      while j < d.cnt
        invariant j <= at <= d.cnt
      {
        assert j == at ==> SlotHas(InUse(d)[j], key);
        assert j < at ==> !SlotHas(InUse(d)[j], key);
        if d.slots[j].p.key == key {
          return;
        }
        j := j + 1;
      }
    }

    /** update_property. A failing allocation leaves what was done so far. */
    method UpdateProperty(u: Update) returns (note: Option<Note>, failed: bool)
      requires ArraysFit(descriptions) && Searchable(descriptions, u)
      modifies this
      ensures Outcome(descriptions, note, failed) == Apply(old(descriptions), u)
    {
      note, failed := None, false;
      var i := FindDescriptionIndex(u.subject);
      if u.key.None? {
        if i < |descriptions| {
          descriptions := RemoveDescription(descriptions, i);
          note := Some(Deleted(u.subject, None));
        }
      } else {
        var key := u.key.value;
        var j, found := 0, false;
        if i < |descriptions| {
          j := FindPropertyIndex(descriptions[i], key);
          found := j < descriptions[i].cnt;
        }
        if u.value.None? || u.typ.None? {
          if found {
            descriptions := RemoveProperty(descriptions, i, j);
            note := Some(Deleted(u.subject, Some(key)));
          }
        } else if !found {
          note, failed := Create(i, u, Property(key, u.value.value, u.typ.value));
        } else {
          var (p, changed, err) := ChangeProperty(descriptions[i].slots[j].p, u.value.value, u.typ.value, u.alloc);
          descriptions := descriptions[i := descriptions[i].(slots := descriptions[i].slots[j := Live(p)])];
          note := if changed then Some(Changed(u.subject, key)) else None;
          failed := err;
        }
      }
    }

    /** add_description if needed, then add_property. */
    method Create(i: nat, u: Update, p: Property) returns (note: Option<Note>, failed: bool)
      requires ArraysFit(descriptions) && i == FindDescription(descriptions, u.subject)
      modifies this
      ensures Outcome(descriptions, note, failed) == CreateProperty(old(descriptions), u, p)
    {
      if i == |descriptions| {
        if !u.alloc.description {
          return None, true;
        }
        descriptions := descriptions + [Description(u.subject, [], 0)];
      }
      var (d, ok) := AddProperty(descriptions[i], p, u.alloc);
      descriptions := descriptions[i := d];
      note := if ok then Some(Created(u.subject, p.key)) else None;
      failed := !ok;
    }

    /** copy_properties of properties that can be read. */
    method CopyProperties(d: Description, alloc: CopyAlloc) returns (r: Option<seq<Property>>)
      requires d.cnt <= |d.slots| && AllLive(d, d.cnt) && d.cnt <= |alloc.properties|
      ensures r.Some? <==> Copyable(d, alloc)
      ensures r.Some? ==> Copies(d, Snapshot(d.subject, r.value))
    {
      if !alloc.room {
        return None;
      }
      var dst := [];
      for i := 0 to d.cnt
        invariant |dst| == i
        invariant forall k :: 0 <= k < i ==> alloc.properties[k]
        invariant forall k :: 0 <= k < i ==> d.slots[k] == Live(dst[k])
      {
        if !alloc.properties[i] {
          return None;
        }
        dst := dst + [d.slots[i].p];
      }
      r := Some(dst);
    }

    /** jack_get_all_properties: all copies, or none. */
    method GetAllProperties(room: bool, alloc: seq<CopyAlloc>) returns (r: Option<seq<Snapshot>>)
      requires ArraysFit(descriptions) && |alloc| == |descriptions|
      requires forall i :: 0 <= i < |descriptions| ==> AllLive(descriptions[i], descriptions[i].cnt)
      requires forall i :: 0 <= i < |descriptions| ==> descriptions[i].cnt <= |alloc[i].properties|
      ensures r.Some? <==> room && forall i :: 0 <= i < |descriptions| ==> Copyable(descriptions[i], alloc[i])
      ensures r.Some? ==> |r.value| == |descriptions|
      ensures r.Some? ==> forall i :: 0 <= i < |descriptions| ==> Copies(descriptions[i], r.value[i])
      ensures r.Some? ==>
                forall subject, key :: SnapshotLookup(r.value, subject, key) == Lookup(descriptions, subject, key)
    {
      hide Copyable;
      if !room {
        return None;
      }
      var dst := [];
      for i := 0 to |descriptions|
        invariant |dst| == i
        invariant forall k :: 0 <= k < i ==> Copyable(descriptions[k], alloc[k])
        invariant forall k :: 0 <= k < i ==> Copies(descriptions[k], dst[k])
      {
        var c := CopyProperties(descriptions[i], alloc[i]);
        if c.None? {
          return None;
        }
        dst := dst + [Snapshot(descriptions[i].subject, c.value)];
      }
      forall subject, key ensures SnapshotLookup(dst, subject, key) == Lookup(descriptions, subject, key) {
        SnapshotAgrees(descriptions, dst, subject, key);
      }
      r := Some(dst);
    }
  }
}
