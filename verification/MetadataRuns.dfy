/** Every run of updates of the metadata store: it refines a map from
    (subject, key) to (value, type), and its notifications reconstruct the key
    set, as long as single deletions hit a first or last slot. */
module MetadataRuns {
  import opened Bits
  import opened Common
  import opened Metadata

  type Table = map<(nat, string), (string, string)>

  function Entry(m: Table, subject: nat, key: string): Option<(string, string)> {
    if (subject, key) in m then Some(m[(subject, key)]) else None
  }

  ghost predicate Refines(s: Store, m: Table) {
    && StoreInv(s)
    && forall subject, key :: Lookup(s, subject, key) == Entry(m, subject, key)
  }

  /** A single deletion finds its key in the first or last slot in use. */
  predicate DeletesAtEnd(s: Store, u: Update)
    requires ArraysFit(s)
  {
    u.key.Some? && (u.value.None? || u.typ.None?) ==>
      var i := FindDescription(s, u.subject);
      i < |s| ==>
        var j := FindSlot(InUse(s[i]), u.key.value);
        j < s[i].cnt ==> j == 0 || j == s[i].cnt - 1
  }

  /** What the update should do to the table. A creation that ran out of memory
      does nothing; a change may have replaced the value but not the type. */
  function NextTable(m: Table, u: Update, created: bool): Table {
    match u.key
    case None => map k | k in m && k.0 != u.subject :: m[k]
    case Some(key) =>
      var at := (u.subject, key);
      if u.value.None? || u.typ.None? then m - {at}
      else if at in m then
        if m[at].0 != u.value.value && !u.alloc.value then m
        else if m[at].1 != u.typ.value && !u.alloc.typ then m[at := (u.value.value, m[at].1)]
        else m[at := (u.value.value, u.typ.value)]
      else if created then m[at := (u.value.value, u.typ.value)]
      else m
  }

  // ---------------------------------------------------------------------
  // Lookups after changing the array of descriptions

  lemma LookupAt(s: Store, i: nat, key: string)
    requires StoreInv(s) && i < |s|
    ensures FindDescription(s, s[i].subject) == i
    ensures Lookup(s, s[i].subject, key) == LookupProperty(s[i], key)
  {
  }

  lemma LookupAbsent(s: Store, subject: nat, key: string)
    requires forall i :: 0 <= i < |s| ==> s[i].subject != subject
    ensures FindDescription(s, subject) == |s| && Lookup(s, subject, key) == None
  {
  }

  lemma RemovedInv(s: Store, i: nat)
    requires StoreInv(s) && i < |s|
    ensures var r := RemoveDescription(s, i);
            && StoreInv(r)
            && |r| == |s| - 1
            && forall k :: 0 <= k < |r| ==> r[k] == s[if k < i then k else k + 1]
  {
    hide Sound;
  }

  lemma LookupRemoved(s: Store, i: nat, subject: nat, key: string)
    requires StoreInv(s) && i < |s|
    ensures StoreInv(RemoveDescription(s, i))
    ensures Lookup(RemoveDescription(s, i), subject, key)
            == if subject == s[i].subject then None else Lookup(s, subject, key)
  {
    hide Lookup, LookupProperty, RemoveDescription, Sound;
    RemovedInv(s, i);
    var r := RemoveDescription(s, i);
    var f := FindDescription(s, subject);
    if f == |s| || subject == s[i].subject {
      LookupAbsent(r, subject, key);
      if f == |s| { LookupAbsent(s, subject, key); }
    } else {
      LookupAt(s, f, key);
      LookupAt(r, if f < i then f else f - 1, key);
    }
  }

  lemma LookupReplaced(s: Store, i: nat, d: Description, subject: nat, key: string)
    requires StoreInv(s) && i < |s| && Sound(d) && d.subject == s[i].subject
    ensures StoreInv(s[i := d])
    ensures Lookup(s[i := d], subject, key)
            == if subject == d.subject then LookupProperty(d, key) else Lookup(s, subject, key)
  {
    var r := s[i := d];
    var f := FindDescription(s, subject);
    if f == |s| {
      LookupAbsent(r, subject, key);
    } else {
      LookupAt(s, f, key);
      LookupAt(r, f, key);
    }
  }

  lemma LookupAdded(s: Store, d: Description, subject: nat, key: string)
    requires StoreInv(s) && Sound(d) && FindDescription(s, d.subject) == |s|
    ensures StoreInv(s + [d])
    ensures Lookup(s + [d], subject, key)
            == if subject == d.subject then LookupProperty(d, key) else Lookup(s, subject, key)
  {
    var r := s + [d];
    var f := FindDescription(s, subject);
    if subject == d.subject {
      LookupAt(r, |s|, key);
    } else if f == |s| {
      LookupAbsent(r, subject, key);
    } else {
      LookupAt(s, f, key);
      LookupAt(r, f, key);
    }
  }

  // ---------------------------------------------------------------------
  // Lookups after changing one description

  lemma FindWithOneMore(x: seq<Slot>, p: Property, key: string)
    requires UniqueKeys(x) && FindSlot(x, p.key) == |x|
    ensures var y := x + [Live(p)];
            && UniqueKeys(y)
            && FindSlot(y, key)
               == if key == p.key then |x| else if FindSlot(x, key) < |x| then FindSlot(x, key) else |y|
  {
    var y := x + [Live(p)];
    assert forall k :: 0 <= k < |x| ==> !SlotHas(x[k], p.key) && x[k].Live?;
    if key == p.key {
      FindsIt(y, |x|);
    } else if FindSlot(x, key) < |x| {
      FindsIt(y, FindSlot(x, key));
    } else {
      NotFound(y, key);
    }
  }

  lemma AddedProperty(d: Description, p: Property, a: Alloc, key: string)
    requires Sound(d) && FindSlot(InUse(d), p.key) == d.cnt
    ensures var (r, ok) := AddProperty(d, p, a);
            && Sound(r) && r.subject == d.subject
            && LookupProperty(r, key) == if ok && key == p.key then Some((p.data, p.typ)) else LookupProperty(d, key)
  {
    var (r, ok) := AddProperty(d, p, a);
    if ok {
      assert InUse(r) == InUse(d) + [Live(p)];
      FindWithOneMore(InUse(d), p, key);
    } else {
      assert InUse(r) == InUse(d);
    }
  }

  lemma ReplacedProperty(d: Description, j: nat, p: Property, key: string)
    requires Sound(d) && j < d.cnt && p.key == d.slots[j].p.key
    ensures var r := d.(slots := d.slots[j := Live(p)]);
            && Sound(r)
            && LookupProperty(r, key) == if key == p.key then Some((p.data, p.typ)) else LookupProperty(d, key)
  {
    var r := d.(slots := d.slots[j := Live(p)]);
    var x, y := InUse(d), InUse(r);
    assert y == x[j := Live(p)];
    assert forall k :: 0 <= k < |x| ==> x[k].Live? && y[k].Live? && x[k].p.key == y[k].p.key;
    var f := FindSlot(x, key);
    if f < |x| {
      FindsIt(x, f);
      FindsIt(y, f);
      if key == p.key { FindsIt(x, j); }
    } else {
      NotFound(y, key);
    }
  }

  // ---------------------------------------------------------------------
  // One update

  lemma DeleteAllStep(s: Store, m: Table, u: Update)
    requires Refines(s, m) && ArraysFit(s) && u.key.None?
    ensures Refines(Apply(s, u).store, NextTable(m, u, false))
  {
    hide Lookup, StoreInv, RemoveDescription;
    var i, m' := FindDescription(s, u.subject), NextTable(m, u, false);
    var r := Apply(s, u).store;
    if i < |s| { LookupRemoved(s, i, 0, ""); }
    forall subject, key ensures Lookup(r, subject, key) == Entry(m', subject, key) {
      assert Lookup(s, subject, key) == Entry(m, subject, key);
      if i < |s| {
        LookupRemoved(s, i, subject, key);
      } else if subject == u.subject {
        LookupAbsent(s, subject, key);
      }
    }
  }

  lemma DeleteOneStep(s: Store, m: Table, u: Update)
    requires Refines(s, m) && ArraysFit(s) && u.key.Some? && (u.value.None? || u.typ.None?) && DeletesAtEnd(s, u)
    ensures Refines(Apply(s, u).store, NextTable(m, u, false))
  {
    hide Lookup, LookupProperty, RemoveDescription, RemoveSlot;
    var i, k, m' := FindDescription(s, u.subject), u.key.value, NextTable(m, u, false);
    var r := Apply(s, u).store;
    if i < |s| && FindSlot(InUse(s[i]), k) < s[i].cnt {
      var j := FindSlot(InUse(s[i]), k);
      var d := RemoveSlot(s[i], j);
      DeleteLawIff(s[i], j);
      assert d.subject == s[i].subject && s[i].slots[j].p.key == k;
      LookupRemoved(s, i, 0, "");
      LookupReplaced(s, i, d, 0, "");
      forall subject, key ensures Lookup(r, subject, key) == Entry(m', subject, key) {
        assert Lookup(s, subject, key) == Entry(m, subject, key);
        LookupAt(s, i, key);
        assert LookupProperty(d, key) == if key == k then None else LookupProperty(s[i], key);
        if d.cnt == 0 {
          LookupRemoved(s, i, subject, key);
          EmptyDescription(d, key);
        } else {
          LookupReplaced(s, i, d, subject, key);
        }
      }
    } else {
      AbsentKey(s, u.subject, k);
      assert (u.subject, k) !in m by { assert Lookup(s, u.subject, k) == Entry(m, u.subject, k); }
      assert m' == m;
    }
  }

  lemma EmptyDescription(d: Description, key: string)
    requires d.cnt == 0
    ensures LookupProperty(d, key) == None
  {
  }

  lemma AbsentKey(s: Store, subject: nat, key: string)
    requires StoreInv(s)
    ensures var i := FindDescription(s, subject);
            (Lookup(s, subject, key) == None <==> i == |s| || FindSlot(InUse(s[i]), key) >= s[i].cnt)
  {
  }

  lemma CreateStep(s: Store, m: Table, u: Update)
    requires Refines(s, m) && ArraysFit(s) && u.key.Some? && u.value.Some? && u.typ.Some?
    requires (u.subject, u.key.value) !in m
    ensures Apply(s, u) == CreateProperty(s, u, Property(u.key.value, u.value.value, u.typ.value))
    ensures Refines(Apply(s, u).store, NextTable(m, u, Apply(s, u).note.Some?))
  {
    hide Lookup, LookupProperty, AddProperty;
    var i, k := FindDescription(s, u.subject), u.key.value;
    var p := Property(k, u.value.value, u.typ.value);
    assert Lookup(s, u.subject, k) == Entry(m, u.subject, k) == None;
    AbsentKey(s, u.subject, k);
    var out := CreateProperty(s, u, p);
    var m' := NextTable(m, u, out.note.Some?);
    var d0 := if i == |s| then Description(u.subject, [], 0) else s[i];
    if i < |s| || u.alloc.description {
      var (d, ok) := AddProperty(d0, p, u.alloc);
      AddedProperty(d0, p, u.alloc, "");
      if i < |s| {
        assert out.store == s[i := d];
        LookupReplaced(s, i, d, 0, "");
      } else {
        assert out.store == s + [d];
        LookupAdded(s, d, 0, "");
      }
      forall subject, key ensures Lookup(out.store, subject, key) == Entry(m', subject, key) {
        assert Lookup(s, subject, key) == Entry(m, subject, key);
        AddedProperty(d0, p, u.alloc, key);
        if i < |s| {
          LookupReplaced(s, i, d, subject, key);
          LookupAt(s, i, key);
        } else {
          LookupAdded(s, d, subject, key);
          LookupAbsent(s, u.subject, key);
          EmptyDescription(d0, key);
        }
      }
    }
  }

  /** A key of the table is found, with its value and type. */
  lemma Located(s: Store, m: Table, subject: nat, key: string)
    requires Refines(s, m) && (subject, key) in m
    ensures var i := FindDescription(s, subject);
            && i < |s| && Sound(s[i])
            && var j := FindSlot(InUse(s[i]), key);
               j < s[i].cnt && s[i].slots[j] == Live(Property(key, m[(subject, key)].0, m[(subject, key)].1))
  {
    hide Lookup, LookupProperty;
    assert Lookup(s, subject, key) == Entry(m, subject, key);
    AbsentKey(s, subject, key);
    var i := FindDescription(s, subject);
    LookupAt(s, i, key);
    FoundProperty(s[i], key);
  }

  lemma FoundProperty(d: Description, key: string)
    requires d.cnt <= |d.slots| && LookupProperty(d, key).Some?
    ensures var j, found := FindSlot(InUse(d), key), LookupProperty(d, key).value;
            j < d.cnt && d.slots[j] == Live(Property(key, found.0, found.1))
  {
    var j := FindSlot(InUse(d), key);
    assert SlotHas(InUse(d)[j], key) && InUse(d)[j] == d.slots[j];
  }

  /** change_property does to the property what the table has done to it. */
  lemma ChangeMatches(m: Table, u: Update)
    requires u.key.Some? && u.value.Some? && u.typ.Some? && (u.subject, u.key.value) in m
    ensures var at := (u.subject, u.key.value);
            var (p, changed, failed) :=
              ChangeProperty(Property(u.key.value, m[at].0, m[at].1), u.value.value, u.typ.value, u.alloc);
            var m' := NextTable(m, u, false);
            && p.key == u.key.value && m' == m[at := (p.data, p.typ)]
            && (failed <==> m'[at] != (u.value.value, u.typ.value))
            && (changed <==> m[at] != (u.value.value, u.typ.value) && !failed)
  {
    var at := (u.subject, u.key.value);
    assert m == m[at := m[at]];
  }

  lemma ChangeStep(s: Store, m: Table, u: Update)
    requires Refines(s, m) && ArraysFit(s) && u.key.Some? && u.value.Some? && u.typ.Some?
    requires (u.subject, u.key.value) in m
    ensures Refines(Apply(s, u).store, NextTable(m, u, false))
    ensures var at := (u.subject, u.key.value);
            var differs := m[at] != (u.value.value, u.typ.value);
            && (Apply(s, u).failed <==> NextTable(m, u, false)[at] != (u.value.value, u.typ.value))
            && Apply(s, u).note
               == if differs && !Apply(s, u).failed then Some(Changed(u.subject, u.key.value)) else None
  {
    hide Lookup, LookupProperty, ChangeProperty, NextTable, Sound;
    var i, k, m' := FindDescription(s, u.subject), u.key.value, NextTable(m, u, false);
    Located(s, m, u.subject, k);
    ChangeMatches(m, u);
    var j := FindSlot(InUse(s[i]), k);
    var p := ChangeProperty(s[i].slots[j].p, u.value.value, u.typ.value, u.alloc).0;
    var d := s[i].(slots := s[i].slots[j := Live(p)]);
    ReplacedProperty(s[i], j, p, "");
    LookupReplaced(s, i, d, 0, "");
    forall subject, key ensures Lookup(s[i := d], subject, key) == Entry(m', subject, key) {
      assert Lookup(s, subject, key) == Entry(m, subject, key);
      ReplacedProperty(s[i], j, p, key);
      LookupReplaced(s, i, d, subject, key);
      LookupAt(s, i, key);
    }
  }

  /** A creation takes place exactly if the description exists or could be
      allocated, its array has room or could grow, and the property could be
      allocated; otherwise it fails, and only then. */
  lemma CreatedIff(s: Store, m: Table, u: Update)
    requires Refines(s, m) && ArraysFit(s) && u.key.Some? && u.value.Some? && u.typ.Some?
    requires (u.subject, u.key.value) !in m
    ensures var i, out := FindDescription(s, u.subject), Apply(s, u);
            && (out.note.Some? <==>
                  && (i < |s| || u.alloc.description)
                  && ((i < |s| && s[i].cnt < |s[i].slots|) || u.alloc.grow)
                  && u.alloc.property)
            && (out.note.Some? ==> out.note == Some(Created(u.subject, u.key.value)))
            && (out.failed <==> out.note.None?)
  {
    hide Lookup, LookupProperty, Refines;
    CreateStep(s, m, u);
  }

  /** A change fails exactly if a string that differs could not be allocated. */
  lemma ChangeFailsIff(s: Store, m: Table, u: Update)
    requires Refines(s, m) && ArraysFit(s) && u.key.Some? && u.value.Some? && u.typ.Some?
    requires (u.subject, u.key.value) in m
    ensures var had := m[(u.subject, u.key.value)];
            Apply(s, u).failed <==>
              (had.0 != u.value.value && !u.alloc.value) || (had.1 != u.typ.value && !u.alloc.typ)
  {
    hide Lookup, LookupProperty, Refines;
    Located(s, m, u.subject, u.key.value);
  }

  /** What an update of end slots leaves a lookup to find: other keys as they were;
      nothing after a deletion; the new pair unless the update failed; and after
      a failed one the old pair, or the new value with the old type. */
  lemma LookupAfter(s: Store, m: Table, u: Update, subject: nat, key: string)
    requires Refines(s, m) && ArraysFit(s) && DeletesAtEnd(s, u)
    ensures var was, out := Lookup(s, subject, key), Apply(s, u);
            Lookup(out.store, subject, key)
            == if subject != u.subject || (u.key.Some? && key != u.key.value) then was
               else if u.key.None? || u.value.None? || u.typ.None? then None
               else if !out.failed then Some((u.value.value, u.typ.value))
               else if was.Some? && (u.alloc.value || was.value.0 == u.value.value) then
                 Some((u.value.value, was.value.1))
               else was
  {
    AtEndStep(s, m, u);
    if u.key.Some? && u.value.Some? && u.typ.Some? {
      if (u.subject, u.key.value) in m {
        ChangeFailsIff(s, m, u);
      } else {
        CreatedIff(s, m, u);
      }
    }
    hide Apply, StoreInv, Lookup;
    assert Lookup(s, subject, key) == Entry(m, subject, key);
    var m' := NextTable(m, u, Apply(s, u).note.Some?);
    assert Lookup(Apply(s, u).store, subject, key) == Entry(m', subject, key);
  }

  lemma AtEndStep(s: Store, m: Table, u: Update)
    requires Refines(s, m) && ArraysFit(s) && DeletesAtEnd(s, u)
    ensures Refines(Apply(s, u).store, NextTable(m, u, Apply(s, u).note.Some?))
  {
    hide Refines, Apply;
    if u.key.None? {
      DeleteAllStep(s, m, u);
    } else if u.value.None? || u.typ.None? {
      DeleteOneStep(s, m, u);
    } else if (u.subject, u.key.value) in m {
      ChangeStep(s, m, u);
    } else {
      CreateStep(s, m, u);
    }
  }

  lemma MiddleStep(s: Store, m: Table, u: Update)
    requires Refines(s, m) && ArraysFit(s) && !DeletesAtEnd(s, u)
    ensures !Refines(Apply(s, u).store, NextTable(m, u, Apply(s, u).note.Some?))
  {
    hide RemoveSlot, RemoveDescription;
    var i, k := FindDescription(s, u.subject), u.key.value;
    var j := FindSlot(InUse(s[i]), k);
    var d, first := RemoveSlot(s[i], j), s[i].slots[0].p.key;
    MiddleLosesFirst(s[i], j);
    var r := s[i := d];
    assert Apply(s, u).store == r;
    assert forall n :: 0 <= n < |s| ==> r[n].subject == s[n].subject;
    var f := FindDescription(r, u.subject);
    assert f == i by { assert f <= i; }
    assert Lookup(r, u.subject, first) == None;
    FindsIt(InUse(s[i]), 0);
    LookupAt(s, i, first);
    assert Lookup(s, u.subject, first) == Entry(m, u.subject, first);
    assert InUse(s[i])[0].p.key != InUse(s[i])[j].p.key;
    assert Entry(NextTable(m, u, true), u.subject, first).Some?;
  }

  /** One update keeps the store a faithful map if and only if it does not
      delete a middle slot. */
  lemma StepRefinesIff(s: Store, m: Table, u: Update)
    requires Refines(s, m)
    ensures ArraysFit(s)
    ensures Refines(Apply(s, u).store, NextTable(m, u, Apply(s, u).note.Some?)) <==> DeletesAtEnd(s, u)
  {
    assert ArraysFit(s);
    hide Refines, Apply, NextTable, DeletesAtEnd;
    if DeletesAtEnd(s, u) {
      AtEndStep(s, m, u);
    } else {
      MiddleStep(s, m, u);
    }
  }

  // ---------------------------------------------------------------------
  // Notifications

  /** What a listener concludes about the key set from one notification. */
  function Replay(keys: set<(nat, string)>, note: Option<Note>): set<(nat, string)> {
    match note
    case None => keys
    case Some(Created(subject, key)) => keys + {(subject, key)}
    case Some(Changed(_, _)) => keys
    case Some(Deleted(subject, Some(key))) => keys - {(subject, key)}
    case Some(Deleted(subject, None)) => set k | k in keys && k.0 != subject
  }

  lemma NotesTrackAll(s: Store, m: Table, u: Update)
    requires Refines(s, m) && ArraysFit(s) && u.key.None?
    ensures Replay(m.Keys, Apply(s, u).note) == NextTable(m, u, Apply(s, u).note.Some?).Keys
  {
    hide Lookup, RemoveDescription;
    if FindDescription(s, u.subject) == |s| {
      forall k | k in m ensures k.0 != u.subject {
        assert Lookup(s, k.0, k.1) == Entry(m, k.0, k.1);
        if k.0 == u.subject { LookupAbsent(s, k.0, k.1); }
      }
    }
  }

  lemma NotesTrackOne(s: Store, m: Table, u: Update)
    requires Refines(s, m) && ArraysFit(s) && u.key.Some? && (u.value.None? || u.typ.None?)
    ensures Replay(m.Keys, Apply(s, u).note) == NextTable(m, u, Apply(s, u).note.Some?).Keys
  {
    hide Lookup, RemoveProperty, FindSlot;
    assert Lookup(s, u.subject, u.key.value) == Entry(m, u.subject, u.key.value);
    AbsentKey(s, u.subject, u.key.value);
  }

  /** What a notification says happened to the keys is what happened. */
  lemma NotesTrackKeys(s: Store, m: Table, u: Update)
    requires Refines(s, m) && ArraysFit(s)
    ensures Replay(m.Keys, Apply(s, u).note) == NextTable(m, u, Apply(s, u).note.Some?).Keys
  {
    if u.key.None? {
      NotesTrackAll(s, m, u);
    } else if u.value.None? || u.typ.None? {
      NotesTrackOne(s, m, u);
    } else if (u.subject, u.key.value) in m {
      hide Apply, Refines;
      ChangeStep(s, m, u);
    } else {
      hide Refines, AddProperty;
      CreateStep(s, m, u);
    }
  }

  /** The table changes without a notification exactly when the new value was
      stored and then the new type could not be. */
  lemma SilentChangeIff(s: Store, m: Table, u: Update)
    requires Refines(s, m) && ArraysFit(s)
    ensures NextTable(m, u, Apply(s, u).note.Some?) != m && Apply(s, u).note.None?
            <==> && u.key.Some? && u.value.Some? && u.typ.Some? && (u.subject, u.key.value) in m
                 && m[(u.subject, u.key.value)].0 != u.value.value && u.alloc.value
                 && m[(u.subject, u.key.value)].1 != u.typ.value && !u.alloc.typ
  {
    NotesTrackKeys(s, m, u);
    if u.key.Some? && u.value.Some? && u.typ.Some? && (u.subject, u.key.value) in m {
      ChangeStep(s, m, u);
      hide Apply, Refines;
      var at := (u.subject, u.key.value);
      assert m[at := m[at]] == m;
    } else {
      hide Apply, Refines;
      var m' := NextTable(m, u, Apply(s, u).note.Some?);
      if Apply(s, u).note.None? {
        assert m'.Keys == m.Keys;
        assert m' == m;
      }
    }
  }

  // ---------------------------------------------------------------------
  // Sizes

  /** A property array is unallocated or holds 8 * 2^k slots. */
  predicate SizeOk(n: nat) {
    n == 0 || (n % 8 == 0 && IsPow2(n / 8))
  }

  ghost predicate SizesOk(s: Store) {
    forall i :: 0 <= i < |s| ==> s[i].cnt <= |s[i].slots| && SizeOk(|s[i].slots|)
  }

  /** A full array that can grow has twice the room afterwards, or 8, even if the
      property could not be stored; otherwise its size stays. */
  lemma AddGrows(d: Description, p: Property, a: Alloc)
    requires d.cnt <= |d.slots|
    ensures var r := AddProperty(d, p, a).0;
            |r.slots| == if d.cnt < |d.slots| || !a.grow then |d.slots| else if |d.slots| == 0 then 8 else 2 * |d.slots|
  {
  }

  lemma AddKeepsSize(d: Description, p: Property, a: Alloc)
    requires d.cnt <= |d.slots| && SizeOk(|d.slots|)
    ensures var r := AddProperty(d, p, a).0; r.cnt <= |r.slots| && SizeOk(|r.slots|)
  {
  }

  /** Counts stay within sizes and sizes stay 0 or 8 * 2^k, whatever is deleted
      and whatever allocation fails. */
  lemma StepKeepsSizes(s: Store, u: Update)
    requires SizesOk(s)
    ensures ArraysFit(s) && SizesOk(Apply(s, u).store)
  {
    hide SizeOk, ChangeProperty, AddProperty, RemoveSlot, RemoveDescription;
    assert ArraysFit(s);
    var i := FindDescription(s, u.subject);
    SizeZero();
    if u.key.None? {
      if i < |s| { DropKeepsSizes(s, i); }
    } else {
      var j := if i < |s| then FindSlot(InUse(s[i]), u.key.value) else 0;
      var found := i < |s| && j < s[i].cnt;
      if u.value.None? || u.typ.None? {
        if found {
          DropKeepsSizes(s, i);
          ReplaceKeepsSizes(s, i, RemoveSlot(s[i], j));
        }
      } else if found {
        var p := ChangeProperty(s[i].slots[j].p, u.value.value, u.typ.value, u.alloc).0;
        ReplaceKeepsSizes(s, i, s[i].(slots := s[i].slots[j := Live(p)]));
      } else {
        CreateKeepsSizes(s, u, Property(u.key.value, u.value.value, u.typ.value));
      }
    }
  }

  lemma CreateKeepsSizes(s: Store, u: Update, p: Property)
    requires SizesOk(s) && ArraysFit(s)
    ensures SizesOk(CreateProperty(s, u, p).store)
  {
    hide SizeOk, AddProperty;
    SizeZero();
    var i := FindDescription(s, u.subject);
    AddKeepsSize(if i < |s| then s[i] else Description(u.subject, [], 0), p, u.alloc);
  }

  lemma ReplaceKeepsSizes(s: Store, i: nat, d: Description)
    requires SizesOk(s) && i < |s| && d.cnt <= |d.slots| && SizeOk(|d.slots|)
    ensures SizesOk(s[i := d])
  {
    hide SizeOk;
  }

  lemma DropKeepsSizes(s: Store, i: nat)
    requires SizesOk(s) && i < |s|
    ensures SizesOk(RemoveDescription(s, i))
  {
  }

  lemma SizeZero()
    ensures SizeOk(0)
  {
  }

  // ---------------------------------------------------------------------
  // Runs

  ghost predicate IsRun(stores: seq<Store>, us: seq<Update>) {
    && |stores| == |us| + 1 && stores[0] == []
    && forall i :: 0 <= i < |us| ==> ArraysFit(stores[i]) && stores[i + 1] == Apply(stores[i], us[i]).store
  }

  ghost predicate SafeRun(stores: seq<Store>, us: seq<Update>) {
    && IsRun(stores, us)
    && forall i :: 0 <= i < |us| ==> DeletesAtEnd(stores[i], us[i])
  }

  /** The table and the replayed key set after `n` updates. */
  ghost function TableAfter(stores: seq<Store>, us: seq<Update>, n: nat): Table
    requires IsRun(stores, us) && n <= |us|
  {
    if n == 0 then map[]
    else NextTable(TableAfter(stores, us, n - 1), us[n - 1], Apply(stores[n - 1], us[n - 1]).note.Some?)
  }

  ghost function KeysAfter(stores: seq<Store>, us: seq<Update>, n: nat): set<(nat, string)>
    requires IsRun(stores, us) && n <= |us|
  {
    if n == 0 then {}
    else Replay(KeysAfter(stores, us, n - 1), Apply(stores[n - 1], us[n - 1]).note)
  }

  /** Over every run, whatever is deleted and whatever allocation fails, counts
      stay within sizes and sizes stay 0 or 8 * 2^k. */
  lemma {:induction false} RunKeepsSizes(stores: seq<Store>, us: seq<Update>, n: nat)
    requires IsRun(stores, us) && n <= |us|
    ensures SizesOk(stores[n])
  {
    hide Apply;
    if n > 0 {
      RunKeepsSizes(stores, us, n - 1);
      StepKeepsSizes(stores[n - 1], us[n - 1]);
    }
  }

  /** Over every run whose single deletions hit end slots, with any allocation
      failures, the arrays are the map: unique subjects and keys, counts within
      sizes, and every lookup agrees. */
  lemma {:induction false} RunRefinesMap(stores: seq<Store>, us: seq<Update>, n: nat)
    requires SafeRun(stores, us) && n <= |us|
    ensures Refines(stores[n], TableAfter(stores, us, n))
  {
    hide Apply, NextTable, DeletesAtEnd;
    if n == 0 {
      forall subject, key ensures Lookup(stores[0], subject, key) == None { LookupAbsent([], subject, key); }
    } else {
      hide Refines;
      RunRefinesMap(stores, us, n - 1);
      AtEndStep(stores[n - 1], TableAfter(stores, us, n - 1), us[n - 1]);
    }
  }

  lemma {:induction false} ReplayIsKeys(stores: seq<Store>, us: seq<Update>, n: nat)
    requires SafeRun(stores, us) && n <= |us|
    ensures KeysAfter(stores, us, n) == TableAfter(stores, us, n).Keys
  {
    hide Apply, NextTable, DeletesAtEnd, Refines, Replay;
    if n > 0 {
      ReplayIsKeys(stores, us, n - 1);
      RunRefinesMap(stores, us, n - 1);
      NotesTrackKeys(stores[n - 1], TableAfter(stores, us, n - 1), us[n - 1]);
    }
  }

  /** Replaying the notifications gives exactly the keys a lookup finds. */
  lemma NotesReconstructKeys(stores: seq<Store>, us: seq<Update>, n: nat, subject: nat, key: string)
    requires SafeRun(stores, us) && n <= |us|
    ensures (subject, key) in KeysAfter(stores, us, n) <==> Lookup(stores[n], subject, key).Some?
  {
    hide Apply, NextTable, DeletesAtEnd, Lookup;
    RunRefinesMap(stores, us, n);
    ReplayIsKeys(stores, us, n);
    assert Lookup(stores[n], subject, key) == Entry(TableAfter(stores, us, n), subject, key);
  }

  // ---------------------------------------------------------------------
  // What one client is told

  /** What client `c` concludes: only the client whose update it was is told. */
  ghost function ViewAfter(stores: seq<Store>, us: seq<Update>, who: seq<nat>, c: nat, n: nat): set<(nat, string)>
    requires IsRun(stores, us) && |who| == |us| && n <= |us|
  {
    if n == 0 then {}
    else
      var view := ViewAfter(stores, us, who, c, n - 1);
      if who[n - 1] == c then Replay(view, Apply(stores[n - 1], us[n - 1]).note) else view
  }

  /** Update `i` was the client's own, or left the set of keys as it was. */
  ghost predicate Told(stores: seq<Store>, us: seq<Update>, who: seq<nat>, c: nat, i: nat)
    requires IsRun(stores, us) && |who| == |us| && i < |us|
  {
    who[i] == c || KeysAfter(stores, us, i + 1) == KeysAfter(stores, us, i)
  }

  ghost predicate UpToDate(stores: seq<Store>, us: seq<Update>, who: seq<nat>, c: nat, i: nat)
    requires IsRun(stores, us) && |who| == |us| && i <= |us|
  {
    ViewAfter(stores, us, who, c, i) == KeysAfter(stores, us, i)
  }

  /** A client with an up-to-date view stays so exactly if it is told. */
  lemma UpToDateStep(stores: seq<Store>, us: seq<Update>, who: seq<nat>, c: nat, i: nat)
    requires IsRun(stores, us) && |who| == |us| && i < |us| && UpToDate(stores, us, who, c, i)
    ensures UpToDate(stores, us, who, c, i + 1) <==> Told(stores, us, who, c, i)
  {
    hide Apply, Replay;
  }

  /** A client's notifications alone give it the key set at all times if and only
      if every update that changed the set was its own. */
  lemma {:induction false} ClientViewIff(stores: seq<Store>, us: seq<Update>, who: seq<nat>, c: nat, n: nat)
    requires IsRun(stores, us) && |who| == |us| && n <= |us|
    ensures (forall i :: 0 <= i <= n ==> UpToDate(stores, us, who, c, i))
            <==> (forall i :: 0 <= i < n ==> Told(stores, us, who, c, i))
  {
    hide Apply, Replay, Told;
    if n > 0 {
      ClientViewIff(stores, us, who, c, n - 1);
      hide UpToDate;
      if UpToDate(stores, us, who, c, n - 1) { UpToDateStep(stores, us, who, c, n - 1); }
    } else {
      assert UpToDate(stores, us, who, c, 0);
    }
  }

  const ALL: Alloc := Alloc(true, true, true, true, true)

  /** Two clients that learn of one new property: the first creates it and is
      told; the second finds it there, and is told nothing. */
  lemma SecondClientUntold() returns (stores: seq<Store>, us: seq<Update>)
    ensures SafeRun(stores, us) && |us| == 2
    ensures us[0] == us[1] && Lookup(stores[2], 7, "k").Some?
    ensures ViewAfter(stores, us, [1, 2], 2, 2) == {}
  {
    var u := Update(7, Some("k"), Some("t"), Some("v"), ALL);
    var s1, s2 := Apply([], u).store, Apply(Apply([], u).store, u).store;
    var d := Description(7, Grown([])[0 := Live(Property("k", "v", "t"))], 1);
    assert s1 == [d];
    assert InUse(d) == [Live(Property("k", "v", "t"))];
    assert FindDescription([d], 7) == 0 && FindSlot(InUse(d), "k") == 0;
    assert d.slots[0 := Live(Property("k", "v", "t"))] == d.slots;
    assert Apply([d], u) == Unchanged([d]);
    stores, us := [[], s1, s2], [u, u];
    assert ViewAfter(stores, us, [1, 2], 2, 1) == {};
  }

  /** A new value stored, the new type not: changed, and nobody is told. */
  lemma SilentChange() returns (s: Store, u: Update)
    ensures StoreInv(s) && Apply(s, u).note.None?
    ensures Lookup(s, 7, "k") == Some(("v", "t")) && Lookup(Apply(s, u).store, 7, "k") == Some(("w", "t"))
  {
    u := Update(7, Some("k"), Some("z"), Some("w"), ALL.(typ := false));
    var d := Description(7, [Live(Property("k", "v", "t"))], 1);
    var e := Description(7, [Live(Property("k", "w", "t"))], 1);
    s := [d];
    assert InUse(d) == d.slots && InUse(e) == e.slots;
    assert FindDescription(s, 7) == 0 && FindSlot(InUse(d), "k") == 0;
    assert d.slots[0 := e.slots[0]] == e.slots;
    assert Apply(s, u).store == [e];
  }
}
