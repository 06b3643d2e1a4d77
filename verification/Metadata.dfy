/** The metadata store of `pipewire-jack/src/metadata.c` as values: a growable
    array of descriptions, each a growable array of property slots. Every
    function does what the C function does to the arrays, including the
    `memmove` of remove_property and the allocation failures. */
module Metadata {
  import opened Common

  datatype Property = Property(key: string, data: string, typ: string)

  /** A slot holds a property, or nothing that may be read (freed or never set). */
  datatype Slot = Live(p: Property) | Dead

  /** `property_size` is the number of slots; the first `cnt` are in use. */
  datatype Description = Description(subject: nat, slots: seq<Slot>, cnt: nat)

  type Store = seq<Description>

  /** Which allocations succeed during one update. */
  datatype Alloc = Alloc(description: bool, grow: bool, property: bool, value: bool, typ: bool)

  datatype Note =
    | Created(subject: nat, key: string)
    | Changed(subject: nat, key: string)
    | Deleted(subject: nat, which: Option<string>)

  /** The arguments of update_property; None is NULL. */
  datatype Update = Update(subject: nat, key: Option<string>, typ: Option<string>, value: Option<string>, alloc: Alloc)

  /** The store afterwards, the notification if one is emitted, and whether an
      error was returned. */
  datatype Outcome = Outcome(store: Store, note: Option<Note>, failed: bool)

  // ---------------------------------------------------------------------
  // Searching

  function FindDescription(s: Store, subject: nat): (i: nat)
    ensures i <= |s|
    ensures i < |s| ==> s[i].subject == subject
    ensures forall j :: 0 <= j < i ==> s[j].subject != subject
  {
    if s == [] then 0
    else if s[0].subject == subject then 0
    else 1 + FindDescription(s[1..], subject)
  }

  predicate SlotHas(slot: Slot, key: string) {
    slot.Live? && slot.p.key == key
  }

  function FindSlot(slots: seq<Slot>, key: string): (i: nat)
    ensures i <= |slots|
    ensures i < |slots| ==> SlotHas(slots[i], key)
    ensures forall j :: 0 <= j < i ==> !SlotHas(slots[j], key)
  {
    if slots == [] then 0
    else if SlotHas(slots[0], key) then 0
    else 1 + FindSlot(slots[1..], key)
  }

  function InUse(d: Description): seq<Slot>
    requires d.cnt <= |d.slots|
  {
    d.slots[..d.cnt]
  }

  function LookupProperty(d: Description, key: string): Option<(string, string)>
    requires d.cnt <= |d.slots|
  {
    var i := FindSlot(InUse(d), key);
    if i < d.cnt then Some((d.slots[i].p.data, d.slots[i].p.typ)) else None
  }

  /** jack_get_property, when its own allocations succeed. */
  function Lookup(s: Store, subject: nat, key: string): Option<(string, string)> {
    var i := FindDescription(s, subject);
    if i < |s| && s[i].cnt <= |s[i].slots| then LookupProperty(s[i], key) else None
  }

  // ---------------------------------------------------------------------
  // Changing the arrays

  /** `memmove` of `n` slots from `src` to `dst`. */
  function MemMove(slots: seq<Slot>, dst: nat, src: nat, n: nat): (r: seq<Slot>)
    requires dst + n <= |slots| && src + n <= |slots|
    ensures |r| == |slots|
  {
    slots[..dst] + slots[src..src + n] + slots[dst + n..]
  }

  /** remove_property: the destination of its `memmove` is the start of the array. */
  function RemoveSlot(d: Description, i: nat): (r: Description)
    requires i < d.cnt <= |d.slots|
    ensures r.subject == d.subject && r.cnt == d.cnt - 1 && |r.slots| == |d.slots|
  {
    var cleared := d.slots[i := Dead];
    d.(cnt := d.cnt - 1, slots := MemMove(cleared, 0, i + 1, d.cnt - 1 - i))
  }

  /** pw_array_remove. */
  function RemoveDescription(s: Store, i: nat): Store
    requires i < |s|
  {
    s[..i] + s[i + 1..]
  }

  function RemoveProperty(s: Store, i: nat, j: nat): Store
    requires i < |s| && j < s[i].cnt <= |s[i].slots|
  {
    var d := RemoveSlot(s[i], j);
    if d.cnt == 0 then RemoveDescription(s, i) else s[i := d]
  }

  /** The array after pw_reallocarray to twice its size, or to 8. */
  function Grown(slots: seq<Slot>): seq<Slot> {
    slots + seq(if |slots| > 0 then |slots| else 8, _ => Dead)
  }

  /** add_property; the flag says whether it succeeded. */
  function AddProperty(d: Description, p: Property, a: Alloc): (Description, bool)
    requires d.cnt <= |d.slots|
  {
    if d.cnt == |d.slots| && !a.grow then (d, false)
    else
      var slots := if d.cnt == |d.slots| then Grown(d.slots) else d.slots;
      if a.property then (d.(slots := slots[d.cnt := Live(p)], cnt := d.cnt + 1), true)
      else (d.(slots := slots[d.cnt := Dead]), false)
  }

  /** change_property: the property afterwards, changes made, error. */
  function ChangeProperty(p: Property, value: string, typ: string, a: Alloc): (Property, bool, bool) {
    if p.data != value && !a.value then (p, false, true)
    else
      var q := p.(data := value);
      if p.typ != typ && !a.typ then (q, false, true)
      else (q.(typ := typ), p.data != value || p.typ != typ, false)
  }

  predicate ArraysFit(s: Store) {
    forall i :: 0 <= i < |s| ==> s[i].cnt <= |s[i].slots|
  }

  function Unchanged(s: Store): Outcome {
    Outcome(s, None, false)
  }

  function CreateProperty(s: Store, u: Update, p: Property): Outcome
    requires ArraysFit(s)
  {
    var i := FindDescription(s, u.subject);
    if i == |s| && !u.alloc.description then Outcome(s, None, true)
    else
      var s1 := if i == |s| then s + [Description(u.subject, [], 0)] else s;
      var (d, ok) := AddProperty(s1[i], p, u.alloc);
      Outcome(s1[i := d], if ok then Some(Created(u.subject, p.key)) else None, !ok)
  }

  /** update_property. */
  function Apply(s: Store, u: Update): Outcome
    requires ArraysFit(s)
  {
    var i := FindDescription(s, u.subject);
    match u.key
    case None =>
      if i < |s| then Outcome(RemoveDescription(s, i), Some(Deleted(u.subject, None)), false)
      else Unchanged(s)
    case Some(key) =>
      var j := if i < |s| then FindSlot(InUse(s[i]), key) else 0;
      var found := i < |s| && j < s[i].cnt;
      if u.value.None? || u.typ.None? then
        if found then Outcome(RemoveProperty(s, i, j), Some(Deleted(u.subject, Some(key))), false)
        else Unchanged(s)
      else if !found then CreateProperty(s, u, Property(key, u.value.value, u.typ.value))
      else
        var (p, changed, failed) := ChangeProperty(s[i].slots[j].p, u.value.value, u.typ.value, u.alloc);
        Outcome(s[i := s[i].(slots := s[i].slots[j := Live(p)])],
                if changed then Some(Changed(u.subject, key)) else None, failed)
  }

  // ---------------------------------------------------------------------
  // Invariant of the arrays

  ghost predicate UniqueSubjects(s: Store) {
    forall i, j :: 0 <= i < j < |s| ==> s[i].subject != s[j].subject
  }

  ghost predicate UniqueKeys(slots: seq<Slot>) {
    && (forall i :: 0 <= i < |slots| ==> slots[i].Live?)
    && (forall i, j :: 0 <= i < j < |slots| ==> slots[i].p.key != slots[j].p.key)
  }

  ghost predicate Sound(d: Description) {
    d.cnt <= |d.slots| && UniqueKeys(InUse(d))
  }

  ghost predicate StoreInv(s: Store) {
    UniqueSubjects(s) && forall i :: 0 <= i < |s| ==> Sound(s[i])
  }

  // ---------------------------------------------------------------------
  // Deleting one slot

  /** With unique keys, a slot in use is the one its key finds. */
  lemma FindsIt(slots: seq<Slot>, i: nat)
    requires UniqueKeys(slots) && i < |slots|
    ensures FindSlot(slots, slots[i].p.key) == i
  {
  }

  lemma NotFound(slots: seq<Slot>, key: string)
    requires forall i :: 0 <= i < |slots| ==> !SlotHas(slots[i], key)
    ensures FindSlot(slots, key) == |slots|
  {
  }

  /** Deleting slot `i` removed its key and nothing else. */
  ghost predicate DeletesExactly(d: Description, i: nat, r: Description)
    requires i < d.cnt <= |d.slots| && d.slots[i].Live? && r.cnt <= |r.slots|
  {
    && Sound(r)
    && forall key :: LookupProperty(r, key) == if key == d.slots[i].p.key then None else LookupProperty(d, key)
  }

  /** The slots left after removing the first or the last one. */
  lemma RemoveEndSlots(d: Description, i: nat)
    requires Sound(d) && i < d.cnt && (i == 0 || i == d.cnt - 1)
    ensures InUse(RemoveSlot(d, i)) == InUse(d)[..i] + InUse(d)[i + 1..]
  {
  }

  lemma FindWithout(x: seq<Slot>, i: nat, key: string)
    requires UniqueKeys(x) && i < |x|
    ensures var y, f := x[..i] + x[i + 1..], FindSlot(x, key);
            && UniqueKeys(y)
            && FindSlot(y, key) == if f == i || f == |x| then |y| else if f < i then f else f - 1
  {
    var y, f := x[..i] + x[i + 1..], FindSlot(x, key);
    assert forall k :: 0 <= k < |y| ==> y[k] == x[if k < i then k else k + 1];
    if f == |x| || f == i {
      NotFound(y, key);
    } else {
      FindsIt(y, if f < i then f else f - 1);
    }
  }

  lemma LookupWithout(d: Description, i: nat, r: Description, key: string)
    requires Sound(d) && i < d.cnt && r.cnt <= |r.slots|
    requires InUse(r) == InUse(d)[..i] + InUse(d)[i + 1..]
    ensures LookupProperty(r, key) == if key == d.slots[i].p.key then None else LookupProperty(d, key)
  {
    hide UniqueKeys;
    FindWithout(InUse(d), i, key);
    KeyAt(InUse(d), i, key);
    var g := FindSlot(InUse(r), key);
    assert g < r.cnt ==> InUse(r)[g] == r.slots[g];
  }

  lemma KeyAt(x: seq<Slot>, i: nat, key: string)
    requires UniqueKeys(x) && i < |x|
    ensures x[i].Live? && (x[i].p.key == key <==> FindSlot(x, key) == i)
  {
  }

  /** remove_property deletes exactly its key if and only if the slot is the
      first or the last in use. */
  lemma DeleteLawIff(d: Description, i: nat)
    requires Sound(d) && i < d.cnt
    ensures DeletesExactly(d, i, RemoveSlot(d, i)) <==> i == 0 || i == d.cnt - 1
  {
    var r := RemoveSlot(d, i);
    if i == 0 || i == d.cnt - 1 {
      RemoveEndSlots(d, i);
      var x, y := InUse(d), InUse(r);
      assert forall k :: 0 <= k < |y| ==> y[k] == x[if k < i then k else k + 1];
      forall key ensures LookupProperty(r, key) == if key == d.slots[i].p.key then None else LookupProperty(d, key) {
        LookupWithout(d, i, r, key);
      }
    } else {
      MiddleLosesFirst(d, i);
      FindsIt(InUse(d), 0);
      assert LookupProperty(d, d.slots[0].p.key).Some?;
      assert d.slots[i].p.key != d.slots[0].p.key by { assert InUse(d)[0].p.key != InUse(d)[i].p.key; }
    }
  }

  /** Deleting a middle slot overwrites the first one, whose key is lost. */
  lemma MiddleLosesFirst(d: Description, i: nat)
    requires Sound(d) && 0 < i < d.cnt - 1
    ensures LookupProperty(RemoveSlot(d, i), d.slots[0].p.key) == None
  {
  }

  /** For instance: deleting the second of three properties leaves the third
      and a freed slot, and loses the first. */
  lemma MiddleDeleteExample(a: Property, b: Property, c: Property)
    requires a.key != b.key && b.key != c.key && a.key != c.key
    ensures InUse(RemoveSlot(Description(0, [Live(a), Live(b), Live(c)], 3), 1)) == [Live(c), Dead]
  {
  }
}
