/** The singly linked list of `pipewire-jack/jack/jslist.h` on heap nodes.

    A list is described by the sequence of its items, each a node with the
    datum it carries. Functions on item sequences say what each operation
    should produce; the methods relink `next` fields in place and are proved
    to produce it. */
module JSList {

  class Node<T> {
    var data: T
    var next: Node?<T>

    constructor (data: T, next: Node?<T>)
      ensures this.data == data && this.next == next
    {
      this.data := data;
      this.next := next;
    }
  }

  datatype Item<T> = Item(node: Node<T>, data: T)

  /** jack_slist's JCompareFunc; the caller supplies a total preorder. */
  type Compare<!T> = (T, T) -> int

  ghost predicate TotalPreorder<T(!new)>(cmp: Compare<T>) {
    && (forall x, y :: cmp(x, y) < 0 <==> cmp(y, x) > 0)
    && (forall x, y, z :: cmp(x, y) <= 0 && cmp(y, z) <= 0 ==> cmp(x, z) <= 0)
  }

  // ---------------------------------------------------------------------
  // Shape of a list

  ghost function Nodes<T>(items: seq<Item<T>>): set<Node<T>> {
    set i | 0 <= i < |items| :: items[i].node
  }

  ghost predicate Distinct<T>(items: seq<Item<T>>) {
    forall i, j :: 0 <= i < j < |items| ==> items[i].node != items[j].node
  }

  function Head<T>(items: seq<Item<T>>): Node?<T> {
    if items == [] then null else items[0].node
  }

  function Successor<T>(items: seq<Item<T>>, i: nat): Node?<T> {
    if i + 1 < |items| then items[i + 1].node else null
  }

  ghost predicate IsList<T>(head: Node?<T>, items: seq<Item<T>>)
    reads Nodes(items)
  {
    && head == Head(items)
    && Distinct(items)
    && (forall i :: 0 <= i < |items| ==> items[i].node.data == items[i].data)
    && (forall i :: 0 <= i < |items| ==> items[i].node.next == Successor(items, i))
  }

  // ---------------------------------------------------------------------
  // What sorting produces

  ghost function Merge<T>(a: seq<Item<T>>, b: seq<Item<T>>, cmp: Compare<T>): (r: seq<Item<T>>)
    ensures |r| == |a| + |b|
  {
    if a == [] then b
    else if b == [] then a
    else if cmp(a[0].data, b[0].data) < 0 then [a[0]] + Merge(a[1..], b, cmp)
    else [b[0]] + Merge(a, b[1..], cmp)
  }

  ghost function Sorted<T>(s: seq<Item<T>>, cmp: Compare<T>): (r: seq<Item<T>>)
    ensures |r| == |s|
  {
    if |s| < 2 then s
    else Merge(Sorted(s[..|s| / 2], cmp), Sorted(s[|s| / 2..], cmp), cmp)
  }

  lemma MultisetHead<X>(s: seq<X>)
    requires s != []
    ensures multiset(s) == multiset{s[0]} + multiset(s[1..])
  {
    assert s == [s[0]] + s[1..];
  }

  lemma {:induction false} MergePermutes<T>(a: seq<Item<T>>, b: seq<Item<T>>, cmp: Compare<T>)
    ensures multiset(Merge(a, b, cmp)) == multiset(a) + multiset(b)
  {
    if a != [] && b != [] {
      MultisetHead(a);
      MultisetHead(b);
      var m := Merge(a, b, cmp);
      MultisetHead(m);
      if cmp(a[0].data, b[0].data) < 0 {
        MergePermutes(a[1..], b, cmp);
        assert m[1..] == Merge(a[1..], b, cmp);
      } else {
        MergePermutes(a, b[1..], cmp);
        assert m[1..] == Merge(a, b[1..], cmp);
      }
    }
  }

  lemma {:induction false} SortPermutes<T>(s: seq<Item<T>>, cmp: Compare<T>)
    ensures multiset(Sorted(s, cmp)) == multiset(s)
  {
    hide Merge;
    if |s| >= 2 {
      var h := |s| / 2;
      SortPermutes(s[..h], cmp);
      SortPermutes(s[h..], cmp);
      MergePermutes(Sorted(s[..h], cmp), Sorted(s[h..], cmp), cmp);
      assert s == s[..h] + s[h..];
    }
  }

  /** Item `x` comes later than item `y` in `s`. */
  ghost predicate After<T>(s: seq<Item<T>>, x: Item<T>, y: Item<T>) {
    exists p, q :: 0 <= q < p < |s| && s[p] == x && s[q] == y
  }

  /** The order the sort produces: smaller data first, equal data in reverse of
      their order in `s`. */
  ghost predicate Before<T>(s: seq<Item<T>>, cmp: Compare<T>, x: Item<T>, y: Item<T>) {
    cmp(x.data, y.data) < 0 || (cmp(x.data, y.data) == 0 && After(s, x, y))
  }

  ghost predicate Ordered<T>(s: seq<Item<T>>, cmp: Compare<T>, r: seq<Item<T>>) {
    forall i, j :: 0 <= i < j < |r| ==> Before(s, cmp, r[i], r[j])
  }

  lemma OrderedWithin<T>(s1: seq<Item<T>>, s: seq<Item<T>>, off: nat, cmp: Compare<T>, r: seq<Item<T>>)
    requires off + |s1| <= |s| && s1 == s[off..off + |s1|]
    requires Ordered(s1, cmp, r)
    ensures Ordered(s, cmp, r)
  {
  }

  /** `a`'s items come from the part of `s` before `h`, `b`'s from the rest. */
  ghost predicate Halves<T>(s: seq<Item<T>>, h: nat, a: seq<Item<T>>, b: seq<Item<T>>) {
    && h <= |s|
    && (forall x :: x in a ==> x in s[..h])
    && (forall y :: y in b ==> y in s[h..])
  }

  lemma {:induction false} MergeOrdered<T(!new)>(s: seq<Item<T>>, h: nat, a: seq<Item<T>>, b: seq<Item<T>>,
                                                 cmp: Compare<T>)
    requires TotalPreorder(cmp)
    requires Halves(s, h, a, b)
    requires Ordered(s, cmp, a) && Ordered(s, cmp, b)
    ensures Ordered(s, cmp, Merge(a, b, cmp))
  {
    if a != [] && b != [] {
      if cmp(a[0].data, b[0].data) < 0 {
        MergeOrdered(s, h, a[1..], b, cmp);
        forall y | y in a[1..] || y in b ensures Before(s, cmp, a[0], y) {
          if y in b { HeadSmaller(s, b, cmp, y); }
        }
        ConsOrdered(s, cmp, a[0], Merge(a[1..], b, cmp), a[1..], b);
      } else {
        MergeOrdered(s, h, a, b[1..], cmp);
        forall y | y in a || y in b[1..] ensures Before(s, cmp, b[0], y) {
          if y in a {
            HeadSmaller(s, a, cmp, y);
            assert b[0] in b;
            CrossHalves(s, h, b[0], y);
          }
        }
        ConsOrdered(s, cmp, b[0], Merge(a, b[1..], cmp), a, b[1..]);
      }
    }
  }

  lemma HeadSmaller<T(!new)>(s: seq<Item<T>>, a: seq<Item<T>>, cmp: Compare<T>, y: Item<T>)
    requires TotalPreorder(cmp) && Ordered(s, cmp, a) && y in a
    ensures cmp(a[0].data, y.data) <= 0
  {
  }

  lemma CrossHalves<T>(s: seq<Item<T>>, h: nat, x: Item<T>, y: Item<T>)
    requires h <= |s| && x in s[h..] && y in s[..h]
    ensures After(s, x, y)
  {
  }

  lemma ConsOrdered<T>(s: seq<Item<T>>, cmp: Compare<T>, x: Item<T>, m: seq<Item<T>>, a: seq<Item<T>>, b: seq<Item<T>>)
    requires Ordered(s, cmp, m) && m == Merge(a, b, cmp)
    requires forall y :: y in a || y in b ==> Before(s, cmp, x, y)
    ensures Ordered(s, cmp, [x] + m)
  {
    MergePermutes(a, b, cmp);
    var r := [x] + m;
    forall i, j | 0 <= i < j < |r| ensures Before(s, cmp, r[i], r[j]) {
      if i == 0 {
        assert m[j - 1] in multiset(m);
      } else {
        assert Before(s, cmp, m[i - 1], m[j - 1]);
      }
    }
  }

  /** Sorting yields the items in the order `Before`, for any total preorder. */
  lemma {:induction false} SortOrders<T(!new)>(s: seq<Item<T>>, cmp: Compare<T>)
    requires TotalPreorder(cmp)
    ensures Ordered(s, cmp, Sorted(s, cmp))
  {
    if |s| >= 2 {
      var h := |s| / 2;
      var a, b := Sorted(s[..h], cmp), Sorted(s[h..], cmp);
      SortOrders(s[..h], cmp);
      SortOrders(s[h..], cmp);
      OrderedWithin(s[..h], s, 0, cmp, a);
      OrderedWithin(s[h..], s, h, cmp, b);
      SortPermutes(s[..h], cmp);
      SortPermutes(s[h..], cmp);
      assert forall x :: x in a ==> x in multiset(a);
      assert forall y :: y in b ==> y in multiset(b);
      MergeOrdered(s, h, a, b, cmp);
    }
  }

  lemma BeforeAsymmetric<T(!new)>(s: seq<Item<T>>, cmp: Compare<T>, x: Item<T>, y: Item<T>)
    requires TotalPreorder(cmp) && Distinct(s)
    requires Before(s, cmp, x, y)
    ensures !Before(s, cmp, y, x)
  {
  }

  lemma FirstBefore<T>(s: seq<Item<T>>, cmp: Compare<T>, r: seq<Item<T>>, x: Item<T>)
    requires Ordered(s, cmp, r) && x in r && x != r[0]
    ensures Before(s, cmp, r[0], x)
  {
  }

  lemma FirstUnique<T(!new)>(s: seq<Item<T>>, cmp: Compare<T>, r1: seq<Item<T>>, r2: seq<Item<T>>)
    requires TotalPreorder(cmp) && Distinct(s) && r1 != [] && r2 != []
    requires multiset(r1) == multiset(r2)
    requires Ordered(s, cmp, r1) && Ordered(s, cmp, r2)
    ensures r1[0] == r2[0]
  {
    hide Ordered, TotalPreorder, Distinct, Before;
    assert r1[0] in multiset(r2) && r2[0] in multiset(r1);
    if r1[0] != r2[0] {
      FirstBefore(s, cmp, r2, r1[0]);
      FirstBefore(s, cmp, r1, r2[0]);
      BeforeAsymmetric(s, cmp, r1[0], r2[0]);
    }
  }

  lemma OrderedTail<T>(s: seq<Item<T>>, cmp: Compare<T>, r: seq<Item<T>>)
    requires r != [] && Ordered(s, cmp, r)
    ensures Ordered(s, cmp, r[1..])
  {
  }

  /** Nothing else does: an ordered permutation of the input is the output. */
  lemma {:induction false} OrderUnique<T(!new)>(s: seq<Item<T>>, cmp: Compare<T>, r1: seq<Item<T>>, r2: seq<Item<T>>)
    requires TotalPreorder(cmp) && Distinct(s)
    requires multiset(r1) == multiset(r2)
    requires Ordered(s, cmp, r1) && Ordered(s, cmp, r2)
    ensures r1 == r2
    decreases |r1|
  {
    hide Ordered, Distinct, TotalPreorder;
    assert |r1| == |multiset(r1)| == |multiset(r2)| == |r2|;
    if r1 != [] {
      FirstUnique(s, cmp, r1, r2);
      MultisetHead(r1);
      MultisetHead(r2);
      assert multiset(r1[1..]) == multiset(r1) - multiset{r1[0]};
      assert multiset(r2[1..]) == multiset(r2) - multiset{r2[0]};
      OrderedTail(s, cmp, r1);
      OrderedTail(s, cmp, r2);
      OrderUnique(s, cmp, r1[1..], r2[1..]);
    }
  }

  lemma SortUnique<T(!new)>(s: seq<Item<T>>, cmp: Compare<T>, r: seq<Item<T>>)
    requires TotalPreorder(cmp) && Distinct(s)
    ensures r == Sorted(s, cmp) <==> multiset(r) == multiset(s) && Ordered(s, cmp, r)
  {
    SortPermutes(s, cmp);
    SortOrders(s, cmp);
    if multiset(r) == multiset(s) && Ordered(s, cmp, r) {
      OrderUnique(s, cmp, r, Sorted(s, cmp));
    }
  }
}
