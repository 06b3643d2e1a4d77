/** The operations of `pipewire-jack/jack/jslist.h`, relinking nodes in place. */
module JSListOps {
  import opened JSList

  /** The nodes of `done`, reached from the stack node `list`, end at `l`. */
  ghost predicate Chain<T>(list: Node<T>, l: Node<T>, done: seq<Item<T>>)
    reads list, Nodes(done)
  {
    && l == (if done == [] then list else done[|done| - 1].node)
    && (done != [] ==> list.next == done[0].node)
    && (forall i :: 0 <= i < |done| ==> done[i].node.data == done[i].data)
    && (forall i :: 0 <= i < |done| - 1 ==> done[i].node.next == done[i + 1].node)
  }

  lemma DropHead<T>(p: Node<T>, x: seq<Item<T>>)
    requires IsList(p, x)
    ensures x != [] && p == x[0].node && IsList(p.next, x[1..])
    ensures Nodes(x) == {p} + Nodes(x[1..]) && p !in Nodes(x[1..])
  {
  }

  lemma NodesAppend<T>(x: seq<Item<T>>, y: seq<Item<T>>)
    ensures Nodes(x + y) == Nodes(x) + Nodes(y)
    ensures Distinct(x) && Distinct(y) && Nodes(x) !! Nodes(y) ==> Distinct(x + y)
  {
    var z := x + y;
    forall n | n in Nodes(x) + Nodes(y) ensures n in Nodes(z) {
      if n in Nodes(x) {
        var i :| 0 <= i < |x| && x[i].node == n;
        assert z[i].node == n;
      } else {
        var i :| 0 <= i < |y| && y[i].node == n;
        assert z[|x| + i].node == n;
      }
    }
    if Distinct(x) && Distinct(y) && Nodes(x) !! Nodes(y) {
      forall i, j | 0 <= i < j < |z| ensures z[i].node != z[j].node {
        if i < |x| <= j { assert z[i].node in Nodes(x) && z[j].node in Nodes(y); }
      }
    }
  }

  /** `l = l->next = p; p = p->next`. */
  method TakeHead<T>(list: Node<T>, l: Node<T>, p: Node<T>, ghost done: seq<Item<T>>, ghost x: seq<Item<T>>)
    returns (rest: Node?<T>)
    requires Chain(list, l, done) && Distinct(done) && IsList(p, x)
    requires list !in Nodes(done) && list !in Nodes(x) && Nodes(done) !! Nodes(x)
    modifies l`next
    ensures x != [] && x[0].data == p.data && Chain(list, p, done + [x[0]]) && Distinct(done + [x[0]])
    ensures Nodes(done + [x[0]]) == Nodes(done) + {p}
    ensures IsList(rest, x[1..])
    ensures Nodes(x) == {p} + Nodes(x[1..]) && p !in Nodes(x[1..])
  {
    assert l == list || l in Nodes(done);
    assert p in Nodes(x) by { assert x[0].node == p; }
    l.next := p;
    DropHead(p, x);
    NodesAppend(done, [x[0]]);
    rest := p.next;
  }

  /** `l->next = p`, after which the chain is a list. */
  method LinkRest<T>(list: Node<T>, l: Node<T>, p: Node?<T>, ghost done: seq<Item<T>>, ghost x: seq<Item<T>>)
    requires Chain(list, l, done) && Distinct(done) && IsList(p, x)
    requires list !in Nodes(done) && list !in Nodes(x) && Nodes(done) !! Nodes(x)
    modifies l`next
    ensures IsList(list.next, done + x)
  {
    assert l == list || l in Nodes(done);
    l.next := p;
    NodesAppend(done, x);
  }

  lemma ChainEnd<T>(list: Node<T>, l: Node<T>, done: seq<Item<T>>)
    requires Chain(list, l, done)
    ensures l == list || l in Nodes(done)
  {
  }

  lemma MergeStep<T>(done: seq<Item<T>>, x: seq<Item<T>>, y: seq<Item<T>>, cmp: Compare<T>)
    requires x != [] && y != []
    ensures cmp(x[0].data, y[0].data) < 0 ==> done + Merge(x, y, cmp) == done + [x[0]] + Merge(x[1..], y, cmp)
    ensures cmp(x[0].data, y[0].data) >= 0 ==> done + Merge(x, y, cmp) == done + [y[0]] + Merge(x, y[1..], cmp)
  {
  }

  lemma EmptyChain<T>(list: Node<T>)
    ensures Chain(list, list, []) && Distinct<T>([]) && Nodes<T>([]) == {}
  {
  }

  lemma ListHead<T>(p: Node<T>, x: seq<Item<T>>)
    requires IsList(p, x)
    ensures x != [] && x[0].node == p && x[0].data == p.data
  {
  }

  lemma MergeOne<T>(p1: Node?<T>, p2: Node?<T>, x: seq<Item<T>>, y: seq<Item<T>>, cmp: Compare<T>)
    requires IsList(p1, x) && IsList(p2, y) && (p1 == null || p2 == null)
    ensures Merge(x, y, cmp) == if p1 != null then x else y
  {
  }

  /** jack_slist_sort_merge. */
  method SortMerge<T(0)>(l1: Node?<T>, l2: Node?<T>, cmp: Compare<T>, ghost a: seq<Item<T>>, ghost b: seq<Item<T>>)
    returns (r: Node?<T>)
    requires IsList(l1, a) && IsList(l2, b) && Nodes(a) !! Nodes(b)
    modifies Nodes(a)`next, Nodes(b)`next
    ensures IsList(r, Merge(a, b, cmp))
  {
    var any: T := *;
    var list := new Node<T>(any, null);
    assert IsList(l1, a) && IsList(l2, b) && list !in Nodes(a) + Nodes(b);
    hide IsList, Chain, Distinct, Nodes, Merge;
    var l: Node<T> := list;
    var p1, p2 := l1, l2;
    ghost var x, y, done := a, b, [];
    EmptyChain(list);
    while p1 != null && p2 != null
      invariant IsList(p1, x) && IsList(p2, y)
      invariant Distinct(done) && Nodes(done) + Nodes(x) + Nodes(y) <= Nodes(a) + Nodes(b)
      invariant Nodes(done) !! Nodes(x) !! Nodes(y)
      invariant Chain(list, l, done)
      invariant Merge(a, b, cmp) == done + Merge(x, y, cmp)
      decreases |x| + |y|
    {
      ListHead(p1, x);
      ListHead(p2, y);
      MergeStep(done, x, y, cmp);
      ChainEnd(list, l, done);
      if cmp(p1.data, p2.data) < 0 {
        var rest := TakeHead(list, l, p1, done, x);
        l, p1 := p1, rest;
        done, x := done + [x[0]], x[1..];
      } else {
        var rest := TakeHead(list, l, p2, done, y);
        l, p2 := p2, rest;
        done, y := done + [y[0]], y[1..];
      }
    }
    ChainEnd(list, l, done);
    MergeOne(p1, p2, x, y, cmp);
    LinkRest(list, l, if p1 != null then p1 else p2, done, if p1 != null then x else y);
    r := list.next;
  }

  lemma SameNodes<T>(x: seq<Item<T>>, y: seq<Item<T>>)
    requires multiset(x) == multiset(y)
    ensures Nodes(x) == Nodes(y)
  {
    assert forall i :: 0 <= i < |x| ==> x[i] in multiset(y);
    assert forall i :: 0 <= i < |y| ==> y[i] in multiset(x);
  }

  lemma DistinctFrom<T>(s: seq<Item<T>>, k: nat)
    requires Distinct(s) && k < |s|
    ensures forall i :: 0 <= i < |s| && i != k ==> s[i].node != s[k].node
  {
  }

  lemma NodesSplit<T>(s: seq<Item<T>>, h: nat)
    requires Distinct(s) && h <= |s|
    ensures Distinct(s[..h]) && Distinct(s[h..])
    ensures Nodes(s[..h]) !! Nodes(s[h..]) && Nodes(s) == Nodes(s[..h]) + Nodes(s[h..])
  {
  }

  /** `l2 = l1->next; l1->next = NULL`. */
  method Cut<T>(list: Node?<T>, l1: Node<T>, ghost s: seq<Item<T>>, ghost h: nat) returns (l2: Node?<T>)
    requires IsList(list, s) && 0 < h <= |s| && l1 == s[h - 1].node
    modifies l1`next
    ensures IsList(list, s[..h]) && IsList(l2, s[h..])
    ensures Nodes(s[..h]) !! Nodes(s[h..]) && Nodes(s) == Nodes(s[..h]) + Nodes(s[h..])
  {
    hide Distinct, Nodes;
    NodesSplit(s, h);
    l2 := l1.next;
    l1.next := null;
    DistinctFrom(s, h - 1);
    assert forall i :: 0 <= i < |s| - h ==> s[h..][i] == s[h + i];
  }

  /** The fast and slow pointer of jack_slist_sort; `l2` moves two nodes to `l1`'s one. */
  method Middle<T>(list: Node<T>, ghost s: seq<Item<T>>) returns (l1: Node<T>)
    requires IsList(list, s) && |s| >= 2
    ensures l1 == s[|s| / 2 - 1].node
  {
    l1 := list;
    var l2 := list.next;
    ghost var i := 0;
    l2 := l2.next;
    while l2 != null
      invariant 2 * i + 2 <= |s| && l1 == s[i].node
      invariant l2 == if 2 * i + 2 < |s| then s[2 * i + 2].node else null
      decreases |s| - i
    {
      l2 := l2.next;
      if l2 == null {
        break;
      }
      l1 := l1.next;
      i := i + 1;
      l2 := l2.next;
    }
  }

  lemma ListLength<T>(list: Node?<T>, s: seq<Item<T>>)
    requires IsList(list, s)
    ensures list == null <==> s == []
    ensures list != null ==> list in Nodes(s) && (list.next == null <==> |s| == 1)
  {
  }

  lemma SortShort<T>(s: seq<Item<T>>, cmp: Compare<T>)
    ensures |s| < 2 ==> Sorted(s, cmp) == s
  {
  }

  lemma SortSplit<T>(s: seq<Item<T>>, cmp: Compare<T>, h: nat)
    requires |s| >= 2 && h == |s| / 2
    ensures Sorted(s, cmp) == Merge(Sorted(s[..h], cmp), Sorted(s[h..], cmp), cmp)
    ensures Nodes(Sorted(s[..h], cmp)) == Nodes(s[..h]) && Nodes(Sorted(s[h..], cmp)) == Nodes(s[h..])
  {
    SortPermutes(s[..h], cmp);
    SortPermutes(s[h..], cmp);
    SameNodes(Sorted(s[..h], cmp), s[..h]);
    SameNodes(Sorted(s[h..], cmp), s[h..]);
  }

  /** The list cut in two: the first half stays at `list`. */
  method Halve<T>(list: Node<T>, ghost s: seq<Item<T>>) returns (l2: Node?<T>)
    requires IsList(list, s) && |s| >= 2
    modifies Nodes(s)`next
    ensures var h := |s| / 2;
            && IsList(list, s[..h]) && IsList(l2, s[h..])
            && Nodes(s[..h]) !! Nodes(s[h..]) && Nodes(s) == Nodes(s[..h]) + Nodes(s[h..])
  {
    hide IsList, Distinct;
    var l1 := Middle(list, s);
    l2 := Cut(list, l1, s, |s| / 2);
  }

  /** jack_slist_sort. */
  method Sort<T(0)>(list: Node?<T>, cmp: Compare<T>, ghost s: seq<Item<T>>) returns (r: Node?<T>)
    requires IsList(list, s)
    modifies Nodes(s)`next
    ensures IsList(r, Sorted(s, cmp))
    decreases |s|
  {
    assert forall n :: n in Nodes(s) ==> allocated(n);
    hide IsList, Nodes, Sorted, Merge, Distinct;
    ListLength(list, s);
    SortShort(s, cmp);
    if list == null {
      return null;
    }
    if list.next == null {
      return list;
    }
    ghost var h := |s| / 2;
    SortSplit(s, cmp, h);
    var l2 := Halve(list, s);
    var r1 := Sort(list, cmp, s[..h]);
    var r2 := Sort(l2, cmp, s[h..]);
    r := SortMerge(r1, r2, cmp, Sorted(s[..h], cmp), Sorted(s[h..], cmp));
  }

  function Without<T>(s: seq<Item<T>>, k: nat): seq<Item<T>>
    requires k < |s|
  {
    s[..k] + s[k + 1..]
  }

  lemma WithoutShape<T>(s: seq<Item<T>>, k: nat)
    requires Distinct(s) && k < |s|
    ensures |Without(s, k)| == |s| - 1
    ensures Distinct(Without(s, k)) && s[k].node !in Nodes(Without(s, k))
    ensures forall i :: 0 <= i < |s| - 1 ==> Without(s, k)[i] == s[if i < k then i else i + 1]
    ensures forall i :: 0 <= i < |s| ==> s[i].node in Nodes(s)
  {
  }

  /** The common tail of jack_slist_remove and jack_slist_remove_link. */
  method Unlink<T>(list: Node?<T>, prev: Node?<T>, tmp: Node<T>, ghost s: seq<Item<T>>, ghost k: nat)
    returns (r: Node?<T>)
    requires IsList(list, s) && k < |s| && tmp == s[k].node
    requires prev == if k == 0 then null else s[k - 1].node
    modifies Nodes(s)`next
    ensures IsList(r, Without(s, k))
    ensures tmp.next == null && tmp !in Nodes(Without(s, k))
  {
    hide Distinct, Nodes, Without;
    WithoutShape(s, k);
    DistinctFrom(s, k);
    if k > 0 { DistinctFrom(s, k - 1); }
    r := list;
    if prev != null {
      prev.next := tmp.next;
    }
    if list == tmp {
      r := list.next;
    }
    tmp.next := null;
  }

  /** jack_slist_remove_link: `link` leaves the list, or is not in it. */
  method RemoveLink<T>(list: Node?<T>, link: Node?<T>, ghost s: seq<Item<T>>) returns (r: Node?<T>, ghost k: nat)
    requires IsList(list, s)
    modifies Nodes(s)`next
    ensures k <= |s| && (forall i :: 0 <= i < k ==> s[i].node != link)
    ensures k < |s| ==> s[k].node == link && IsList(r, Without(s, k)) && link.next == null
    ensures k == |s| ==> r == list && IsList(r, s)
  {
    r, k := list, 0;
    var prev: Node?<T> := null;
    var tmp := list;
    while tmp != null
      invariant k <= |s| && tmp == (if k < |s| then s[k].node else null)
      invariant prev == if k == 0 then null else s[k - 1].node
      invariant forall i :: 0 <= i < k ==> s[i].node != link
      invariant IsList(list, s) && r == list
      decreases |s| - k
    {
      if tmp == link {
        r := Unlink(list, prev, tmp, s, k);
        break;
      }
      prev := tmp;
      tmp := tmp.next;
      k := k + 1;
    }
  }

  /** jack_slist_remove: the first node carrying `data` leaves the list. */
  method Remove<T(==)>(list: Node?<T>, data: T, ghost s: seq<Item<T>>) returns (r: Node?<T>, ghost k: nat)
    requires IsList(list, s)
    modifies Nodes(s)`next
    ensures k <= |s| && (forall i :: 0 <= i < k ==> s[i].data != data)
    ensures k < |s| ==> s[k].data == data && IsList(r, Without(s, k)) && s[k].node.next == null
    ensures k == |s| ==> r == list && IsList(r, s)
  {
    r, k := list, 0;
    var prev: Node?<T> := null;
    var tmp := list;
    while tmp != null
      invariant k <= |s| && tmp == (if k < |s| then s[k].node else null)
      invariant prev == if k == 0 then null else s[k - 1].node
      invariant forall i :: 0 <= i < k ==> s[i].data != data
      invariant IsList(list, s) && r == list
      decreases |s| - k
    {
      if tmp.data == data {
        r := Unlink(list, prev, tmp, s, k);
        break;
      }
      prev := tmp;
      tmp := tmp.next;
      k := k + 1;
    }
  }

  method Last<T>(list: Node<T>, ghost s: seq<Item<T>>) returns (r: Node<T>)
    requires IsList(list, s)
    ensures s != [] && r == s[|s| - 1].node
  {
    r := list;
    ghost var k := 0;
    while r.next != null
      invariant k < |s| && r == s[k].node
      decreases |s| - k
    {
      r := r.next;
      k := k + 1;
    }
  }

  /** A new node carrying `data` linked after the last node. */
  method Extend<T>(list: Node<T>, last: Node<T>, data: T, ghost s: seq<Item<T>>) returns (n: Node<T>)
    requires IsList(list, s) && s != [] && last == s[|s| - 1].node
    modifies last`next
    ensures fresh(n) && n.data == data && IsList(list, s + [Item(n, data)])
    ensures Nodes(s + [Item(n, data)]) == Nodes(s) + {n}
  {
    n := new Node(data, null);
    assert n !in Nodes(s) && IsList(list, s);
    NodesAppend(s, [Item(n, data)]);
    assert [Item(n, data)][0].node == n && Nodes([Item(n, data)]) == {n};
    DistinctFrom(s, |s| - 1);
    last.next := n;
  }

  /** jack_slist_append. */
  method Append<T>(list: Node?<T>, data: T, ghost s: seq<Item<T>>) returns (r: Node?<T>, ghost added: Item<T>)
    requires IsList(list, s)
    modifies Nodes(s)`next
    ensures fresh(added.node) && added.data == data && IsList(r, s + [added])
  {
    var n: Node<T>;
    if list != null {
      var last := Last(list, s);
      assert last in Nodes(s);
      n := Extend(list, last, data, s);
      r := list;
    } else {
      n := new Node(data, null);
      r := n;
    }
    added := Item(n, data);
  }

  /** The items of `c` carry the first data of `s`. */
  ghost predicate SameData<T>(c: seq<Item<T>>, s: seq<Item<T>>) {
    |c| <= |s| && forall i :: 0 <= i < |c| ==> c[i].data == s[i].data
  }

  lemma EmptyList<T>()
    ensures IsList<T>(null, []) && Nodes<T>([]) == {}
  {
  }

  lemma SingleList<T>(n: Node<T>, c: seq<Item<T>>)
    requires n.next == null && c == [Item(n, n.data)]
    ensures IsList(n, c) && Nodes(c) == {n}
  {
    assert c[0].node == n;
  }

  lemma AtNode<T>(list: Node?<T>, s: seq<Item<T>>, k: nat)
    requires IsList(list, s) && k <= |s|
    ensures list == Head(s)
    ensures k < |s| ==> s[k].node.data == s[k].data && s[k].node.next == Successor(s, k)
  {
  }

  /** One turn of the loop of jack_slist_copy: node `p` of `s` copied behind `c`. */
  method CopyNode<T>(first: Node<T>, last: Node<T>, p: Node<T>,
                     ghost list: Node?<T>, ghost s: seq<Item<T>>, ghost c: seq<Item<T>>)
    returns (n: Node<T>, next: Node?<T>)
    requires IsList(list, s) && IsList(first, c) && SameData(c, s) && Nodes(c) !! Nodes(s)
    requires 0 < |c| < |s| && p == s[|c|].node && last == c[|c| - 1].node
    modifies last`next
    ensures fresh(n) && IsList(list, s) && IsList(first, c + [Item(n, p.data)])
    ensures Nodes(c + [Item(n, p.data)]) == Nodes(c) + {n} && n !in Nodes(s)
    ensures SameData(c + [Item(n, p.data)], s)
    ensures next == Successor(s, |c|)
  {
    assert forall x :: x in Nodes(s) ==> allocated(x);
    assert last in Nodes(c);
    AtNode(list, s, |c|);
    hide IsList, Distinct, Nodes;
    n := Extend(first, last, p.data, c);
    AtNode(list, s, |c|);
    next := p.next;
  }

  /** The loop of jack_slist_copy, after the first node. */
  method CopyRest<T>(first: Node<T>, rest: Node?<T>, ghost list: Node?<T>, ghost s: seq<Item<T>>)
    returns (ghost c: seq<Item<T>>)
    requires IsList(list, s) && s != [] && rest == Successor(s, 0)
    requires first !in Nodes(s) && first.next == null && first.data == s[0].data
    modifies first`next
    ensures IsList(first, c) && fresh(Nodes(c) - {first}) && IsList(list, s)
    ensures |c| == |s| && SameData(c, s)
  {
    c := [Item(first, first.data)];
    SingleList(first, c);
    var last, p := first, rest;
    assert SameData(c, s);
    hide IsList, Distinct, Nodes, SameData;
    while p != null
      invariant 0 < |c| <= |s| && p == (if |c| < |s| then s[|c|].node else null)
      invariant IsList(list, s) && IsList(first, c) && SameData(c, s)
      invariant fresh(Nodes(c) - {first}) && Nodes(c) !! Nodes(s)
      invariant last == c[|c| - 1].node && (last == first || fresh(last))
      decreases |s| - |c|
    {
      ghost var d := p.data;
      last, p := CopyNode(first, last, p, list, s, c);
      c := c + [Item(last, d)];
    }
  }

  /** jack_slist_copy: a list of new nodes with the same data. */
  method Copy<T>(list: Node?<T>, ghost s: seq<Item<T>>) returns (r: Node?<T>, ghost c: seq<Item<T>>)
    requires IsList(list, s)
    ensures IsList(r, c) && fresh(Nodes(c)) && IsList(list, s)
    ensures |c| == |s| && SameData(c, s)
  {
    assert forall x :: x in Nodes(s) ==> allocated(x);
    hide IsList, Distinct, Nodes;
    r, c := null, [];
    EmptyList<T>();
    AtNode(list, s, 0);
    if list != null {
      var rest := list.next;
      var first := new Node(list.data, null);
      c := CopyRest(first, rest, list, s);
      r := first;
    }
  }
}
