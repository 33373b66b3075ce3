/** Deletion on the heap: stealing and merging on private copies, and the one place where a node
    of the tree is given back: the right half of a merge, if the tree's own context owns it. */
module BTreeHeapRemoval {
  import opened Orders
  import opened BTreeModel
  import opened BTreeRemoval
  import opened BTreeHeap

  lemma PrivateRef<T>(n: HeapNode<T>, s: Shape<T>, k: set<HeapNode<T>>)
    requires Private(n, s, k)
    ensures s.ref == n && n !in k
  {
  }

  /** Two kids of a private node were rebuilt on private copies a and b. */
  lemma TwoRebuilt<T>(n: HeapNode<T>, s: Shape<T>, i: nat, sa: Shape<T>, sb: Shape<T>, k: set<HeapNode<T>>)
    requires n == s.ref && i + 1 < |s.kids| && |n.children| == |s.kids|
    requires forall j :: 0 <= j < |s.kids| ==> HoldsIn(s.kids[j], k)
    requires forall j :: 0 <= j < |s.kids| && j != i && j != i + 1 ==> n.children[j] == s.kids[j].ref
    requires n.children[i] == sa.ref && n.children[i + 1] == sb.ref
    requires Private(sa.ref, sa, k) && Private(sb.ref, sb, k) && n !in k && n != sa.ref && n != sb.ref
    ensures Private(n, Shape(n, n.items, s.kids[i := sa][i + 1 := sb]), k + {sa.ref} + {sb.ref})
    ensures AbsAll(s.kids[i := sa][i + 1 := sb]) == AbsAll(s.kids)[i := Abs(sa)][i + 1 := Abs(sb)]
  {
    hide Private, HoldsIn, Abs, AbsAll;
    var k' := k + {sa.ref} + {sb.ref};
    var s' := Shape(n, n.items, s.kids[i := sa][i + 1 := sb]);
    Freeze(sa.ref, sa, k);
    Freeze(sb.ref, sb, k);
    AbsUpdate(s.kids, i, sa);
    AbsUpdate(s.kids[i := sa], i + 1, sb);
    Widen(sa, k + {sa.ref}, k');
    Widen(sb, k + {sb.ref}, k');
    forall j | 0 <= j < |s'.kids| ensures HoldsIn(s'.kids[j], k') && s'.kids[j].ref == n.children[j] {
      if j != i && j != i + 1 { Widen(s.kids[j], k, k'); }
    }
    PrivateIntro(n, s', k');
  }

  ghost predicate KidsAlike<T>(a: Shape<T>, b: Shape<T>) {
    (a.kids == [] && b.kids == []) || (|a.kids| == |a.items| + 1 && |b.kids| == |b.items| + 1)
  }

  ghost function DonorLeftShape<T>(l: Shape<T>, from: HeapNode<T>): (r: Shape<T>)
    requires |l.items| > 0 && (l.kids == [] || |l.kids| == |l.items| + 1)
    ensures r.ref == from
  {
    Shape(from, l.items[..|l.items| - 1], if l.kids == [] then [] else l.kids[..|l.items|])
  }

  ghost function TakeLeftShape<T>(l: Shape<T>, x: T, s: Shape<T>, child: HeapNode<T>): (r: Shape<T>)
    requires |l.items| > 0 && (l.kids == [] || |l.kids| == |l.items| + 1)
    ensures r.ref == child
  {
    Shape(child, [x] + s.items, if l.kids == [] then s.kids else [l.kids[|l.items|]] + s.kids)
  }

  lemma TakeLeftAbs<T>(l: Shape<T>, x: T, s: Shape<T>, from: HeapNode<T>, child: HeapNode<T>)
    requires |l.items| > 0 && KidsAlike(l, s)
    ensures LeafOrInner(Abs(l)) && |Abs(l).items| > 0
    ensures Abs(DonorLeftShape(l, from)) == DonorLeft(Abs(l))
    ensures Abs(TakeLeftShape(l, x, s, child)) == TakeLeft(Abs(l), x, Abs(s))
  {
    hide AbsAll;
    NoKids<T>();
    if l.kids != [] {
      AbsSlice(l.kids, 0, |l.items|);
      assert l.kids[0..|l.items|] == l.kids[..|l.items|];
      AbsConcat([l.kids[|l.items|]], s.kids);
      assert AbsAll([l.kids[|l.items|]]) == [Abs(l.kids[|l.items|])];
    }
  }

  /** The last item of `from` goes up to position i of n, and the item there down to `child`. */
  method RotateRight<T>(n: HeapNode<T>, i: nat, from: HeapNode<T>, child: HeapNode<T>, ghost l: Shape<T>,
      ghost r: Shape<T>, ghost k: set<HeapNode<T>>)
    requires n != from && n != child && from != child && n !in k && i < |n.items|
    requires |l.items| > 0 && KidsAlike(l, r)
    requires Private(from, Shape(from, l.items, l.kids), k) && Private(child, Shape(child, r.items, r.kids), k)
    modifies n`items, from`items, from`children, child`items, child`children
    ensures Private(from, DonorLeftShape(l, from), k)
    ensures Private(child, TakeLeftShape(l, old(n.items[i]), r, child), k)
    ensures n.items == old(n.items)[i := l.items[|l.items| - 1]]
  {
    hide HoldsIn, Private, Hold;
    PrivateHolds(from, Shape(from, l.items, l.kids), k);
    PrivateHolds(child, Shape(child, r.items, r.kids), k);
    if l.kids != [] {
      HoldSlices(from.children, l.kids, k, |l.items|);
      assert from.children[|l.items|..] == [from.children[|l.items|]] && l.kids[|l.items|..] == [l.kids[|l.items|]];
      HoldConcat(from.children[|l.items|..], l.kids[|l.items|..], child.children, r.kids, k);
    }
    var last := |from.items| - 1;
    var stolen := from.items[last];
    from.items := from.items[..last];
    child.items := [n.items[i]] + child.items;
    n.items := n.items[i := stolen];
    if |from.children| > 0 {
      var moved := from.children[|from.children| - 1];
      from.children := from.children[..|from.children| - 1];
      child.children := [moved] + child.children;
    }
    HoldsPrivate(from, DonorLeftShape(l, from), k);
    HoldsPrivate(child, TakeLeftShape(l, old(n.items[i]), r, child), k);
  }

  /** mutableChild on two different children. */
  method CopyPair<T>(n: HeapNode<T>, i: nat, j: nat, c: Context<T>, ghost s: Shape<T>, ghost k: set<HeapNode<T>>,
      ghost z: set<HeapNode<T>>)
    returns (a: HeapNode<T>, b: HeapNode<T>)
    requires Private(n, s, k) && n.cow == c && Calm(c, n, k, z)
    requires i < |s.kids| && j < |s.kids| && i != j
    modifies n, c.freelist, c.freelist.Nodes()
    ensures s.ref == n && n.cow == c && n.items == s.items && n !in k
    ensures |n.children| == |s.kids| && n.children[i] == a && n.children[j] == b
    ensures forall l :: 0 <= l < |s.kids| && l != i && l != j ==> n.children[l] == s.kids[l].ref
    ensures Private(a, Shape(a, s.kids[i].items, s.kids[i].kids), k) &&
      Private(b, Shape(b, s.kids[j].items, s.kids[j].kids), k)
    ensures a != b && a != n && b != n && a.cow == c && b.cow == c
    ensures Calm(c, n, k, z) && Calm(c, a, k, z) && Calm(c, b, k, z)
    ensures c.freelist.Nodes() <= old(c.freelist.Nodes()) <= c.freelist.Nodes() + {a} + {b}
    ensures (fresh(a) || a in old(c.freelist.Nodes())) && (fresh(b) || b in old(c.freelist.Nodes()))
    ensures forall l :: 0 <= l < |s.kids| ==> HoldsIn(s.kids[l], k)
    ensures c.freelist.emptied == old(c.freelist.emptied)
  {
    hide HoldsIn;
    ghost var sa, sb;
    a, sa := MutableChild(n, i, c, s.kids[i], k, z);
    b, sb := MutableChild(n, j, c, s.kids[j], k, z + {a});
  }

  /** growChildAndRemove, first case. */
  method StealLeftAt<T>(n: HeapNode<T>, i: nat, c: Context<T>, ghost s: Shape<T>, ghost k: set<HeapNode<T>>,
      ghost z: set<HeapNode<T>>)
    returns (ghost s': Shape<T>, ghost k': set<HeapNode<T>>)
    requires Private(n, s, k) && n.cow == c && Calm(c, n, k, z)
    requires Regular(s) && 0 < i <= |s.items| && |s.kids[i - 1].items| > 0 && KidsAlike(s.kids[i - 1], s.kids[i])
    requires Inner(Abs(s)) && LeafOrInner(Abs(s).children[i - 1]) && |Abs(s).children[i - 1].items| > 0
    modifies n, c.freelist, c.freelist.Nodes()
    ensures Private(n, s', k') && n.cow == c && Calm(c, n, k', z) && Extends(c, k, k', z)
    ensures Abs(s') == StealLeft(Abs(s), i) && SameBelow(s', StolenLeft(s, i))
    ensures c.freelist.emptied == old(c.freelist.emptied)
    ensures c.freelist.Nodes() <= old(c.freelist.Nodes()) <= c.freelist.Nodes() + k'
    ensures forall m :: m in k' - k ==> fresh(m) || m in old(c.freelist.Nodes())
  {
    hide Private, AbsAll, HoldsIn, DonorLeftShape, TakeLeftShape, StealLeft, KidsAlike;
    ghost var l, r := s.kids[i - 1], s.kids[i];
    var child, from := CopyPair(n, i, i - 1, c, s, k, z);
    RotateRight(n, i - 1, from, child, l, r, k);
    ghost var sf', sc' := DonorLeftShape(l, from), TakeLeftShape(l, s.items[i - 1], r, child);
    s', k' := Shape(n, n.items, s.kids[i - 1 := sf'][i := sc']), k + {from} + {child};
    TakeLeftAbs(l, s.items[i - 1], r, from, child);
    TwoRebuilt(n, s, i - 1, sf', sc', k);
    StealLeftShape(s, i, sf', sc');
    StolenLeftSame(s, i, s', from, child);
  }

  lemma StealLeftShape<T>(s: Shape<T>, i: nat, sf: Shape<T>, sc: Shape<T>)
    requires Inner(Abs(s)) && 0 < i <= |s.items| && |s.kids| == |s.items| + 1 && |s.kids[i - 1].items| > 0
    requires LeafOrInner(Abs(s.kids[i - 1])) && |Abs(s.kids[i - 1]).items| > 0
    requires Abs(sf) == DonorLeft(Abs(s.kids[i - 1]))
    requires Abs(sc) == TakeLeft(Abs(s.kids[i - 1]), s.items[i - 1], Abs(s.kids[i]))
    ensures LeafOrInner(Abs(s).children[i - 1]) && |Abs(s).children[i - 1].items| > 0
    ensures var l := s.kids[i - 1];
      Node(s.items[i - 1 := l.items[|l.items| - 1]],
        AbsAll(s.kids)[i - 1 := Abs(sf)][i := Abs(sc)]) == StealLeft(Abs(s), i)
  {
    hide DonorLeft, TakeLeft;
  }

  // ----- steal from the right -----

  ghost function DonorRightShape<T>(r: Shape<T>, from: HeapNode<T>): (d: Shape<T>)
    requires |r.items| > 0
    ensures d.ref == from
  {
    Shape(from, r.items[1..], if r.kids == [] then [] else r.kids[1..])
  }

  ghost function TakeRightShape<T>(s: Shape<T>, x: T, r: Shape<T>, child: HeapNode<T>): (d: Shape<T>)
    ensures d.ref == child
  {
    Shape(child, s.items + [x], if r.kids == [] then s.kids else s.kids + [r.kids[0]])
  }

  lemma TakeRightAbs<T>(s: Shape<T>, x: T, r: Shape<T>, from: HeapNode<T>, child: HeapNode<T>)
    requires |r.items| > 0 && KidsAlike(s, r)
    ensures |Abs(r).items| > 0
    ensures Abs(DonorRightShape(r, from)) == DonorRight(Abs(r))
    ensures Abs(TakeRightShape(s, x, r, child)) == TakeRight(Abs(s), x, Abs(r))
  {
    hide AbsAll;
    NoKids<T>();
    if r.kids != [] {
      AbsSlice(r.kids, 1, |r.kids|);
      assert r.kids[1..|r.kids|] == r.kids[1..];
      AbsConcat(s.kids, [r.kids[0]]);
      assert AbsAll([r.kids[0]]) == [Abs(r.kids[0])];
    }
  }

  /** The first item of `from` goes up to position i of n, and the item there down to `child`. */
  method RotateLeft<T>(n: HeapNode<T>, i: nat, child: HeapNode<T>, from: HeapNode<T>, ghost l: Shape<T>,
      ghost r: Shape<T>, ghost k: set<HeapNode<T>>)
    requires n != from && n != child && from != child && n !in k && i < |n.items|
    requires |r.items| > 0 && KidsAlike(l, r)
    requires Private(from, Shape(from, r.items, r.kids), k) && Private(child, Shape(child, l.items, l.kids), k)
    modifies n`items, from`items, from`children, child`items, child`children
    ensures Private(from, DonorRightShape(r, from), k)
    ensures Private(child, TakeRightShape(l, old(n.items[i]), r, child), k)
    ensures n.items == old(n.items)[i := r.items[0]]
  {
    hide HoldsIn, Private, Hold;
    PrivateHolds(from, Shape(from, r.items, r.kids), k);
    PrivateHolds(child, Shape(child, l.items, l.kids), k);
    if r.kids != [] {
      HoldSlices(from.children, r.kids, k, 1);
      assert from.children[..1] == [from.children[0]] && r.kids[..1] == [r.kids[0]];
      HoldConcat(child.children, l.kids, from.children[..1], r.kids[..1], k);
    }
    var stolen := from.items[0];
    from.items := from.items[1..];
    child.items := child.items + [n.items[i]];
    n.items := n.items[i := stolen];
    if |from.children| > 0 {
      var moved := from.children[0];
      from.children := from.children[1..];
      child.children := child.children + [moved];
    }
    HoldsPrivate(from, DonorRightShape(r, from), k);
    HoldsPrivate(child, TakeRightShape(l, old(n.items[i]), r, child), k);
  }

  /** growChildAndRemove, second case. */
  method StealRightAt<T>(n: HeapNode<T>, i: nat, c: Context<T>, ghost s: Shape<T>, ghost k: set<HeapNode<T>>,
      ghost z: set<HeapNode<T>>)
    returns (ghost s': Shape<T>, ghost k': set<HeapNode<T>>)
    requires Private(n, s, k) && n.cow == c && Calm(c, n, k, z)
    requires Regular(s) && i < |s.items| && |s.kids[i + 1].items| > 0 && KidsAlike(s.kids[i], s.kids[i + 1])
    requires Inner(Abs(s)) && |Abs(s).children[i + 1].items| > 0
    modifies n, c.freelist, c.freelist.Nodes()
    ensures Private(n, s', k') && n.cow == c && Calm(c, n, k', z) && Extends(c, k, k', z)
    ensures Abs(s') == StealRight(Abs(s), i) && SameBelow(s', StolenRight(s, i))
    ensures c.freelist.emptied == old(c.freelist.emptied)
    ensures c.freelist.Nodes() <= old(c.freelist.Nodes()) <= c.freelist.Nodes() + k'
    ensures forall m :: m in k' - k ==> fresh(m) || m in old(c.freelist.Nodes())
  {
    hide Private, AbsAll, HoldsIn, DonorRightShape, TakeRightShape, StealRight, KidsAlike;
    ghost var l, r := s.kids[i], s.kids[i + 1];
    var child, from := CopyPair(n, i, i + 1, c, s, k, z);
    RotateLeft(n, i, child, from, l, r, k);
    ghost var sf, sc := DonorRightShape(r, from), TakeRightShape(l, s.items[i], r, child);
    s', k' := Shape(n, n.items, s.kids[i := sc][i + 1 := sf]), k + {child} + {from};
    TakeRightAbs(l, s.items[i], r, from, child);
    TwoRebuilt(n, s, i, sc, sf, k);
    StealRightShape(s, i, sc, sf);
    StolenRightSame(s, i, s', child, from);
  }

  lemma StealRightShape<T>(s: Shape<T>, i: nat, sc: Shape<T>, sf: Shape<T>)
    requires Inner(Abs(s)) && i < |s.items| && |s.kids| == |s.items| + 1 && |s.kids[i + 1].items| > 0
    requires |Abs(s.kids[i + 1]).items| > 0
    requires Abs(sf) == DonorRight(Abs(s.kids[i + 1]))
    requires Abs(sc) == TakeRight(Abs(s.kids[i]), s.items[i], Abs(s.kids[i + 1]))
    ensures |Abs(s).children[i + 1].items| > 0
    ensures Node(s.items[i := s.kids[i + 1].items[0]],
      AbsAll(s.kids)[i := Abs(sc)][i + 1 := Abs(sf)]) == StealRight(Abs(s), i)
  {
    hide DonorRight, TakeRight;
  }

  // ----- merge -----

  ghost function JoinedShape<T>(l: Shape<T>, x: T, r: Shape<T>, child: HeapNode<T>): (j: Shape<T>)
    ensures j.ref == child
  {
    Shape(child, l.items + [x] + r.items, l.kids + r.kids)
  }

  ghost function MergeShape<T>(s: Shape<T>, i: nat, j: Shape<T>): Shape<T>
    requires i < |s.items| && |s.kids| == |s.items| + 1
  {
    Shape(s.ref, s.items[..i] + s.items[i + 1..], s.kids[..i] + [j] + s.kids[i + 2..])
  }

  lemma JoinedAbs<T>(l: Shape<T>, x: T, r: Shape<T>, child: HeapNode<T>)
    ensures Abs(JoinedShape(l, x, r, child)) == Joined(Abs(l), x, Abs(r))
  {
    hide AbsAll;
    AbsConcat(l.kids, r.kids);
  }

  lemma MergeAbs<T>(s: Shape<T>, i: nat, j: Shape<T>)
    requires Inner(Abs(s)) && i < |s.items| && |s.kids| == |s.items| + 1
    requires Abs(j) == Joined(Abs(s.kids[i]), s.items[i], Abs(s.kids[i + 1]))
    ensures Abs(MergeShape(s, i, j)) == Merge(Abs(s), i)
  {
    hide Joined, AbsAll;
    var a, b := s.kids[..i], s.kids[i + 2..];
    AbsConcat(a + [j], b);
    AbsConcat(a, [j]);
    AbsSlice(s.kids, 0, i);
    AbsSlice(s.kids, i + 2, |s.kids|);
    assert s.kids[0..i] == a && s.kids[i + 2..|s.kids|] == b;
    assert AbsAll([j]) == [Abs(j)];
    assert AbsAll(a + [j] + b) == AbsAll(s.kids)[..i] + [Abs(j)] + AbsAll(s.kids)[i + 2..];
  }

  /** The merge itself, before the emptied right node is given back. */
  method JoinAt<T>(n: HeapNode<T>, i: nat, c: Context<T>, ghost s: Shape<T>, ghost k: set<HeapNode<T>>,
      ghost z: set<HeapNode<T>>)
    returns (child: HeapNode<T>, mergeChild: HeapNode<T>, ghost j: Shape<T>)
    requires Private(n, s, k) && n.cow == c && Calm(c, n, k, z)
    requires |s.kids| == |s.items| + 1 && i < |s.items|
    modifies n, c.freelist, c.freelist.Nodes()
    ensures n.cow == c && child.cow == c && child != n && n !in k && s.ref == n &&
      n.items == s.items[..i] + s.items[i + 1..]
    ensures mergeChild == s.kids[i + 1].ref && mergeChild in k && mergeChild.items == s.kids[i + 1].items
    ensures j == JoinedShape(s.kids[i], s.items[i], s.kids[i + 1], child) && Private(child, j, k)
    ensures |n.children| == |s.kids| - 1 && n.children[i] == child
    ensures forall a :: 0 <= a < |n.children| && a != i ==> n.children[a] == s.kids[if a < i then a else a + 1].ref
    ensures forall a :: 0 <= a < |s.kids| ==> HoldsIn(s.kids[a], k)
    ensures Calm(c, n, k, z) && Calm(c, child, k, z)
    ensures c.freelist.Nodes() <= old(c.freelist.Nodes()) <= c.freelist.Nodes() + {child}
    ensures fresh(child) || child in old(c.freelist.Nodes())
    ensures c.freelist.emptied == old(c.freelist.emptied)
  {
    ghost var sc;
    ghost var l, r := s.kids[i], s.kids[i + 1];
    assert HoldsIn(r, k);
    child, sc := MutableChild(n, i, c, l, k, z);
    hide HoldsIn;
    var mergeItem := n.items[i];
    mergeChild := n.children[i + 1];
    RightHeld(r, k);
    n.items := n.items[..i] + n.items[i + 1..];
    n.children := n.children[..i + 1] + n.children[i + 2..];
    child.items := child.items + [mergeItem] + mergeChild.items;
    child.children := child.children + mergeChild.children;
    j := JoinedShape(l, s.items[i], r, child);
  }

  lemma RightHeld<T>(r: Shape<T>, k: set<HeapNode<T>>)
    requires HoldsIn(r, k)
    ensures r.ref in k && r.ref.items == r.items && |r.ref.children| == |r.kids|
    ensures forall i :: 0 <= i < |r.kids| ==> r.ref.children[i] == r.kids[i].ref && HoldsIn(r.kids[i], k)
  {
  }

  // ----- the siblings that a removal merges, as a function of the shape -----

  /** An inner node whose children are leaves or inner nodes. */
  ghost predicate Regular<T>(s: Shape<T>) {
    && |s.kids| == |s.items| + 1
    && forall a :: 0 <= a < |s.kids| ==> s.kids[a].kids == [] || |s.kids[a].kids| == |s.kids[a].items| + 1
  }

  /** The same items, and the same kids but for the nodes they sit in. */
  ghost predicate SameBelow<T>(a: Shape<T>, b: Shape<T>) {
    && a.items == b.items && |a.kids| == |b.kids|
    && forall i :: 0 <= i < |a.kids| ==> a.kids[i].items == b.kids[i].items && a.kids[i].kids == b.kids[i].kids
  }

  ghost function StolenLeft<T>(s: Shape<T>, i: nat): Shape<T>
    requires Regular(s) && 0 < i <= |s.items| && |s.kids[i - 1].items| > 0
  {
    var l, c := s.kids[i - 1], s.kids[i];
    Shape(s.ref, s.items[i - 1 := l.items[|l.items| - 1]],
          s.kids[i - 1 := DonorLeftShape(l, l.ref)][i := TakeLeftShape(l, s.items[i - 1], c, c.ref)])
  }

  ghost function StolenRight<T>(s: Shape<T>, i: nat): Shape<T>
    requires Regular(s) && i < |s.items| && |s.kids[i + 1].items| > 0
  {
    var c, r := s.kids[i], s.kids[i + 1];
    Shape(s.ref, s.items[i := r.items[0]],
          s.kids[i := TakeRightShape(c, s.items[i], r, c.ref)][i + 1 := DonorRightShape(r, r.ref)])
  }

  ghost function MergedShape<T>(s: Shape<T>, i: nat): Shape<T>
    requires |s.kids| == |s.items| + 1 && i < |s.items|
  {
    MergeShape(s, i, JoinedShape(s.kids[i], s.items[i], s.kids[i + 1], s.kids[i].ref))
  }

  /** The shape after child i was grown, with the nodes it had. */
  ghost function GrownShape<T>(s: Shape<T>, i: nat, d: nat): Shape<T>
    requires d >= 2 && Regular(s) && 0 < |s.items| && i <= |s.items|
  {
    if i > 0 && |s.kids[i - 1].items| > d - 1 then StolenLeft(s, i)
    else if i < |s.items| && |s.kids[i + 1].items| > d - 1 then StolenRight(s, i)
    else MergedShape(s, if i >= |s.items| then i - 1 else i)
  }

  /** The node whose contents move into its left sibling when child i is grown, if neither
      sibling has an item to spare. */
  ghost function MergedAt<T>(s: Shape<T>, i: nat, d: nat): set<HeapNode<T>>
    requires d >= 2 && Regular(s) && 0 < |s.items| && i <= |s.items|
  {
    if i > 0 && |s.kids[i - 1].items| > d - 1 then {}
    else if i < |s.items| && |s.kids[i + 1].items| > d - 1 then {}
    else {s.kids[if i >= |s.items| then i else i + 1].ref}
  }

  /** Every node that a removal merges into its left sibling, on the whole way down. */
  ghost function Merged<T>(lt: Less<T>, s: Shape<T>, typ: Removal<T>, d: nat, h: nat): set<HeapNode<T>>
    requires d >= 2
    decreases h, 1
  {
    var i := Target(lt, Abs(s), typ);
    if h == 0 || !Regular(s) then {}
    else if |s.kids[i].items| > d - 1 || |s.items| == 0 then MergedBelow(lt, s, typ, d, h)
    else MergedAt(s, i, d) + MergedBelow(lt, GrownShape(s, i, d), typ, d, h)
  }

  ghost function MergedBelow<T>(lt: Less<T>, s: Shape<T>, typ: Removal<T>, d: nat, h: nat): set<HeapNode<T>>
    requires d >= 2 && h > 0
    decreases h, 0
  {
    var i := Target(lt, Abs(s), typ);
    if i >= |s.kids| then {} else Merged(lt, s.kids[i], if Hit(lt, Abs(s), typ) then RemoveMax else typ, d, h - 1)
  }

  /** It does not matter in which node the shape itself sits. */
  lemma {:induction false} MergedCopy<T>(lt: Less<T>, a: Shape<T>, b: Shape<T>, typ: Removal<T>, d: nat, h: nat)
    requires d >= 2 && a.items == b.items && a.kids == b.kids
    ensures Merged(lt, a, typ, d, h) == Merged(lt, b, typ, d, h)
    decreases h, 1
  {
    hide AbsAll, Find, MergedBelow, GrownShape;
    var i := Target(lt, Abs(a), typ);
    if h > 0 && Regular(a) {
      MergedBelowSame(lt, a, b, typ, d, h);
      if |a.items| > 0 {
        GrownSame(a, b, i, d);
        MergedBelowSame(lt, GrownShape(a, i, d), GrownShape(b, i, d), typ, d, h);
      }
    }
  }

  lemma GrownSame<T>(a: Shape<T>, b: Shape<T>, i: nat, d: nat)
    requires d >= 2 && Regular(a) && 0 < |a.items| && i <= |a.items| && a.items == b.items && a.kids == b.kids
    ensures SameBelow(GrownShape(a, i, d), GrownShape(b, i, d)) && MergedAt(a, i, d) == MergedAt(b, i, d)
  {
    hide TakeLeftShape, TakeRightShape, DonorLeftShape, DonorRightShape, JoinedShape;
  }

  lemma {:induction false} MergedBelowSame<T>(lt: Less<T>, a: Shape<T>, b: Shape<T>, typ: Removal<T>, d: nat, h: nat)
    requires d >= 2 && h > 0 && SameBelow(a, b)
    ensures MergedBelow(lt, a, typ, d, h) == MergedBelow(lt, b, typ, d, h)
    decreases h, 0
  {
    hide AbsAll, Find, Merged;
    var i := Target(lt, Abs(a), typ);
    if i < |a.kids| {
      MergedCopy(lt, a.kids[i], b.kids[i], if Hit(lt, Abs(a), typ) then RemoveMax else typ, d, h - 1);
    }
  }

  lemma StolenLeftSame<T>(s: Shape<T>, i: nat, s': Shape<T>, from: HeapNode<T>, child: HeapNode<T>)
    requires Regular(s) && 0 < i <= |s.items| && |s.kids[i - 1].items| > 0
    requires var l, c := s.kids[i - 1], s.kids[i];
      && s'.items == s.items[i - 1 := l.items[|l.items| - 1]]
      && s'.kids == s.kids[i - 1 := DonorLeftShape(l, from)][i := TakeLeftShape(l, s.items[i - 1], c, child)]
    ensures SameBelow(s', StolenLeft(s, i))
  {
  }

  lemma StolenRightSame<T>(s: Shape<T>, i: nat, s': Shape<T>, child: HeapNode<T>, from: HeapNode<T>)
    requires Regular(s) && i < |s.items| && |s.kids[i + 1].items| > 0
    requires var c, r := s.kids[i], s.kids[i + 1];
      && s'.items == s.items[i := r.items[0]]
      && s'.kids == s.kids[i := TakeRightShape(c, s.items[i], r, child)][i + 1 := DonorRightShape(r, from)]
    ensures SameBelow(s', StolenRight(s, i))
  {
  }

  lemma MergedSame<T>(s: Shape<T>, i: nat, child: HeapNode<T>)
    requires |s.kids| == |s.items| + 1 && i < |s.items|
    ensures SameBelow(MergeShape(s, i, JoinedShape(s.kids[i], s.items[i], s.kids[i + 1], child)), MergedShape(s, i))
  {
  }

  // ----- the node given back is no longer in the tree -----

  /** A node holding an item that the shape does not contain is not part of the shape. */
  lemma {:induction false} Avoids<T>(s: Shape<T>, k: set<HeapNode<T>>, m: HeapNode<T>)
    requires HoldsIn(s, k) && |m.items| > 0 && m.items[0] !in Flatten(Abs(s))
    requires ShapeOk(s)
    ensures HoldsIn(s, k - {m})
  {
    hide Flatten;
    OwnItemIn(s, m);
    forall i | 0 <= i < |s.kids| ensures HoldsIn(s.kids[i], k - {m}) {
      KidItemsIn(s, i, m.items[0]);
      Avoids(s.kids[i], k, m);
    }
  }

  ghost predicate ShapeOk<T>(s: Shape<T>) {
    (s.kids == [] || |s.kids| == |s.items| + 1) && forall i :: 0 <= i < |s.kids| ==> ShapeOk(s.kids[i])
  }

  lemma OwnItemIn<T>(s: Shape<T>, m: HeapNode<T>)
    requires ShapeOk(s) && |m.items| > 0 && m.items[0] !in Flatten(Abs(s))
    ensures s.items != m.items
  {
    hide Flatten;
    if |s.items| > 0 { var p := ItemAt(Abs(s), 0); }
  }

  lemma KidItemsIn<T>(s: Shape<T>, i: nat, y: T)
    requires ShapeOk(s) && i < |s.kids|
    ensures y in Flatten(Abs(s.kids[i])) ==> y in Flatten(Abs(s))
  {
    hide Flatten, Lo, Hi;
    FlattenAt(Abs(s), i);
  }

  lemma {:induction false} LoHas<T>(t: Tree<T>, a: nat, b: nat)
    requires Inner(t) && a < b <= |t.items|
    ensures t.items[a] in Lo(t, b) && forall y :: y in Flatten(t.children[a]) ==> y in Lo(t, b)
    decreases b - a
  {
    hide Flatten, Lo;
    LoStep(t, b - 1);
    if a + 1 < b { LoHas(t, a, b - 1); }
  }

  lemma {:induction false} HiHas<T>(t: Tree<T>, a: nat, b: nat)
    requires Inner(t) && b <= a < |t.items|
    ensures t.items[a] in Hi(t, b) && forall y :: y in Flatten(t.children[a + 1]) ==> y in Hi(t, b)
    decreases a - b
  {
    hide Flatten, Hi;
    HiStep(t, b);
    if b < a { HiHas(t, a, b + 1); }
  }

  lemma OnlyOnce<T(!new)>(lt: Less<T>, a: seq<T>, b: seq<T>, c: seq<T>, y: T)
    requires StrictWeak(lt) && Sorted(lt, a + b + c) && (y in a || y in c)
    ensures y !in b
  {
    var s := a + b + c;
    var p: nat;
    if y in a {
      p :| p < |a| && a[p] == y;
    } else {
      var q: nat :| q < |c| && c[q] == y;
      p := |a| + |b| + q;
    }
    forall i | 0 <= i < |b| ensures b[i] != y {
      assert s[|a| + i] == b[i] && s[p] == y;
      assert lt(s[p], s[|a| + i]) || lt(s[|a| + i], s[p]);
    }
  }

  /** In a sorted tree an item of the node, or of one child, is in no other child. */
  lemma ElsewhereNot<T(!new)>(lt: Less<T>, t: Tree<T>, a: nat, b: nat, y: T)
    requires StrictWeak(lt) && Sorted(lt, Flatten(t)) && Inner(t) && b <= |t.items|
    requires (a < |t.items| && y == t.items[a]) || (a <= |t.items| && a != b && y in Flatten(t.children[a]))
    ensures y !in Flatten(t.children[b])
  {
    hide Flatten, Lo, Hi, StrictWeak, Sorted;
    FlattenAt(t, b);
    if a < |t.items| && y == t.items[a] {
      if a < b { LoHas(t, a, b); } else { HiHas(t, a, b); }
    } else if a < b {
      LoHas(t, a, b);
    } else {
      HiHas(t, a - 1, b);
    }
    OnlyOnce(lt, Lo(t, b), Flatten(t.children[b]), Hi(t, b), y);
  }

  ghost predicate NoneHold<T>(ts: seq<Tree<T>>, y: T) {
    forall b :: 0 <= b < |ts| ==> y !in Flatten(ts[b])
  }

  ghost predicate AllHeld<T>(ss: seq<Shape<T>>, k: set<HeapNode<T>>)
    reads k
  {
    forall a :: 0 <= a < |ss| ==> HoldsIn(ss[a], k)
  }

  /** An item of child i+1 is in no other child, nor below it in child i+1 itself. */
  lemma ItemPlaces<T(!new)>(lt: Less<T>, t: Tree<T>, i: nat, a: nat)
    requires StrictWeak(lt) && Sorted(lt, Flatten(t)) && Inner(t) && i < |t.items| && a <= |t.items|
    requires LeafOrInner(t.children[i + 1]) && |t.children[i + 1].items| > 0
    ensures a != i + 1 ==> t.children[i + 1].items[0] !in Flatten(t.children[a])
    ensures NoneHold(t.children[i + 1].children, t.children[i + 1].items[0])
  {
    hide Flatten, StrictWeak, Sorted;
    var r := t.children[i + 1];
    var y := r.items[0];
    var p := ItemAt(r, 0);
    if a != i + 1 { ElsewhereNot(lt, t, i + 1, a, y); }
    SlotInNode(lt, t, y, i + 1);
    forall b | 0 <= b < |r.children| ensures y !in Flatten(r.children[b]) { ElsewhereNot(lt, r, 0, b, y); }
  }

  /** After the merge no kid of n uses the emptied right node any more. */
  lemma SiblingsAvoid<T(!new)>(lt: Less<T>, s: Shape<T>, i: nat, m: HeapNode<T>, k: set<HeapNode<T>>)
    requires StrictWeak(lt) && Sorted(lt, Flatten(Abs(s))) && ShapeOk(s) && i < |s.items| && |s.kids| == |s.items| + 1
    requires m.items == s.kids[i + 1].items && |m.items| > 0
    requires forall a :: 0 <= a < |s.kids| ==> HoldsIn(s.kids[a], k)
    ensures forall a :: 0 <= a < |s.kids| && a != i + 1 ==> HoldsIn(s.kids[a], k - {m})
  {
    hide Flatten, StrictWeak, Sorted, HoldsIn;
    var t := Abs(s);
    assert t.children[i + 1] == Abs(s.kids[i + 1]) && Abs(s.kids[i + 1]).items == s.kids[i + 1].items;
    forall a | 0 <= a < |s.kids| && a != i + 1 ensures HoldsIn(s.kids[a], k - {m}) {
      ItemPlaces(lt, t, i, a);
      Avoids(s.kids[a], k, m);
    }
  }

  lemma OwnKidsAvoid<T(!new)>(lt: Less<T>, s: Shape<T>, i: nat, m: HeapNode<T>, k: set<HeapNode<T>>)
    requires StrictWeak(lt) && Sorted(lt, Flatten(Abs(s))) && ShapeOk(s) && i < |s.items| && |s.kids| == |s.items| + 1
    requires m.items == s.kids[i + 1].items && |m.items| > 0
    requires AllHeld(s.kids[i + 1].kids, k)
    ensures AllHeld(s.kids[i + 1].kids, k - {m})
  {
    hide Flatten, StrictWeak, Sorted, HoldsIn;
    var t, r := Abs(s), s.kids[i + 1];
    assert t.children[i + 1] == Abs(r) && Abs(r).items == r.items;
    ItemPlaces(lt, t, i, i);
    forall b | 0 <= b < |r.kids| ensures HoldsIn(r.kids[b], k - {m}) {
      assert Abs(r).children[b] == Abs(r.kids[b]);
      Avoids(r.kids[b], k, m);
    }
  }

  lemma JoinedAvoids<T(!new)>(lt: Less<T>, s: Shape<T>, i: nat, j: Shape<T>, m: HeapNode<T>, k: set<HeapNode<T>>)
    requires StrictWeak(lt) && Sorted(lt, Flatten(Abs(s))) && ShapeOk(s) && i < |s.items| && |s.kids| == |s.items| + 1
    requires m.items == s.kids[i + 1].items && |m.items| > 0 && m == s.kids[i + 1].ref
    requires j == JoinedShape(s.kids[i], s.items[i], s.kids[i + 1], j.ref) && Private(j.ref, j, k)
    requires forall a :: 0 <= a < |s.kids| ==> HoldsIn(s.kids[a], k)
    ensures Private(j.ref, j, k - {m})
  {
    hide Flatten, StrictWeak, Sorted, Abs, AbsAll, ShapeOk, HoldsIn;
    var l, r := s.kids[i], s.kids[i + 1];
    SiblingsAvoid(lt, s, i, m, k);
    RightHeld(r, k);
    OwnKidsAvoid(lt, s, i, m, k);
    RightHeld(l, k - {m});
    forall b | 0 <= b < |j.kids| ensures HoldsIn(j.kids[b], k - {m}) {
      if b < |l.kids| { assert j.kids[b] == l.kids[b]; } else { assert j.kids[b] == r.kids[b - |l.kids|]; }
    }
    PrivateIntro(j.ref, j, k - {m});
  }

  /** As Avoids, for all the nodes of f. */
  lemma {:induction false} AvoidsAll<T>(s: Shape<T>, k: set<HeapNode<T>>, f: set<HeapNode<T>>)
    requires HoldsIn(s, k) && ShapeOk(s)
    requires forall m :: m in f ==> |m.items| > 0 && m.items[0] !in Flatten(Abs(s))
    ensures HoldsIn(s, k - f)
  {
    hide Flatten;
    if s.ref in f { OwnItemIn(s, s.ref); }
    forall i | 0 <= i < |s.kids| ensures HoldsIn(s.kids[i], k - f) {
      forall m | m in f ensures m.items[0] !in Flatten(Abs(s.kids[i])) { KidItemsIn(s, i, m.items[0]); }
      AvoidsAll(s.kids[i], k, f);
    }
  }

  // ----- what a removal does to the nodes of the tree -----

  /** Each of these nodes is blank, or has come back from the free list into k. */
  ghost predicate Spent<T>(ns: set<HeapNode<T>>, k: set<HeapNode<T>>)
    reads ns
  {
    forall m :: m in ns ==> SpentNode(m, k)
  }

  ghost predicate SpentNode<T>(m: HeapNode<T>, k: set<HeapNode<T>>)
    reads m
  {
    (m.items == [] && m.children == [] && m.cow == null) || m in k
  }

  lemma SpentUnion<T>(a: set<HeapNode<T>>, b: set<HeapNode<T>>, k: set<HeapNode<T>>, ns: set<HeapNode<T>>)
    requires Spent(a, k) && Spent(b, k) && ns <= a + b
    ensures Spent(ns, k)
  {
  }

  lemma SpentWiden<T>(ns: set<HeapNode<T>>, k: set<HeapNode<T>>, ns': set<HeapNode<T>>, k': set<HeapNode<T>>)
    requires Spent(ns, k) && k <= k' && ns' - ns <= k'
    ensures Spent(ns', k')
  {
    forall m | m in ns' ensures SpentNode(m, k') {
      if m !in ns { assert m in ns' - ns; } else { assert SpentNode(m, k); }
    }
  }

  /** The nodes of k that c owns. */
  ghost function Mine<T>(c: Context<T>, k: set<HeapNode<T>>): set<HeapNode<T>>
    reads k
  {
    set m | m in k && m.cow == c
  }

  /** From k, a step on a subtree holding t gives back the nodes f, leaves every other node of k
      as it was, and adds nodes of c's own. Only nodes of c, holding items of t, are given back. */
  twostate predicate Reworks<T>(c: Context<T>, t: Tree<T>, k: set<HeapNode<T>>, new f: set<HeapNode<T>>,
      new k': set<HeapNode<T>>, z: set<HeapNode<T>>)
    reads k, k', c.freelist
  {
    && f <= k && k - f <= k'
    && (forall m :: m in k - f ==> unchanged(m))
    && (forall m :: m in f ==> old(m.cow == c && |m.items| > 0 && m.items[0] in Flatten(t)))
    && (forall m :: m in k' - (k - f) ==> m.cow == c && m !in z && (m in f || fresh(m) || m in old(c.freelist.Nodes())))
    && (forall m :: m in c.freelist.Nodes() ==> m in f || fresh(m) || m in old(c.freelist.Nodes()))
  }

  /** growChildAndRemove, third case: merge with the right sibling and free it. */
  method MergeAt<T(!new)>(lt: Less<T>, n: HeapNode<T>, i: nat, c: Context<T>, ghost s: Shape<T>,
      ghost k: set<HeapNode<T>>, ghost z: set<HeapNode<T>>)
    returns (ghost s': Shape<T>, ghost k': set<HeapNode<T>>, ghost f: set<HeapNode<T>>)
    requires StrictWeak(lt) && Sorted(lt, Flatten(Abs(s))) && ShapeOk(s)
    requires |s.kids| == |s.items| + 1 && i < |s.items| && |s.kids[i + 1].items| > 0 && Inner(Abs(s))
    requires Private(n, s, k) && n.cow == c && Calm(c, n, k, z) && Mine(c, k) !! z
    modifies n, c.freelist, c.freelist.Nodes(), Mine(c, k)
    ensures Private(n, s', k') && n.cow == c && Calm(c, n, k', z) && Reworks(c, Abs(s), k, f, k', z)
    ensures c.freelist.emptied == Counted(old(c.freelist.emptied), f)
    ensures Spent(f, k') && Spent(old(c.freelist.Nodes()), k') && (c.freelist.capacity == 0 ==> f !! k')
    ensures Abs(s') == Merge(Abs(s), i) && SameBelow(s', MergedShape(s, i))
    ensures s.kids[i + 1].ref in k && f == old(Mine(c, {s.kids[i + 1].ref})) && f !! k'
  {
    hide Flatten, Sorted, StrictWeak, Abs, AbsAll, ShapeOk, HoldsIn, JoinedShape, MergeShape, Merge, Private, Counted;
    var child, mergeChild;
    ghost var j;
    child, mergeChild, j := JoinAt(n, i, c, s, k, z);
    JoinedAbs(s.kids[i], s.items[i], s.kids[i + 1], child);
    MergeAbs(s, i, j);
    f := Mine(c, {mergeChild});
    MergeHeld(lt, n, s, i, j, mergeChild, f, k);
    assert f == if mergeChild.cow == c then {mergeChild} else {};
    var more := FreeNode(c, mergeChild);
    s', k' := MergeShape(s, i, j), (k - f) + {child};
    MergedSame(s, i, child);
  }

  lemma MergeHeld<T(!new)>(lt: Less<T>, n: HeapNode<T>, s: Shape<T>, i: nat, j: Shape<T>, m: HeapNode<T>,
      f: set<HeapNode<T>>, k: set<HeapNode<T>>)
    requires StrictWeak(lt) && Sorted(lt, Flatten(Abs(s))) && ShapeOk(s) && i < |s.items| && |s.kids| == |s.items| + 1
    requires m.items == s.kids[i + 1].items && |m.items| > 0 && m == s.kids[i + 1].ref && f <= {m} <= k
    requires j == JoinedShape(s.kids[i], s.items[i], s.kids[i + 1], j.ref) && Private(j.ref, j, k)
    requires forall a :: 0 <= a < |s.kids| ==> HoldsIn(s.kids[a], k)
    requires n == s.ref && n !in k && n != j.ref && n.items == s.items[..i] + s.items[i + 1..]
    requires |n.children| == |s.kids| - 1 && n.children[i] == j.ref
    requires forall a :: 0 <= a < |n.children| && a != i ==> n.children[a] == s.kids[if a < i then a else a + 1].ref
    ensures Private(n, MergeShape(s, i, j), (k - f) + {j.ref})
    ensures m.items[0] in Flatten(Abs(s))
  {
    hide Flatten, StrictWeak, Sorted, Abs, AbsAll, ShapeOk, HoldsIn, JoinedShape;
    MergeItemIn(s, i);
    var s', k' := MergeShape(s, i, j), (k - f) + {j.ref};
    if f == {} {
      assert k - f == k;
    } else {
      assert f == {m};
      JoinedAvoids(lt, s, i, j, m, k);
      SiblingsAvoid(lt, s, i, m, k);
    }
    Freeze(j.ref, j, k - f);
    forall a | 0 <= a < |s'.kids| ensures HoldsIn(s'.kids[a], k') && s'.kids[a].ref == n.children[a] {
      if a != i {
        var b := if a < i then a else a + 1;
        assert s'.kids[a] == s.kids[b];
        Widen(s.kids[b], k - f, k');
      }
    }
    PrivateIntro(n, s', k');
  }

  lemma MergeItemIn<T>(s: Shape<T>, i: nat)
    requires ShapeOk(s) && i < |s.items| && |s.kids| == |s.items| + 1 && |s.kids[i + 1].items| > 0
    ensures s.kids[i + 1].items[0] in Flatten(Abs(s))
  {
    hide Flatten;
    var r := s.kids[i + 1];
    assert ShapeOk(r);
    var p := ItemAt(Abs(r), 0);
    KidItemsIn(s, i + 1, r.items[0]);
  }

  lemma {:induction false} ShapeOkOf<T>(s: Shape<T>, h: nat, d: nat)
    requires d >= 2 && Balanced(Abs(s), h, d)
    ensures ShapeOk(s)
    decreases h
  {
    forall i | 0 <= i < |s.kids| ensures ShapeOk(s.kids[i]) {
      assert Abs(s).children[i] == Abs(s.kids[i]);
      ShapeOkOf(s.kids[i], h - 1, d);
    }
  }

  /** What growing a child needs to know about the node. */
  lemma GrowFacts<T>(s: Shape<T>, h: nat, d: nat)
    requires d >= 2 && Balanced(Abs(s), h, d) && h > 0
    ensures ShapeOk(s) && Regular(s) && |s.kids| == |s.items| + 1 && Inner(Abs(s))
    ensures forall a :: 0 <= a < |s.kids| ==>
      LeafOrInner(Abs(s).children[a]) && |Abs(s).children[a].items| == |s.kids[a].items| >= d - 1
    ensures forall a, b :: 0 <= a < |s.kids| && 0 <= b < |s.kids| ==> KidsAlike(s.kids[a], s.kids[b])
  {
    ShapeOkOf(s, h, d);
    ChildrenAlike(Abs(s), h, d);
    forall a, b | 0 <= a < |s.kids| && 0 <= b < |s.kids| ensures KidsAlike(s.kids[a], s.kids[b]) {
      assert Alike(Abs(s).children[a], Abs(s).children[b]);
    }
  }

  /** The first half of node.growChildAndRemove. */
  method GrowAt<T(!new)>(lt: Less<T>, n: HeapNode<T>, i: nat, d: nat, c: Context<T>,
                         ghost s: Shape<T>, ghost k: set<HeapNode<T>>, ghost z: set<HeapNode<T>>, ghost h: nat)
    returns (ghost s': Shape<T>, ghost k': set<HeapNode<T>>, ghost f: set<HeapNode<T>>)
    requires StrictWeak(lt) && Sorted(lt, Flatten(Abs(s))) && d >= 2 && Balanced(Abs(s), h, d) && h > 0
    requires 0 < |s.items| && i <= |s.items|
    requires Inner(Abs(s)) && forall a :: 0 <= a < |Abs(s).children| ==> LeafOrInner(Abs(s).children[a])
    requires Private(n, s, k) && n.cow == c && Calm(c, n, k, z) && Mine(c, k) !! z
    modifies n, c.freelist, c.freelist.Nodes(), Mine(c, k)
    ensures Private(n, s', k') && n.cow == c && Calm(c, n, k', z) && Reworks(c, Abs(s), k, f, k', z)
    ensures c.freelist.emptied == Counted(old(c.freelist.emptied), f)
    ensures Spent(f, k') && Spent(old(c.freelist.Nodes()), k') && (c.freelist.capacity == 0 ==> f !! k')
    ensures Abs(s') == Grow(Abs(s), i, d) && Regular(s) && SameBelow(s', GrownShape(s, i, d))
    ensures MergedAt(s, i, d) <= k && f == MergedAt(s, i, d) * old(Mine(c, k)) && f !! k'
  {
    hide Flatten, Sorted, StrictWeak, Balanced, AbsAll, ShapeOk, HoldsIn, StealLeft, StealRight, Merge, KidsAlike,
      SameBelow, StolenLeft, StolenRight, MergedShape, Regular, Counted;
    GrowFacts(s, h, d);
    KidItems(n, s, k);
    f := {};
    CountedNone(c.freelist.emptied);
    if i > 0 && |n.children[i - 1].items| > d - 1 {
      s', k' := StealLeftAt(n, i, c, s, k, z);
    } else if i < |n.items| && |n.children[i + 1].items| > d - 1 {
      s', k' := StealRightAt(n, i, c, s, k, z);
    } else {
      var j := if i >= |n.items| then i - 1 else i;
      s', k', f := MergeAt(lt, n, j, c, s, k, z);
    }
  }

  // ----- removal -----

  /** The nodes of k whose first item is one of ys. */
  ghost function Holders<T>(ys: seq<T>, k: set<HeapNode<T>>): set<HeapNode<T>>
    reads k
  {
    set m | m in k && |m.items| > 0 && m.items[0] in ys
  }

  /** The kids beside the one that was worked on avoid the nodes given back. */
  lemma SiblingsKept<T(!new)>(lt: Less<T>, s: Shape<T>, i: nat, f: set<HeapNode<T>>, k: set<HeapNode<T>>)
    requires StrictWeak(lt) && Sorted(lt, Flatten(Abs(s))) && ShapeOk(s) && i < |s.kids| == |s.items| + 1
    requires forall a :: 0 <= a < |s.kids| ==> HoldsIn(s.kids[a], k)
    requires forall m :: m in f ==> |m.items| > 0 && m.items[0] in Flatten(Abs(s.kids[i]))
    ensures forall a :: 0 <= a < |s.kids| && a != i ==> HoldsIn(s.kids[a], k - f)
    ensures forall m :: m in f ==> m.items[0] in Flatten(Abs(s))
  {
    hide Flatten, StrictWeak, Sorted, HoldsIn;
    var t := Abs(s);
    forall a | 0 <= a < |s.kids| && a != i ensures HoldsIn(s.kids[a], k - f) {
      forall m | m in f ensures m.items[0] !in Flatten(Abs(s.kids[a])) {
        assert t.children[i] == Abs(s.kids[i]) && t.children[a] == Abs(s.kids[a]);
        ElsewhereNot(lt, t, i, a, m.items[0]);
      }
      AvoidsAll(s.kids[a], k, f);
    }
    forall m | m in f ensures m.items[0] in Flatten(Abs(s)) { KidItemsIn(s, i, m.items[0]); }
  }

  /** mutableChild, then remove from the copy. */
  method RemoveInChild<T(!new)>(lt: Less<T>, n: HeapNode<T>, i: nat, typ: Removal<T>, d: nat, c: Context<T>,
                                ghost s: Shape<T>, ghost kid: Tree<T>, ghost k: set<HeapNode<T>>,
                                ghost z: set<HeapNode<T>>, ghost h: nat)
    returns (out: Option<T>, ghost s': Shape<T>, ghost k': set<HeapNode<T>>, ghost f: set<HeapNode<T>>)
    requires StrictWeak(lt) && d >= 2 && Sorted(lt, Flatten(kid)) && Balanced(kid, h, d) && Removable(kid, typ, d)
    requires Sorted(lt, Flatten(Abs(s))) && Balanced(Abs(s), h + 1, d) && i < |Abs(s).children| &&
      Abs(s).children[i] == kid
    requires Private(n, s, k) && n.cow == c && Calm(c, n, k, z) && Mine(c, k) !! z
    modifies n, c.freelist, c.freelist.Nodes(), Mine(c, k)
    ensures Private(n, s', k') && n.cow == c && Calm(c, n, k', z) && Reworks(c, Abs(s), k, f, k', z)
    ensures c.freelist.emptied == Counted(old(c.freelist.emptied), f)
    ensures Spent(f, k') && Spent(old(c.freelist.Nodes()), k') && (c.freelist.capacity == 0 ==> f !! k')
    ensures s'.items == s.items && i < |s.kids| && f == Merged(lt, s.kids[i], typ, d, h) * old(Mine(c, k))
    ensures out == Remove(lt, kid, typ, d, h).out
    ensures Abs(s') == Node(s.items, Abs(s).children[i := Remove(lt, kid, typ, d, h).tree])
    decreases h + 1, 0, 0
  {
    hide HoldsIn, Remove, Balanced, Flatten, Sorted, StrictWeak, Removable, Private, Abs, AbsAll, Merged, Spent,
      Counted;
    var m;
    ghost var all, sm, sm', km;
    m, sm, all := OpenChild(lt, n, i, c, s, kid, k, z, h, d);
    MergedCopy(lt, sm, s.kids[i], typ, d, h);
    ghost var listed := c.freelist.Nodes();
    out, sm', km, f := RemoveNode(lt, m, typ, d, c, sm, k, z + {n}, h);
    assert f <= all;
    s', k' := Shape(n, s.items, s.kids[i := sm']), km + {m};
    PrivateRef(m, sm', km);
    SpentWiden(f, km, f, k');
    SpentWiden(listed, km, old(c.freelist.Nodes()), k');
    assert k - all <= km && n !in km;
    KidRebuilt(n, s, i, m, sm', k - all, km);
    KidsOf(s);
  }

  /** A private copy of child i; the other children do without any node that holds its items. */
  method OpenChild<T(!new)>(lt: Less<T>, n: HeapNode<T>, i: nat, c: Context<T>,
                            ghost s: Shape<T>, ghost kid: Tree<T>, ghost k: set<HeapNode<T>>,
                            ghost z: set<HeapNode<T>>, ghost h: nat, ghost d: nat)
    returns (m: HeapNode<T>, ghost sm: Shape<T>, ghost all: set<HeapNode<T>>)
    requires StrictWeak(lt) && d >= 2
    requires Sorted(lt, Flatten(Abs(s))) && Balanced(Abs(s), h + 1, d) && i < |Abs(s).children| &&
      Abs(s).children[i] == kid
    requires Private(n, s, k) && n.cow == c && Calm(c, n, k, z)
    modifies n, c.freelist, c.freelist.Nodes()
    ensures n.cow == c && m.cow == c && m != n && n !in k && s.ref == n && n.items == s.items
    ensures i < |n.children| == |s.kids| && n.children[i] == m
    ensures forall a :: 0 <= a < |s.kids| && a != i ==> n.children[a] == s.kids[a].ref && HoldsIn(s.kids[a], k - all)
    ensures all == Holders(Flatten(kid), k) && all <= Holders(Flatten(Abs(s)), k)
    ensures Private(m, sm, k) && Abs(sm) == kid && sm == Shape(m, s.kids[i].items, s.kids[i].kids)
    ensures c.freelist.emptied == old(c.freelist.emptied)
    ensures Calm(c, n, k, z) && Calm(c, m, k, z)
    ensures c.freelist.Nodes() <= old(c.freelist.Nodes()) <= c.freelist.Nodes() + {m}
    ensures fresh(m) || m in old(c.freelist.Nodes())
  {
    hide HoldsIn, Balanced, Flatten, Sorted, StrictWeak, ShapeOk, Private, KidsAlike, AbsAll;
    GrowFacts(s, h + 1, d);
    HeldKids(n, s, k);
    assert kid == Abs(s.kids[i]);
    m, sm := MutableChild(n, i, c, s.kids[i], k, z);
    CopyAbs(s.kids[i], m);
    all := Holders(Flatten(kid), k);
    SiblingsKept(lt, s, i, all, k);
  }

  /** The rest of node.remove, when the child it goes into has room. */
  method RemoveDown<T(!new)>(lt: Less<T>, n: HeapNode<T>, i: nat, found: bool, typ: Removal<T>, d: nat, c: Context<T>,
                             ghost s: Shape<T>, ghost k: set<HeapNode<T>>, ghost z: set<HeapNode<T>>, ghost h: nat)
    returns (out: Option<T>, ghost s': Shape<T>, ghost k': set<HeapNode<T>>, ghost f: set<HeapNode<T>>)
    requires StrictWeak(lt) && Sorted(lt, Flatten(Abs(s))) && d >= 2 && Balanced(Abs(s), h, d) && h > 0 && Inner(Abs(s))
    requires i == Target(lt, Abs(s), typ) && found == Hit(lt, Abs(s), typ) && (found ==> i < |s.items|)
    requires Sorted(lt, Flatten(Abs(s).children[i])) && Balanced(Abs(s).children[i], h - 1, d)
    requires Removable(Abs(s).children[i], RemoveMax, d)
    requires Private(n, s, k) && n.cow == c && Calm(c, n, k, z) && Mine(c, k) !! z
    modifies n, c.freelist, c.freelist.Nodes(), Mine(c, k)
    ensures Private(n, s', k') && n.cow == c && Calm(c, n, k', z) && Reworks(c, Abs(s), k, f, k', z)
    ensures c.freelist.emptied == Counted(old(c.freelist.emptied), f)
    ensures Spent(f, k') && Spent(old(c.freelist.Nodes()), k') && (c.freelist.capacity == 0 ==> f !! k')
    ensures Step(Abs(s'), out) == RemoveBelow(lt, Abs(s), typ, d, h)
    ensures f == MergedBelow(lt, s, typ, d, h) * old(Mine(c, k))
    decreases h, 0, 1
  {
    hide HoldsIn, Remove, Balanced, Flatten, Sorted, StrictWeak, Target, Find, AbsAll, Merged, Counted;
    if found {
      var was := n.items[i];
      out, s', k', f := RemoveInChild(lt, n, i, RemoveMax, d, c, s, Abs(s).children[i], k, z, h - 1);
      n.items := n.items[i := out.value];
      s', out := Shape(n, s'.items[i := out.value], s'.kids), Some(was);
    } else {
      out, s', k', f := RemoveInChild(lt, n, i, typ, d, c, s, Abs(s).children[i], k, z, h - 1);
    }
  }

  /** The first switch of node.remove: the child to go into, and whether the item is in the node. */
  method FindTarget<T(!new)>(lt: Less<T>, items: seq<T>, typ: Removal<T>, ghost t: Tree<T>)
    returns (i: nat, found: bool)
    requires StrictWeak(lt) && Sorted(lt, items) && t.items == items
    ensures i == Target(lt, t, typ) && found == Hit(lt, t, typ) && i <= |items| && (found ==> i < |items|)
  {
    found := false;
    match typ {
      case RemoveItem(x) =>
        var r := FindSlot(lt, items, x);
        i, found := r.index, r.found;
        FindIsSlot(lt, items, x);
      case RemoveMin => i := 0;
      case RemoveMax => i := |items|;
    }
  }

  /** node.remove at a leaf: pop, or removeAt of items. */
  method RemoveLeaf<T(!new)>(lt: Less<T>, n: HeapNode<T>, i: nat, found: bool, typ: Removal<T>, ghost s: Shape<T>,
      ghost k: set<HeapNode<T>>)
    returns (out: Option<T>, ghost s': Shape<T>)
    requires Private(n, s, k) && s.kids == [] && (typ.RemoveItem? || |s.items| > 0)
    requires i == Target(lt, Abs(s), typ) && found == Hit(lt, Abs(s), typ) && (found ==> i < |s.items|)
    modifies n`items
    ensures Private(n, s', k)
    ensures var r := FlatRemove(lt, s.items, typ);
      out == r.out && Abs(s') == Node(r.items, [])
  {
    hide Find;
    out := None;
    match typ {
      case RemoveItem(x) =>
        if found {
          out := Some(n.items[i]);
          n.items := n.items[..i] + n.items[i + 1..];
        }
      case RemoveMin =>
        out := Some(n.items[0]);
        n.items := n.items[1..];
      case RemoveMax =>
        out := Some(n.items[|n.items| - 1]);
        n.items := n.items[..|n.items| - 1];
    }
    s' := Shape(n, n.items, []);
  }

  lemma NodeSorted<T(!new)>(lt: Less<T>, s: Shape<T>, h: nat, d: nat)
    requires StrictWeak(lt) && d >= 2 && Balanced(Abs(s), h, d) && Sorted(lt, Flatten(Abs(s)))
    ensures Sorted(lt, s.items) && |s.kids| == (if h == 0 then 0 else |s.items| + 1)
    ensures forall i :: 0 <= i < |s.kids| ==> |Abs(s).children[i].items| == |s.kids[i].items|
  {
    hide Flatten, Find;
    NodeKind(Abs(s), h, d);
    ItemsSorted(lt, Abs(s), h, d);
  }

  lemma MergedLeaf<T>(lt: Less<T>, s: Shape<T>, typ: Removal<T>, d: nat, h: nat)
    requires d >= 2 && s.kids == []
    ensures Merged(lt, s, typ, d, h) == {}
  {
  }

  lemma MergedRoomy<T>(lt: Less<T>, s: Shape<T>, typ: Removal<T>, d: nat, h: nat)
    requires d >= 2 && h > 0 && Balanced(Abs(s), h, d) && |Abs(s).children[Target(lt, Abs(s), typ)].items| > d - 1
    ensures Merged(lt, s, typ, d, h) == MergedBelow(lt, s, typ, d, h)
  {
    hide Target, MergedBelow, AbsAll, Balanced;
    GrowFacts(s, h, d);
  }

  /** A removal that first grows the child: the node merged there, then those of the retry. */
  lemma MergedTight<T>(lt: Less<T>, s: Shape<T>, s1: Shape<T>, typ: Removal<T>, d: nat, h: nat, n: HeapNode<T>,
      k: set<HeapNode<T>>)
    requires d >= 2 && h > 0 && Balanced(Abs(s), h, d) && |s.items| > 0 && Regular(s) && Private(n, s1, k)
    requires |Abs(s).children[Target(lt, Abs(s), typ)].items| <= d - 1
    requires Balanced(Abs(s1), h, d) && |Abs(s1).children[Target(lt, Abs(s1), typ)].items| > d - 1
    requires SameBelow(s1, GrownShape(s, Target(lt, Abs(s), typ), d))
    ensures Merged(lt, s, typ, d, h) == MergedAt(s, Target(lt, Abs(s), typ), d) + Merged(lt, s1, typ, d, h)
    ensures Merged(lt, s1, typ, d, h) <= k
    ensures Merged(lt, s1, typ, d, h) == MergedBelow(lt, GrownShape(s, Target(lt, Abs(s), typ), d), typ, d, h)
  {
    hide Target, MergedBelow, AbsAll, Balanced, MergedAt, GrownShape, SameBelow, HoldsIn, Regular;
    GrowFacts(s, h, d);
    MergedRoomy(lt, s1, typ, d, h);
    MergedBelowSame(lt, s1, GrownShape(s, Target(lt, Abs(s), typ), d), typ, d, h);
    MergedHeld(lt, s1, typ, d, h, k);
  }

  /** The nodes that the retry merges are there before the child is grown. */
  lemma MergedSoon<T>(lt: Less<T>, s: Shape<T>, typ: Removal<T>, d: nat, h: nat, n: HeapNode<T>, k: set<HeapNode<T>>)
    requires d >= 2 && h > 0 && Balanced(Abs(s), h, d) && |s.items| > 0 && Private(n, s, k)
    ensures Regular(s) && Target(lt, Abs(s), typ) <= |s.items|
    ensures MergedBelow(lt, GrownShape(s, Target(lt, Abs(s), typ), d), typ, d, h) <= k
  {
    hide Target, MergedBelow, AbsAll, Balanced, GrownShape, HoldsIn, Regular;
    GrowFacts(s, h, d);
    ItemsAbs(s);
    GrownHeld(s, Target(lt, Abs(s), typ), d, k);
    MergedBelowHeld(lt, GrownShape(s, Target(lt, Abs(s), typ), d), typ, d, h, k);
  }

  /** The merged nodes are nodes of the shape. */
  lemma {:induction false} MergedHeld<T>(lt: Less<T>, s: Shape<T>, typ: Removal<T>, d: nat, h: nat, k: set<HeapNode<T>>)
    requires d >= 2 && AllHeld(s.kids, k)
    ensures Merged(lt, s, typ, d, h) <= k
    decreases h, 1
  {
    hide Target, MergedBelow, AbsAll, GrownShape, HoldsIn, AllHeld;
    if h > 0 && Regular(s) {
      ItemsAbs(s);
      var i := Target(lt, Abs(s), typ);
      KidsKidsHeld(s, k);
      MergedBelowHeld(lt, s, typ, d, h, k);
      if |s.items| > 0 {
        GrownHeld(s, i, d, k);
        MergedBelowHeld(lt, GrownShape(s, i, d), typ, d, h, k);
      }
    }
  }

  lemma {:induction false} MergedBelowHeld<T>(lt: Less<T>, s: Shape<T>, typ: Removal<T>, d: nat, h: nat,
      k: set<HeapNode<T>>)
    requires d >= 2 && h > 0 && forall a :: 0 <= a < |s.kids| ==> AllHeld(s.kids[a].kids, k)
    ensures MergedBelow(lt, s, typ, d, h) <= k
    decreases h, 0
  {
    hide Target, Merged, AbsAll, HoldsIn, AllHeld, Hit;
    var i := Target(lt, Abs(s), typ);
    if i < |s.kids| { MergedHeld(lt, s.kids[i], if Hit(lt, Abs(s), typ) then RemoveMax else typ, d, h - 1, k); }
  }

  lemma KidsKidsHeld<T>(s: Shape<T>, k: set<HeapNode<T>>)
    requires AllHeld(s.kids, k)
    ensures forall a :: 0 <= a < |s.kids| ==> AllHeld(s.kids[a].kids, k) && s.kids[a].ref in k
  {
    forall a | 0 <= a < |s.kids| ensures AllHeld(s.kids[a].kids, k) && s.kids[a].ref in k { RightHeld(s.kids[a], k); }
  }

  lemma GrownHeld<T>(s: Shape<T>, i: nat, d: nat, k: set<HeapNode<T>>)
    requires d >= 2 && Regular(s) && 0 < |s.items| && i <= |s.items| && AllHeld(s.kids, k)
    ensures var g := GrownShape(s, i, d); forall a :: 0 <= a < |g.kids| ==> AllHeld(g.kids[a].kids, k)
    ensures MergedAt(s, i, d) <= k
  {
    hide HoldsIn, AllHeld;
    KidsKidsHeld(s, k);
    if i > 0 && |s.kids[i - 1].items| > d - 1 {
      TakenHeld(s.kids[i - 1], s.kids[i], k);
    } else if i < |s.items| && |s.kids[i + 1].items| > d - 1 {
      TakenHeld(s.kids[i], s.kids[i + 1], k);
    } else {
      var j := if i >= |s.items| then i - 1 else i;
      TakenHeld(s.kids[j], s.kids[j + 1], k);
    }
  }

  /** Whatever of two neighbours' kids ends up in one node is held. */
  lemma TakenHeld<T>(l: Shape<T>, r: Shape<T>, k: set<HeapNode<T>>)
    requires AllHeld(l.kids, k) && AllHeld(r.kids, k)
    ensures AllHeld(l.kids + r.kids, k)
    ensures l.kids != [] ==> AllHeld(l.kids[..|l.kids| - 1], k) && AllHeld([l.kids[|l.kids| - 1]] + r.kids, k)
    ensures r.kids != [] ==> AllHeld(r.kids[1..], k) && AllHeld(l.kids + [r.kids[0]], k)
  {
    hide HoldsIn;
  }

  /** node.remove on a private node. */
  method RemoveNode<T(!new)>(lt: Less<T>, n: HeapNode<T>, typ: Removal<T>, d: nat, c: Context<T>,
                             ghost s: Shape<T>, ghost k: set<HeapNode<T>>, ghost z: set<HeapNode<T>>, ghost h: nat)
    returns (out: Option<T>, ghost s': Shape<T>, ghost k': set<HeapNode<T>>, ghost f: set<HeapNode<T>>)
    requires StrictWeak(lt) && Sorted(lt, Flatten(Abs(s))) && d >= 2 && Balanced(Abs(s), h, d) &&
      Removable(Abs(s), typ, d)
    requires Private(n, s, k) && n.cow == c && Calm(c, n, k, z) && Mine(c, k) !! z
    modifies n, c.freelist, c.freelist.Nodes(), Mine(c, k)
    ensures Private(n, s', k') && n.cow == c && Calm(c, n, k', z) && Reworks(c, Abs(s), k, f, k', z)
    ensures c.freelist.emptied == Counted(old(c.freelist.emptied), f)
    ensures Spent(f, k') && Spent(old(c.freelist.Nodes()), k') && (c.freelist.capacity == 0 ==> f !! k')
    ensures Step(Abs(s'), out) == Remove(lt, Abs(s), typ, d, h) && f == Merged(lt, s, typ, d, h) * old(Mine(c, k))
    decreases h, 1 + Tight(lt, Abs(s), typ, d), 0
  {
    hide HoldsIn, Balanced, Flatten, Sorted, StrictWeak, Find, Grow, RemoveBelow, AbsAll, FlatRemove, Merged,
      MergedBelow, Counted;
    ghost var t := Abs(s);
    NodeKind(t, h, d);
    NodeSorted(lt, s, h, d);
    KidItems(n, s, k);
    var i, found := FindTarget(lt, n.items, typ, t);
    if |n.children| == 0 {
      k', f := k, {};
      CountedNone(c.freelist.emptied);
      MergedLeaf(lt, s, typ, d, h);
      out, s' := RemoveLeaf(lt, n, i, found, typ, s, k);
    } else if |n.children[i].items| <= d - 1 {
      out, s', k', f := GrowChildAndRemove(lt, n, i, typ, d, c, s, k, z, h);
    } else {
      ChildReady(lt, t, i, d, h);
      MergedRoomy(lt, s, typ, d, h);
      out, s', k', f := RemoveDown(lt, n, i, found, typ, d, c, s, k, z, h);
    }
  }

  /** The retry. Nodes given back before stay spent. */
  method Retry<T(!new)>(lt: Less<T>, n: HeapNode<T>, typ: Removal<T>, d: nat, c: Context<T>, ghost s: Shape<T>,
                        ghost k: set<HeapNode<T>>, ghost z: set<HeapNode<T>>, ghost h: nat, ghost ns: set<HeapNode<T>>)
    returns (out: Option<T>, ghost s': Shape<T>, ghost k': set<HeapNode<T>>, ghost f: set<HeapNode<T>>)
    requires StrictWeak(lt) && Sorted(lt, Flatten(Abs(s))) && d >= 2 && Balanced(Abs(s), h, d) &&
      Removable(Abs(s), typ, d)
    requires Private(n, s, k) && n.cow == c && Calm(c, n, k, z) && Mine(c, k) !! z
    requires Spent(ns, k) && n !in ns
    modifies n, c.freelist, c.freelist.Nodes(), Mine(c, k)
    ensures Private(n, s', k') && n.cow == c && Calm(c, n, k', z) && Reworks(c, Abs(s), k, f, k', z)
    ensures c.freelist.emptied == Counted(old(c.freelist.emptied), f)
    ensures Spent(f, k') && Spent(ns, k') && (c.freelist.capacity == 0 ==> f !! k')
    ensures Step(Abs(s'), out) == Remove(lt, Abs(s), typ, d, h) && f == Merged(lt, s, typ, d, h) * old(Mine(c, k))
    decreases h, 1 + Tight(lt, Abs(s), typ, d), 1
  {
    hide HoldsIn, Balanced, Flatten, Sorted, StrictWeak, Private, Target, Merged, Remove, Removable, Abs, AbsAll,
      Find, Counted;
    ghost var listed := c.freelist.Nodes();
    out, s', k', f := RemoveNode(lt, n, typ, d, c, s, k, z, h);
    forall m | m in ns ensures SpentNode(m, k') {
      if m !in listed && m in k && m !in f { assert m in k - f; }
    }
  }

  /** Growing the target child, and what is left to do then: the same removal, which merges the rest
      of the nodes to merge. */
  method GrowTargetAt<T(!new)>(lt: Less<T>, n: HeapNode<T>, i: nat, typ: Removal<T>, d: nat, c: Context<T>,
                               ghost s: Shape<T>, ghost k: set<HeapNode<T>>, ghost z: set<HeapNode<T>>, ghost h: nat)
    returns (ghost s': Shape<T>, ghost k': set<HeapNode<T>>, ghost f: set<HeapNode<T>>)
    requires StrictWeak(lt) && Sorted(lt, Flatten(Abs(s))) && d >= 2 && Balanced(Abs(s), h, d) && h > 0
    requires Inner(Abs(s)) && i == Target(lt, Abs(s), typ) && |Abs(s).children[i].items| <= d - 1 &&
      Removable(Abs(s), typ, d)
    requires Private(n, s, k) && n.cow == c && Calm(c, n, k, z) && Mine(c, k) !! z
    modifies n, c.freelist, c.freelist.Nodes(), Mine(c, k)
    ensures Private(n, s', k') && n.cow == c && Calm(c, n, k', z) && Reworks(c, Abs(s), k, f, k', z)
    ensures c.freelist.emptied == Counted(old(c.freelist.emptied), f)
    ensures Spent(f, k') && Spent(old(c.freelist.Nodes()), k') && f !! k' && n !in k && n !in k'
    ensures Flatten(Abs(s')) == Flatten(Abs(s)) && Balanced(Abs(s'), h, d) && Removable(Abs(s'), typ, d)
    ensures Remove(lt, Abs(s'), typ, d, h) == Remove(lt, Abs(s), typ, d, h) && Tight(lt, Abs(s'), typ, d) == 0
    ensures Merged(lt, s', typ, d, h) <= k
    ensures f + Merged(lt, s', typ, d, h) * Mine(c, k') == Merged(lt, s, typ, d, h) * old(Mine(c, k))
  {
    hide HoldsIn, Balanced, Flatten, Sorted, StrictWeak, Find, Grow, RemoveBelow, AbsAll, FlatRemove, Private, Target,
      Regular, SameBelow, GrownShape, MergedAt, Merged, MergedBelow, Spent, Counted;
    GrowTarget(lt, Abs(s), typ, d, h);
    PrivateRef(n, s, k);
    MergedSoon(lt, s, typ, d, h, n, k);
    ghost var mine := Mine(c, k);
    s', k', f := GrowAt(lt, n, i, d, c, s, k, z, h);
    MergedTight(lt, s, s', typ, d, h, n, k');
    PrivateRef(n, s', k');
    FreedTogether(MergedAt(s, i, d), Merged(lt, s', typ, d, h), mine, Mine(c, k'), k, k');
  }

  lemma FreedTogether<T>(a: set<T>, b: set<T>, mine: set<T>, mine': set<T>, k: set<T>, k': set<T>)
    requires b <= k && b <= k' && mine' * k == mine * k' && mine <= k && mine' <= k'
    ensures a * mine + b * mine' == (a + b) * mine
  {
    forall m | m in b ensures m in mine' <==> m in mine {
      assert m in mine' * k <==> m in mine * k';
    }
  }

  /** node.growChildAndRemove: grow child i, then retry on the same node. */
  method GrowChildAndRemove<T(!new)>(lt: Less<T>, n: HeapNode<T>, i: nat, typ: Removal<T>, d: nat, c: Context<T>,
                                     ghost s: Shape<T>, ghost k: set<HeapNode<T>>, ghost z: set<HeapNode<T>>,
                                     ghost h: nat)
    returns (out: Option<T>, ghost s': Shape<T>, ghost k': set<HeapNode<T>>, ghost f: set<HeapNode<T>>)
    requires StrictWeak(lt) && Sorted(lt, Flatten(Abs(s))) && d >= 2 && Balanced(Abs(s), h, d) && h > 0
    requires Inner(Abs(s)) && i == Target(lt, Abs(s), typ) && |Abs(s).children[i].items| <= d - 1 &&
      Removable(Abs(s), typ, d)
    requires Private(n, s, k) && n.cow == c && Calm(c, n, k, z) && Mine(c, k) !! z
    modifies n, c.freelist, c.freelist.Nodes(), Mine(c, k)
    ensures Private(n, s', k') && n.cow == c && Calm(c, n, k', z) && Reworks(c, Abs(s), k, f, k', z)
    ensures c.freelist.emptied == Counted(old(c.freelist.emptied), f)
    ensures Spent(f, k') && Spent(old(c.freelist.Nodes()), k') && (c.freelist.capacity == 0 ==> f !! k')
    ensures Step(Abs(s'), out) == Remove(lt, Abs(s), typ, d, h) && f == Merged(lt, s, typ, d, h) * old(Mine(c, k))
    decreases h, 1, 2
  {
    hide HoldsIn, Balanced, Flatten, Sorted, StrictWeak, Remove, Removable, Tight, Abs, AbsAll, Private, Target,
      Merged, Spent, Counted;
    ghost var s1, k1, f1, f2;
    ghost var was := old(c.freelist.Nodes());
    s1, k1, f1 := GrowTargetAt(lt, n, i, typ, d, c, s, k, z, h);
    SpentUnion(f1, was, k1, f1 + was);
    out, s', k', f2 := Retry(lt, n, typ, d, c, s1, k1, z, h, f1 + was);
    f := f1 + f2;
    assert f2 <= k && f1 !! f2;
    assert k' - (k - f) <= (k1 - (k - f1)) + (k' - (k1 - f2)) && k - f <= k1 - f2;
    assert Reworks(c, Abs(s), k, f, k', z);
    CountedBoth(old(c.freelist.emptied), f1, f2);
    SpentUnion(f1 + was, f2, k', f);
    SpentUnion(f1 + was, {}, k', was);
  }
}
