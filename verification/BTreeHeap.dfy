/** The same tree on the heap, as util/btree builds it: nodes are objects, a write first copies
    the node (mutableFor), contexts mark which tree owns a node, and freed nodes are kept on a
    free list that several trees may share. */
module BTreeHeap {
  import opened Orders
  import opened BTreeModel

  class HeapNode<T> {
    var items: seq<T>
    var children: seq<HeapNode<T>>
    var cow: Context?<T>

    constructor ()
      ensures items == [] && children == [] && cow == null
    {
      items, children, cow := [], [], null;
    }
  }

  class FreeList<T> {
    const capacity: nat
    var nodes: seq<HeapNode<T>>
    /** How often each node has been emptied on its way here, whatever became of it afterwards. */
    ghost var emptied: multiset<HeapNode<T>>

    constructor (size: nat)
      ensures capacity == size && nodes == [] && emptied == multiset{}
    {
      capacity, nodes, emptied := size, [], multiset{};
    }

    ghost function Nodes(): set<HeapNode<T>>
      reads this
    {
      set m | m in nodes
    }

    /** Nodes on the list are blank, belong to nobody and occur once. */
    ghost predicate Valid()
      reads this, nodes
    {
      && |nodes| <= capacity
      && (forall i, j :: 0 <= i < j < |nodes| ==> nodes[i] != nodes[j])
      && (forall i :: 0 <= i < |nodes| ==> nodes[i].items == [] && nodes[i].children == [] && nodes[i].cow == null)
    }
  }

  /** copyOnWriteContext: only its identity and its free list matter. */
  class Context<T> {
    const freelist: FreeList<T>

    constructor (f: FreeList<T>)
      ensures freelist == f
    {
      freelist := f;
    }
  }

  // ----- what a heap structure stands for -----

  /** A tree of heap nodes as a value: which object sits where, and what it holds. */
  datatype Shape<T> = Shape(ref: HeapNode<T>, items: seq<T>, kids: seq<Shape<T>>)

  ghost function Abs<T>(s: Shape<T>): Tree<T> {
    Node(s.items, AbsAll(s.kids))
  }

  ghost function AbsAll<T>(ss: seq<Shape<T>>): (ts: seq<Tree<T>>)
    ensures |ts| == |ss|
    ensures forall i :: 0 <= i < |ss| ==> ts[i] == Abs(ss[i])
  {
    if ss == [] then [] else [Abs(ss[0])] + AbsAll(ss[1..])
  }

  /** The heap holds this shape, in nodes of k only. Writing outside k cannot disturb it. */
  ghost predicate HoldsIn<T>(s: Shape<T>, k: set<HeapNode<T>>)
    reads k
  {
    && s.ref in k
    && s.ref.items == s.items
    && |s.ref.children| == |s.kids|
    && (forall i :: 0 <= i < |s.kids| ==> s.ref.children[i] == s.kids[i].ref && HoldsIn(s.kids[i], k))
  }

  /** n is a node outside k whose children lie in k: it may be written freely. */
  ghost predicate Private<T>(n: HeapNode<T>, s: Shape<T>, k: set<HeapNode<T>>)
    reads n, k
  {
    && n !in k && s.ref == n
    && n.items == s.items
    && |n.children| == |s.kids|
    && (forall i :: 0 <= i < |s.kids| ==> n.children[i] == s.kids[i].ref && HoldsIn(s.kids[i], k))
  }

  lemma {:induction false} Widen<T>(s: Shape<T>, k: set<HeapNode<T>>, k': set<HeapNode<T>>)
    requires HoldsIn(s, k) && k <= k'
    ensures HoldsIn(s, k')
  {
    forall i | 0 <= i < |s.kids| ensures HoldsIn(s.kids[i], k') { Widen(s.kids[i], k, k'); }
  }

  /** A private node that is not written any more counts as held. */
  lemma Freeze<T>(n: HeapNode<T>, s: Shape<T>, k: set<HeapNode<T>>)
    requires Private(n, s, k)
    ensures HoldsIn(s, k + {n})
  {
    forall i | 0 <= i < |s.kids| ensures HoldsIn(s.kids[i], k + {n}) { Widen(s.kids[i], k, k + {n}); }
  }

  lemma AbsUpdate<T>(ss: seq<Shape<T>>, i: nat, k: Shape<T>)
    requires i < |ss|
    ensures AbsAll(ss[i := k]) == AbsAll(ss)[i := Abs(k)]
  {
    hide Abs, AbsAll;
  }

  lemma AbsSlice<T>(ss: seq<Shape<T>>, lo: nat, hi: nat)
    requires lo <= hi <= |ss|
    ensures AbsAll(ss[lo..hi]) == AbsAll(ss)[lo..hi]
  {
    hide Abs, AbsAll;
  }

  lemma AbsConcat<T>(a: seq<Shape<T>>, b: seq<Shape<T>>)
    ensures AbsAll(a + b) == AbsAll(a) + AbsAll(b)
  {
    hide Abs, AbsAll;
  }

  // ----- nodes, copies and the free list -----

  /** copyOnWriteContext.newNode with FreeList.newNode. */
  method NewNode<T>(c: Context<T>) returns (n: HeapNode<T>)
    requires c.freelist.Valid()
    modifies c.freelist, c.freelist.Nodes()
    ensures c.freelist.Valid() && n !in c.freelist.Nodes()
    ensures c.freelist.Nodes() <= old(c.freelist.Nodes()) <= c.freelist.Nodes() + {n}
    ensures n.items == [] && n.children == [] && n.cow == c
    ensures if old(c.freelist.nodes) == [] then fresh(n) && c.freelist.nodes == []
            else old(c.freelist.nodes) == c.freelist.nodes + [n]
    ensures fresh(n) || n in old(c.freelist.Nodes())
    ensures forall m :: m in old(c.freelist.Nodes()) && m != n ==> unchanged(m)
    ensures c.freelist.emptied == old(c.freelist.emptied)
  {
    var f := c.freelist;
    if |f.nodes| == 0 {
      n := new HeapNode<T>();
    } else {
      n := f.nodes[|f.nodes| - 1];
      f.nodes := f.nodes[..|f.nodes| - 1];
    }
    n.cow := c;
  }

  /** Each of the nodes f counted once more. */
  ghost function Counted<T>(e: multiset<HeapNode<T>>, f: set<HeapNode<T>>): multiset<HeapNode<T>> {
    e + multiset(f)
  }

  lemma CountedNone<T>(e: multiset<HeapNode<T>>)
    ensures Counted(e, {}) == e
  {
  }

  lemma CountedBoth<T>(e: multiset<HeapNode<T>>, f: set<HeapNode<T>>, g: set<HeapNode<T>>)
    requires f !! g
    ensures Counted(Counted(e, f), g) == Counted(e, f + g)
  {
    assert multiset(f) + multiset(g) == multiset(f + g);
  }

  /** copyOnWriteContext.freeNode: only a node owned by the context is blanked and put on the list,
      or dropped when the list is full. Returns whether the list still had room. */
  method FreeNode<T>(c: Context<T>, n: HeapNode<T>) returns (more: bool)
    requires c.freelist.Valid() && n !in c.freelist.Nodes()
    modifies c.freelist, if n.cow == c then {n} else {}
    ensures c.freelist.Valid() && c.freelist.Nodes() <= old(c.freelist.Nodes()) + (if old(n.cow) == c then {n} else {})
    ensures old(c.freelist.Nodes()) <= c.freelist.Nodes()
    ensures old(n.cow) == c ==> n.items == [] && n.children == [] && n.cow == null
    ensures c.freelist.emptied == Counted(old(c.freelist.emptied), if old(n.cow) == c then {n} else {})
    ensures old(n.cow) != c ==> unchanged(c.freelist)
    ensures more <==> old(n.cow) != c || n in c.freelist.Nodes()
    ensures !more ==> |c.freelist.nodes| == c.freelist.capacity
  {
    CountedNone(c.freelist.emptied);
    var f := c.freelist;
    if n.cow == c {
      n.items, n.children, n.cow := [], [], null;
      f.emptied := Counted(f.emptied, {n});
      more := |f.nodes| < f.capacity;
      if more { f.nodes := f.nodes + [n]; }
    } else {
      more := true;
    }
  }

  /** node.mutableFor: in this tree every write copies, owned or not. */
  method MutableFor<T>(n: HeapNode<T>, c: Context<T>) returns (m: HeapNode<T>)
    requires c.freelist.Valid() && n !in c.freelist.Nodes()
    modifies c.freelist, c.freelist.Nodes()
    ensures c.freelist.Valid() && m !in c.freelist.Nodes()
    ensures c.freelist.Nodes() <= old(c.freelist.Nodes()) <= c.freelist.Nodes() + {m}
    ensures m.items == old(n.items) && m.children == old(n.children) && m.cow == c
    ensures m != n && (fresh(m) || m in old(c.freelist.Nodes()))
    ensures forall k :: k in old(c.freelist.Nodes()) && k != m ==> unchanged(k)
    ensures c.freelist.emptied == old(c.freelist.emptied)
  {
    m := NewNode(c);
    m.items := n.items;
    m.children := n.children;
  }

  /** The free list, the nodes k of this tree and the nodes z of all others are separate, and n is
      in none of them. */
  ghost predicate Calm<T>(c: Context<T>, n: HeapNode<T>, k: set<HeapNode<T>>, z: set<HeapNode<T>>)
    reads c.freelist, c.freelist.nodes
  {
    c.freelist.Valid() && n !in c.freelist.Nodes() && k !! c.freelist.Nodes() && z !! c.freelist.Nodes() && n !in z
  }

  /** k' extends k by nodes owned by c that no other tree has. */
  ghost predicate Extends<T>(c: Context<T>, k: set<HeapNode<T>>, k': set<HeapNode<T>>, z: set<HeapNode<T>>)
    reads k' - k
  {
    k <= k' && (k' - k) !! z && forall m :: m in k' - k ==> m.cow == c
  }

  /** node.mutableChild: child i, held in k, is replaced in its parent by a private copy. */
  method MutableChild<T>(n: HeapNode<T>, i: nat, c: Context<T>, ghost s: Shape<T>, ghost k: set<HeapNode<T>>,
      ghost z: set<HeapNode<T>>)
    returns (m: HeapNode<T>, ghost sm: Shape<T>)
    requires i < |n.children| && n.children[i] == s.ref && HoldsIn(s, k) && n !in k && n.cow == c && Calm(c, n, k, z)
    modifies n, c.freelist, c.freelist.Nodes()
    ensures n.cow == c && n.items == old(n.items) && n.children == old(n.children)[i := m]
    ensures m.cow == c && m != n && sm == Shape(m, s.items, s.kids) && Private(m, sm, k)
    ensures Calm(c, n, k, z) && Calm(c, m, k, z)
    ensures c.freelist.Nodes() <= old(c.freelist.Nodes()) <= c.freelist.Nodes() + {m}
    ensures fresh(m) || m in old(c.freelist.Nodes())
    ensures c.freelist.emptied == old(c.freelist.emptied)
  {
    m := MutableFor(n.children[i], c);
    n.children := n.children[i := m];
    sm := Shape(m, s.items, s.kids);
  }

  // ----- split -----

  ghost function LeftShape<T>(s: Shape<T>, m: nat): Shape<T>
    requires m < |s.items| && (s.kids == [] || |s.kids| == |s.items| + 1)
  {
    Shape(s.ref, s.items[..m], if s.kids == [] then [] else s.kids[..m + 1])
  }

  ghost function RightShape<T>(s: Shape<T>, m: nat, next: HeapNode<T>): Shape<T>
    requires m < |s.items| && (s.kids == [] || |s.kids| == |s.items| + 1)
  {
    Shape(next, s.items[m + 1..], if s.kids == [] then [] else s.kids[m + 1..])
  }

  lemma KidsOf<T>(s: Shape<T>)
    ensures Abs(s).children == AbsAll(s.kids) && Abs(s).items == s.items
  {
  }

  lemma NoKids<T>()
    ensures AbsAll<T>([]) == []
  {
  }

  lemma SplitAbs<T>(s: Shape<T>, m: nat, next: HeapNode<T>)
    requires m < |s.items| && (s.kids == [] || |s.kids| == |s.items| + 1)
    ensures LeafOrInner(Abs(s))
    ensures Abs(LeftShape(s, m)) == SplitLeft(Abs(s), m)
    ensures Abs(RightShape(s, m, next)) == SplitRight(Abs(s), m)
  {
    hide AbsAll;
    NoKids<T>();
    if s.kids != [] {
      AbsSlice(s.kids, 0, m + 1);
      AbsSlice(s.kids, m + 1, |s.kids|);
      assert s.kids[0..m + 1] == s.kids[..m + 1] && s.kids[m + 1..|s.kids|] == s.kids[m + 1..];
    }
  }

  /** These nodes hold these shapes, one each. */
  ghost predicate Hold<T>(ch: seq<HeapNode<T>>, kids: seq<Shape<T>>, k: set<HeapNode<T>>)
    reads k
  {
    |ch| == |kids| && forall i :: 0 <= i < |kids| ==> ch[i] == kids[i].ref && HoldsIn(kids[i], k)
  }

  lemma PrivateHolds<T>(n: HeapNode<T>, s: Shape<T>, k: set<HeapNode<T>>)
    requires Private(n, s, k)
    ensures n !in k && s.ref == n && n.items == s.items && |n.children| == |s.kids| && Hold(n.children, s.kids, k)
  {
    hide HoldsIn;
  }

  lemma HoldsPrivate<T>(n: HeapNode<T>, s: Shape<T>, k: set<HeapNode<T>>)
    requires n !in k && s.ref == n && n.items == s.items && Hold(n.children, s.kids, k)
    ensures Private(n, s, k)
  {
    hide HoldsIn;
  }

  lemma HoldSlices<T>(ch: seq<HeapNode<T>>, kids: seq<Shape<T>>, k: set<HeapNode<T>>, j: nat)
    requires Hold(ch, kids, k) && j <= |ch|
    ensures |ch| == |kids| && Hold(ch[..j], kids[..j], k) && Hold(ch[j..], kids[j..], k)
  {
    hide HoldsIn;
  }

  lemma HoldConcat<T>(ch: seq<HeapNode<T>>, kids: seq<Shape<T>>, ch': seq<HeapNode<T>>, kids': seq<Shape<T>>,
      k: set<HeapNode<T>>)
    requires Hold(ch, kids, k) && Hold(ch', kids', k)
    ensures Hold(ch + ch', kids + kids', k)
  {
    hide HoldsIn;
  }

  /** node.split on a private node. */
  method Split<T>(n: HeapNode<T>, m: nat, c: Context<T>, ghost s: Shape<T>, ghost k: set<HeapNode<T>>,
      ghost z: set<HeapNode<T>>)
    returns (item: T, next: HeapNode<T>)
    requires Private(n, s, k) && n.cow == c && Calm(c, n, k, z)
    requires m < |s.items| && (s.kids == [] || |s.kids| == |s.items| + 1)
    modifies n, c.freelist, c.freelist.Nodes()
    ensures item == s.items[m] && next != n && n.cow == c && next.cow == c
    ensures Private(n, LeftShape(s, m), k) && Private(next, RightShape(s, m, next), k)
    ensures Calm(c, n, k, z) && Calm(c, next, k, z)
    ensures c.freelist.Nodes() <= old(c.freelist.Nodes())
    ensures fresh(next) || next in old(c.freelist.Nodes())
  {
    hide HoldsIn, Private, Hold;
    PrivateHolds(n, s, k);
    if s.kids != [] { HoldSlices(n.children, s.kids, k, m + 1); }
    item := n.items[m];
    next := NewNode(c);
    next.items := n.items[m + 1..];
    n.items := n.items[..m];
    if |n.children| > 0 {
      next.children := n.children[m + 1..];
      n.children := n.children[..m + 1];
    }
    HoldsPrivate(n, LeftShape(s, m), k);
    HoldsPrivate(next, RightShape(s, m, next), k);
  }

  ghost function SplitShape<T>(s: Shape<T>, i: nat, item: T, l: Shape<T>, r: Shape<T>): Shape<T>
    requires i <= |s.items| && i < |s.kids|
  {
    Shape(s.ref, s.items[..i] + [item] + s.items[i..], s.kids[..i] + [l, r] + s.kids[i + 1..])
  }

  lemma SplitChildAbs<T>(s: Shape<T>, i: nat, m: nat, k: Shape<T>, next: HeapNode<T>)
    requires |s.kids| == |s.items| + 1 && i < |s.kids| && Abs(k) == Abs(s.kids[i])
    requires m < |k.items| && (k.kids == [] || |k.kids| == |k.items| + 1)
    ensures Inner(Abs(s)) && m < |Abs(s).children[i].items| && LeafOrInner(Abs(s).children[i])
    ensures Abs(SplitShape(s, i, k.items[m], LeftShape(k, m), RightShape(k, m, next))) == SplitChild(Abs(s), i, m)
  {
    hide LeftShape, RightShape, SplitLeft, SplitRight, AbsAll;
    SplitAbs(k, m, next);
    var l, r := LeftShape(k, m), RightShape(k, m, next);
    assert Abs(s).children[i] == Abs(s.kids[i]);
    SpliceAbs(s.kids, i, l, r);
  }

  lemma SpliceAbs<T>(ss: seq<Shape<T>>, i: nat, l: Shape<T>, r: Shape<T>)
    requires i < |ss|
    ensures AbsAll(ss[..i] + [l, r] + ss[i + 1..]) == AbsAll(ss)[..i] + [Abs(l), Abs(r)] + AbsAll(ss)[i + 1..]
  {
    hide Abs, AbsAll;
    var a, b := AbsAll(ss[..i] + [l, r] + ss[i + 1..]), AbsAll(ss)[..i] + [Abs(l), Abs(r)] + AbsAll(ss)[i + 1..];
    var both := ss[..i] + [l, r] + ss[i + 1..];
    assert |a| == |b|;
    forall j | 0 <= j < |a| ensures a[j] == b[j] {
      if j < i { assert both[j] == ss[j]; } else if j > i + 1 { assert both[j] == ss[j - 1]; }
    }
  }

  /** A private copy of child i, split in two. */
  method SplitCopy<T>(n: HeapNode<T>, i: nat, m: nat, c: Context<T>, ghost s: Shape<T>, ghost k: set<HeapNode<T>>,
      ghost z: set<HeapNode<T>>)
    returns (first: HeapNode<T>, item: T, next: HeapNode<T>, ghost l: Shape<T>, ghost r: Shape<T>)
    requires i < |n.children| && n.children[i] == s.ref && HoldsIn(s, k) && n !in k && n.cow == c && Calm(c, n, k, z)
    requires m < |s.items| && (s.kids == [] || |s.kids| == |s.items| + 1)
    modifies n, c.freelist, c.freelist.Nodes()
    ensures n.cow == c && n.items == old(n.items) && n.children == old(n.children)[i := first]
    ensures l == LeftShape(Shape(first, s.items, s.kids), m) &&
      r == RightShape(Shape(first, s.items, s.kids), m, next) && item == s.items[m]
    ensures l.ref == first && r.ref == next && Private(first, l, k) && Private(next, r, k)
    ensures first !in z && next !in z && first !in k && next !in k && first.cow == c && next.cow == c && n != first &&
      n != next
    ensures Calm(c, n, k + {first} + {next}, z)
    ensures c.freelist.Nodes() <= old(c.freelist.Nodes())
    ensures (fresh(first) || first in old(c.freelist.Nodes())) && (fresh(next) || next in old(c.freelist.Nodes()))
  {
    hide HoldsIn, Private;
    ghost var sf;
    first, sf := MutableChild(n, i, c, s, k, z);
    item, next := Split(first, m, c, sf, k, z + {n});
    l, r := LeftShape(sf, m), RightShape(sf, m, next);
    HeldKids(first, l, k);
    HeldKids(next, r, k);
  }

  /** The part of node.maybeSplitChild that splits. */
  method SplitChildAt<T>(n: HeapNode<T>, i: nat, m: nat, c: Context<T>, ghost s: Shape<T>, ghost k: set<HeapNode<T>>,
      ghost z: set<HeapNode<T>>)
    returns (ghost s': Shape<T>, ghost k': set<HeapNode<T>>)
    requires Private(n, s, k) && n.cow == c && Calm(c, n, k, z)
    requires |s.kids| == |s.items| + 1 && i < |s.kids|
    requires m < |s.kids[i].items| && (s.kids[i].kids == [] || |s.kids[i].kids| == |s.kids[i].items| + 1)
    requires Inner(Abs(s)) && m < |Abs(s).children[i].items| && LeafOrInner(Abs(s).children[i])
    modifies n, c.freelist, c.freelist.Nodes()
    ensures Private(n, s', k') && n.cow == c && Calm(c, n, k', z) && Extends(c, k, k', z)
    ensures Abs(s') == SplitChild(Abs(s), i, m)
    ensures forall m :: m in k' - k ==> fresh(m) || m in old(c.freelist.Nodes())
    ensures c.freelist.Nodes() <= old(c.freelist.Nodes())
  {
    hide Abs, AbsAll, SplitChild, LeftShape, RightShape, SplitShape, HoldsIn, Private;
    HeldKids(n, s, k);
    var first, item, next;
    ghost var l, r;
    first, item, next, l, r := SplitCopy(n, i, m, c, s.kids[i], k, z);
    n.items := n.items[..i] + [item] + n.items[i..];
    n.children := n.children[..i + 1] + [next] + n.children[i + 1..];
    s', k' := SplitShape(s, i, item, l, r), k + {first} + {next};
    CopyAbs(s.kids[i], first);
    SplitChildAbs(s, i, m, Shape(first, s.kids[i].items, s.kids[i].kids), next);
    SplitChildHeld(n, s, i, item, l, r, k);
  }

  lemma CopyAbs<T>(s: Shape<T>, m: HeapNode<T>)
    ensures Abs(Shape(m, s.items, s.kids)) == Abs(s)
  {
  }

  lemma SplitChildHeld<T>(n: HeapNode<T>, s: Shape<T>, i: nat, item: T, l: Shape<T>, r: Shape<T>, k: set<HeapNode<T>>)
    requires s.ref == n && i <= |s.items| && i < |s.kids|
    requires forall j :: 0 <= j < |s.kids| ==> HoldsIn(s.kids[j], k)
    requires Private(l.ref, l, k) && Private(r.ref, r, k) && n !in k && l.ref != n && r.ref != n
    requires n.items == s.items[..i] + [item] + s.items[i..]
    requires |n.children| == |s.kids| + 1
    requires forall j :: 0 <= j <= |s.kids| ==>
      n.children[j] == (if j < i then s.kids[j].ref else if j == i then l.ref else if j == i + 1 then r.ref
        else s.kids[j - 1].ref)
    ensures Private(n, SplitShape(s, i, item, l, r), k + {l.ref} + {r.ref})
  {
    var k' := k + {l.ref} + {r.ref};
    Freeze(l.ref, l, k);
    Freeze(r.ref, r, k);
    hide Private, HoldsIn;
    Widen(l, k + {l.ref}, k');
    Widen(r, k + {r.ref}, k');
    var s' := SplitShape(s, i, item, l, r);
    assert s'.kids[i] == l && s'.kids[i + 1] == r;
    forall j | 0 <= j < |s'.kids| ensures HoldsIn(s'.kids[j], k') && s'.kids[j].ref == n.children[j] {
      assert n.children[j] == (if j < i then s.kids[j].ref else if j == i then l.ref else if j == i + 1 then r.ref
        else s.kids[j - 1].ref);
      if j < i {
        assert s'.kids[j] == s.kids[j];
        Widen(s.kids[j], k, k');
      } else if j == i {
        assert s'.kids[j] == l;
      } else if j == i + 1 {
        assert s'.kids[j] == r;
      } else {
        assert s'.kids[j] == s.kids[j - 1];
        Widen(s.kids[j - 1], k, k');
      }
    }
    PrivateIntro(n, s', k');
  }

  lemma PrivateIntro<T>(n: HeapNode<T>, s: Shape<T>, k: set<HeapNode<T>>)
    requires n !in k && s.ref == n && n.items == s.items && |n.children| == |s.kids|
    requires forall i :: 0 <= i < |s.kids| ==> HoldsIn(s.kids[i], k) && s.kids[i].ref == n.children[i]
    ensures Private(n, s, k)
  {
  }

  lemma HeldKids<T>(n: HeapNode<T>, s: Shape<T>, k: set<HeapNode<T>>)
    requires Private(n, s, k)
    ensures s.ref == n && n !in k && n.items == s.items && |n.children| == |s.kids|
    ensures forall a :: 0 <= a < |s.kids| ==> HoldsIn(s.kids[a], k) && s.kids[a].ref == n.children[a]
  {
  }

  // ----- insertion -----

  /** items.find, with the binary search of sort.Search. */
  method FindSlot<T(!new)>(lt: Less<T>, s: seq<T>, x: T) returns (r: Slot)
    requires StrictWeak(lt) && Sorted(lt, s)
    ensures r == Find(lt, s, x)
  {
    var i, j := 0, |s|;
    while i < j
      invariant 0 <= i <= j <= |s|
      invariant forall a :: 0 <= a < i ==> !lt(x, s[a])
      invariant forall a :: j <= a < |s| ==> lt(x, s[a])
    {
      var h := (i + j) / 2;
      if !lt(x, s[h]) {
        forall a | 0 <= a < h ensures !lt(x, s[a]) { assert lt(s[a], s[h]); }
        i := h + 1;
      } else {
        forall a | h < a < |s| ensures lt(x, s[a]) { assert lt(s[h], s[a]); }
        j := h;
      }
    }
    r := if i > 0 && !lt(s[i - 1], x) then Slot(i - 1, true) else Slot(i, false);
    FindIsSlot(lt, s, x);
    assert Upper(lt, s, x) == i;
  }

  /** A private node whose kid i was rebuilt on a private copy m. */
  lemma KidRebuilt<T>(n: HeapNode<T>, s: Shape<T>, i: nat, m: HeapNode<T>, sm: Shape<T>, k: set<HeapNode<T>>,
      k': set<HeapNode<T>>)
    requires s.ref == n && i < |s.kids| && |n.children| == |s.kids| && n.items == s.items
    requires forall j :: 0 <= j < |s.kids| && j != i ==> n.children[j] == s.kids[j].ref && HoldsIn(s.kids[j], k)
    requires n.children[i] == m && Private(m, sm, k') && k <= k' && n !in k' && n != m
    ensures Private(n, Shape(n, s.items, s.kids[i := sm]), k' + {m})
    ensures Abs(Shape(n, s.items, s.kids[i := sm])) == Node(s.items, AbsAll(s.kids)[i := Abs(sm)])
  {
    var s' := Shape(n, s.items, s.kids[i := sm]);
    AbsUpdate(s.kids, i, sm);
    Freeze(m, sm, k');
    assert sm.ref == m;
    hide Private, HoldsIn, Abs, AbsAll;
    forall j | 0 <= j < |s'.kids| ensures HoldsIn(s'.kids[j], k' + {m}) && s'.kids[j].ref == n.children[j] {
      if j != i { Widen(s.kids[j], k, k' + {m}); }
    }
    PrivateIntro(n, s', k' + {m});
  }

  /** The recursive call of node.insert: mutableChild, then insert into the copy. */
  method InsertDown<T(!new)>(lt: Less<T>, n: HeapNode<T>, x: T, i: nat, d: nat, c: Context<T>,
                             ghost s: Shape<T>, ghost k: set<HeapNode<T>>, ghost z: set<HeapNode<T>>, ghost h: nat)
    returns (out: Option<T>, ghost s': Shape<T>, ghost k': set<HeapNode<T>>)
    requires StrictWeak(lt) && d >= 2 && h > 0 && i < |Abs(s).children|
    requires var t := Abs(s).children[i];
      Balanced(t, h - 1, d) && Sorted(lt, Flatten(t)) && |t.items| < 2 * d - 1
    requires Private(n, s, k) && n.cow == c && Calm(c, n, k, z)
    modifies n, c.freelist, c.freelist.Nodes()
    ensures Private(n, s', k') && n.cow == c && Calm(c, n, k', z) && Extends(c, k, k', z)
    ensures forall m :: m in k' - k ==> fresh(m) || m in old(c.freelist.Nodes())
    ensures c.freelist.Nodes() <= old(c.freelist.Nodes())
    ensures Step(Abs(s'), out) == InsertBelow(lt, Abs(s), x, i, d, h)
    decreases h, 0
  {
    hide HoldsIn, Insert, Balanced, Flatten, Sorted, StrictWeak, Abs, AbsAll, Private;
    KidsOf(s);
    KidsOf(s.kids[i]);
    HeldKids(n, s, k);
    var m;
    ghost var sm, sm', km;
    m, sm := MutableChild(n, i, c, s.kids[i], k, z);
    CopyAbs(s.kids[i], m);
    out, sm', km := InsertNode(lt, m, x, d, c, sm, k, z + {n}, h - 1);
    s', k' := Shape(n, s.items, s.kids[i := sm']), km + {m};
    KidRebuilt(n, s, i, m, sm', k, km);
  }

  /** node.insert on a private node: everything it writes is the node itself, nodes off the free
      list, or new nodes. */
  method InsertNode<T(!new)>(lt: Less<T>, n: HeapNode<T>, x: T, d: nat, c: Context<T>,
                             ghost s: Shape<T>, ghost k: set<HeapNode<T>>, ghost z: set<HeapNode<T>>, ghost h: nat)
    returns (out: Option<T>, ghost s': Shape<T>, ghost k': set<HeapNode<T>>)
    requires StrictWeak(lt) && d >= 2 && Balanced(Abs(s), h, d) && Sorted(lt, Flatten(Abs(s))) && |s.items| < 2 * d - 1
    requires Private(n, s, k) && n.cow == c && Calm(c, n, k, z)
    modifies n, c.freelist, c.freelist.Nodes()
    ensures Private(n, s', k') && n.cow == c && Calm(c, n, k', z) && Extends(c, k, k', z)
    ensures forall m :: m in k' - k ==> fresh(m) || m in old(c.freelist.Nodes())
    ensures c.freelist.Nodes() <= old(c.freelist.Nodes())
    ensures Step(Abs(s'), out) == Insert(lt, Abs(s), x, d, h)
    decreases h, 2
  {
    hide HoldsIn, Balanced, Flatten, Sorted, StrictWeak, Find, SplitChild, InsertBelow;
    NodeFacts(lt, s, x, h, d);
    KidItems(n, s, k);
    var r := FindSlot(lt, n.items, x);
    var i := r.index;
    if r.found {
      out, s', k' := Some(n.items[i]), Shape(n, s.items[i := x], s.kids), k;
      n.items := n.items[i := x];
    } else if |n.children| == 0 {
      out, s', k' := None, Shape(n, s.items[..i] + [x] + s.items[i..], s.kids), k;
      n.items := n.items[..i] + [x] + n.items[i..];
    } else if |n.children[i].items| >= 2 * d - 1 {
      out, s', k' := InsertSplitting(lt, n, x, i, d, c, s, k, z, h);
    } else {
      DescendFind(lt, Abs(s), x, i);
      out, s', k' := InsertDown(lt, n, x, i, d, c, s, k, z, h);
    }
  }

  lemma KidItems<T>(n: HeapNode<T>, s: Shape<T>, k: set<HeapNode<T>>)
    requires Private(n, s, k)
    ensures forall i :: 0 <= i < |s.kids| ==> n.children[i].items == s.kids[i].items
  {
  }

  lemma NodeFacts<T(!new)>(lt: Less<T>, s: Shape<T>, x: T, h: nat, d: nat)
    requires StrictWeak(lt) && d >= 2 && Balanced(Abs(s), h, d) && Sorted(lt, Flatten(Abs(s)))
    ensures Sorted(lt, s.items) && IsSlot(lt, s.items, x, Find(lt, s.items, x))
    ensures if h == 0 then s.kids == [] else |s.kids| == |s.items| + 1
    ensures h > 0 ==> forall i :: 0 <= i < |s.kids| ==>
      Balanced(Abs(s.kids[i]), h - 1, d) && d - 1 <= |s.kids[i].items| <= 2 * d - 1
  {
    hide Flatten;
    NodeSlot(lt, Abs(s), x, h, d);
  }

  /** node.insert when the child to descend into is full. */
  method InsertSplitting<T(!new)>(lt: Less<T>, n: HeapNode<T>, x: T, i: nat, d: nat, c: Context<T>,
                                  ghost s: Shape<T>, ghost k: set<HeapNode<T>>, ghost z: set<HeapNode<T>>, ghost h: nat)
    returns (out: Option<T>, ghost s': Shape<T>, ghost k': set<HeapNode<T>>)
    requires StrictWeak(lt) && d >= 2 && Balanced(Abs(s), h, d) && Sorted(lt, Flatten(Abs(s))) && |s.items| < 2 * d - 1
    requires Private(n, s, k) && n.cow == c && Calm(c, n, k, z)
    requires h > 0 && |s.kids| == |s.items| + 1 && i < |s.kids| && |s.kids[i].items| == 2 * d - 1
    requires Find(lt, s.items, x) == Slot(i, false) && IsSlot(lt, s.items, x, Slot(i, false))
    modifies n, c.freelist, c.freelist.Nodes()
    ensures Private(n, s', k') && n.cow == c && Calm(c, n, k', z) && Extends(c, k, k', z)
    ensures forall m :: m in k' - k ==> fresh(m) || m in old(c.freelist.Nodes())
    ensures c.freelist.Nodes() <= old(c.freelist.Nodes())
    ensures Step(Abs(s'), out) == Insert(lt, Abs(s), x, d, h)
    decreases h, 1
  {
    hide HoldsIn, Balanced, Flatten, Sorted, StrictWeak, Find, SplitChild, Insert, IsSlot;
    ghost var t := Abs(s);
    assert t.children[i] == Abs(s.kids[i]) && t.children[i].items == s.kids[i].items;
    SplitChildBalanced(t, i, h, d);
    SplitChildFlatten(t, i, d - 1);
    KindOf(s.kids[i]);
    ghost var s1, k1;
    s1, k1 := SplitChildAt(n, i, d - 1, c, s, k, z);
    ghost var j0 := if lt(x, SplitChild(t, i, d - 1).items[i]) then i else i + 1;
    InsertSplitCase(lt, t, x, d, h, i, j0);
    hide Abs, AbsAll;
    var inTree := n.items[i];
    if lt(x, inTree) {
      SplitDescend(lt, s, s1, x, i, i, d, h);
      out, s', k' := InsertDown(lt, n, x, i, d, c, s1, k1, z, h);
    } else if lt(inTree, x) {
      SplitDescend(lt, s, s1, x, i, i + 1, d, h);
      out, s', k' := InsertDown(lt, n, x, i + 1, d, c, s1, k1, z, h);
    } else {
      out, s', k' := Some(n.items[i]), Shape(n, s1.items[i := x], s1.kids), k1;
      n.items := n.items[i := x];
    }
  }

  lemma KindOf<T>(s: Shape<T>)
    requires LeafOrInner(Abs(s))
    ensures s.kids == [] || |s.kids| == |s.items| + 1
  {
  }

  lemma ItemsAbs<T>(s: Shape<T>)
    ensures Abs(s).items == s.items && |Abs(s).children| == |s.kids|
  {
  }

  lemma SplitDescend<T(!new)>(lt: Less<T>, s: Shape<T>, s1: Shape<T>, x: T, i: nat, j: nat, d: nat, h: nat)
    requires StrictWeak(lt) && d >= 2 && h > 0 && Inner(Abs(s)) && i < |s.kids|
    requires d - 1 < |Abs(s).children[i].items| && LeafOrInner(Abs(s).children[i])
    requires Abs(s1) == SplitChild(Abs(s), i, d - 1) && Balanced(Abs(s1), h, d) && Sorted(lt, Flatten(Abs(s1)))
    requires IsSlot(lt, s.items, x, Slot(i, false))
    requires |Abs(s1).children[i].items| < 2 * d - 1 && |Abs(s1).children[i + 1].items| < 2 * d - 1
    requires (j == i && lt(x, Abs(s1).items[i])) || (j == i + 1 && lt(Abs(s1).items[i], x))
    ensures j < |Abs(s1).children|
    ensures var t := Abs(s1).children[j];
      Balanced(t, h - 1, d) && Sorted(lt, Flatten(t)) && |t.items| < 2 * d - 1
  {
    hide Flatten, StrictWeak, Sorted, SplitChild, IsSlot, Abs, AbsAll;
    NodeKind(Abs(s1), h, d);
    ItemsAbs(s);
    SplitSides(lt, Abs(s), x, i, d - 1, j);
    DescendFind(lt, Abs(s1), x, j);
    ChildBalanced(Abs(s1), h, d, j);
  }
}
