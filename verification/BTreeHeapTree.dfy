/** Trees that share nodes: the BTree object of util/btree, its clones, and every interleaving of
    writes to them. */
module BTreeHeapTree {
  import opened Orders
  import opened BTreeModel
  import opened BTreeRemoval
  import opened BTreeHeap
  import opened BTreeHeapRemoval
  import opened BTreeHeapReset
  import M = BTreeMap

  class HeapTree<T(!new)> {
    const degree: nat
    var root: HeapNode?<T>
    var length: int
    var cow: Context<T>
    ghost var shape: Option<Shape<T>>
    ghost var live: set<HeapNode<T>>

    /** NewWithFreeList. */
    constructor (d: nat, f: FreeList<T>)
      requires d >= 2
      ensures degree == d && cow.freelist == f && fresh(cow) && live == {}
      ensures Model() == M.New<T>(d) && Rooted()
    {
      degree := d;
      root, length := null, 0;
      cow := new Context<T>(f);
      shape, live := None, {};
    }

    /** The copy made by Clone. */
    constructor Copy(t: HeapTree<T>, c: Context<T>)
      ensures degree == t.degree && root == t.root && length == t.length && cow == c && shape == t.shape &&
        live == t.live
    {
      degree, root, length, cow := t.degree, t.root, t.length, c;
      shape, live := t.shape, t.live;
    }

    ghost function Model(): M.BTree<T>
      reads this
    {
      M.BTree(degree, if shape.None? then None else Some(Abs(shape.value)), length)
    }

    /** The nodes under the root are the ghost shape, and all of them are live. */
    ghost predicate Rooted()
      reads this, live
    {
      match shape
      case None => root == null && live == {}
      case Some(s) => root == s.ref && HoldsIn(s, live)
    }

    /** Nothing this tree may write is live in, or on a free list of, the rest of the world z. */
    ghost predicate Apart(z: set<HeapNode<T>>)
      reads this, live, cow.freelist, cow.freelist.nodes
    {
      && cow.freelist.Valid()
      && live !! cow.freelist.Nodes()
      && z !! cow.freelist.Nodes()
      && Mine(cow, live) !! z
    }

    /** What every write leaves to the rest of the world: a live node is an untouched old one, or
        is owned by this tree alone; nodes come from and go to the tree and its free list. */
    twostate predicate Steps(z: set<HeapNode<T>>)
      reads this, live, cow.freelist
    {
      && cow == old(cow)
      && (forall m :: m in live ==> (m in old(live) && unchanged(m)) || (m.cow == cow && m !in z))
      && (forall m :: m in live ==> m in old(live) || m in old(cow.freelist.Nodes()) || fresh(m))
      && (forall m :: m in cow.freelist.Nodes() ==>
         m in old(cow.freelist.Nodes()) || m in old(Mine(cow, live)) || fresh(m))
    }

    /** BTree.ReplaceOrInsert. No node that was live is written: whoever holds the old root still
        sees the old tree. */
    method ReplaceOrInsert(lt: Less<T>, x: T, ghost z: set<HeapNode<T>>) returns (out: Option<T>)
      requires StrictWeak(lt) && M.Valid(lt, Model()) && Rooted() && Apart(z)
      modifies this, cow.freelist, cow.freelist.Nodes()
      ensures Rooted() && Apart(z) && Steps(z)
      ensures M.Outcome(Model(), out) == M.ReplaceOrInsert(lt, old(Model()), x)
      ensures cow.freelist.Nodes() <= old(cow.freelist.Nodes())
      ensures old(live) <= live && forall m :: m in old(live) ==> unchanged(m)
      ensures old(shape).Some? ==> HoldsIn(old(shape).value, old(live))
    {
      hide HoldsIn, Private, Flatten, Balanced, Sorted, StrictWeak, Insert, Abs, AbsAll, M.Height, M.RoomyRoot;
      if root == null {
        out := None;
        ghost var s;
        root, s := FirstRoot(x, cow, z);
        length := length + 1;
        shape, live := Some(s), {root};
      } else {
        ghost var s', k';
        root, out, s', k' := InsertAtRoot(lt, root, x, degree, cow, shape.value, live, z);
        if out == None { length := length + 1; }
        shape, live := Some(s'), k';
      }
    }

    /** Any number of insertions, with a reader that took the root before the first one: at the end
        the nodes the reader can reach are as they were, and stand for the tree it took. */
    method InsertAll(lt: Less<T>, xs: seq<T>, ghost z: set<HeapNode<T>>) returns (outs: seq<Option<T>>)
      requires StrictWeak(lt) && M.Valid(lt, Model()) && Rooted() && Apart(z)
      modifies this, cow.freelist, cow.freelist.Nodes()
      ensures Rooted() && Apart(z) && M.Valid(lt, Model())
      ensures M.Trace(Model(), outs) == M.Run(lt, old(Model()), Puts(xs))
      ensures forall m :: m in old(live) ==> unchanged(m)
      ensures old(shape).Some? ==>
        HoldsIn(old(shape).value, old(live)) && Abs(old(shape).value) == old(Model()).root.value
    {
      hide HoldsIn, StrictWeak, M.Valid, M.ReplaceOrInsert, M.Run, Puts;
      outs := [];
      var i := 0;
      NoPuts(lt, Model());
      assert xs[..0] == [];
      while i < |xs|
        invariant i <= |xs| && cow == old(cow) && Rooted() && Apart(z) && M.Valid(lt, Model())
        invariant M.Trace(Model(), outs) == M.Run(lt, old(Model()), Puts(xs[..i]))
        invariant old(live) <= live && forall m :: m in old(live) ==> unchanged(m)
        invariant forall m :: m in cow.freelist.Nodes() ==> m in old(cow.freelist.Nodes())
      {
        ghost var was := Model();
        M.ReplaceOrInsertRefines(lt, was, xs[i]);
        var out := ReplaceOrInsert(lt, xs[i], z);
        OnePut(lt, old(Model()), xs, i, M.Trace(was, outs));
        outs := outs + [out];
        i := i + 1;
      }
      assert xs[..i] == xs;
    }

    /** All that whoever takes the root now can reach. */
    ghost function Reachable(): set<HeapNode<T>>
      reads this
    {
      if shape.None? then {} else NodesOf(shape.value)
    }

    /** The nodes below the root that deleting would merge into a sibling and that this tree owns. */
    ghost function MergedOwn(lt: Less<T>, typ: Removal<T>): set<HeapNode<T>>
      reads this, live
    {
      if degree < 2 || shape.None? || |shape.value.items| == 0 then {}
      else Merged(lt, shape.value, typ, degree, M.Height(Abs(shape.value))) * Mine(cow, live)
    }

    /** BTree.deleteItem. Of the nodes that were live, exactly the merged siblings that this tree
        owns are emptied, and they are blank afterwards unless this very call has put them to use
        again, which takes a free list with room. So whoever took the root before finds no node
        emptied if and only if there is no such sibling. */
    method DeleteItem(lt: Less<T>, typ: Removal<T>, ghost z: set<HeapNode<T>>) returns (out: Option<T>)
      requires StrictWeak(lt) && M.Valid(lt, Model()) && Rooted() && Apart(z)
      modifies this, cow.freelist, cow.freelist.Nodes(), Mine(cow, live)
      ensures Rooted() && Apart(z) && Steps(z)
      ensures M.Outcome(Model(), out) == M.DeleteItem(lt, old(Model()), typ)
      ensures Kept(old(live - MergedOwn(lt, typ))) && Spent(old(MergedOwn(lt, typ)), live)
      ensures CountedMore(old(cow.freelist.emptied), cow.freelist.emptied, old(live), old(MergedOwn(lt, typ)))
      ensures old(MergedOwn(lt, typ)) == {} ==> Kept(old(Reachable()))
      ensures cow.freelist.capacity == 0 ==> old(MergedOwn(lt, typ)) !! live
      ensures cow.freelist.capacity == 0 ==> (Kept(old(Reachable())) <==> old(MergedOwn(lt, typ)) == {})
    {
      hide HoldsIn, StrictWeak, M.Valid, M.DeleteItem, Apart, Steps, CountedMore, MergedOwn, Reachable;
      MergedReachable(lt, typ);
      ghost var f, reach := MergedOwn(lt, typ), Reachable();
      out := DeleteAndFree(lt, typ, z);
      assert forall m :: m in f ==> m in reach;
      assert forall m :: m in reach && m !in f ==> m in old(live) - f;
    }

    /** The deletion itself, and what becomes of the nodes it gives back. */
    method DeleteAndFree(lt: Less<T>, typ: Removal<T>, ghost z: set<HeapNode<T>>) returns (out: Option<T>)
      requires StrictWeak(lt) && M.Valid(lt, Model()) && Rooted() && Apart(z)
      modifies this, cow.freelist, cow.freelist.Nodes(), Mine(cow, live)
      ensures Rooted() && Apart(z) && Steps(z)
      ensures M.Outcome(Model(), out) == M.DeleteItem(lt, old(Model()), typ)
      ensures Kept(old(live - MergedOwn(lt, typ))) && Spent(old(MergedOwn(lt, typ)), live)
      ensures CountedMore(old(cow.freelist.emptied), cow.freelist.emptied, old(live), old(MergedOwn(lt, typ)))
      ensures cow.freelist.capacity == 0 ==> old(MergedOwn(lt, typ)) !! live
      ensures forall m :: m in old(MergedOwn(lt, typ)) ==> old(allocated(m) && |m.items| > 0)
    {
      hide HoldsIn, Private, Flatten, Balanced, Sorted, StrictWeak, Remove, Abs, AbsAll, M.Height, M.ShrunkRoot,
        Merged, CountedMore, Spent;
      out := None;
      SameCount(cow.freelist.emptied, live);
      NoneSpent(live);
      if root == null { return; }
      ItemsAbs(shape.value);
      RightHeld(shape.value, live);
      if |root.items| == 0 { return; }
      ghost var s', k', f;
      root, out, s', k', f := RemoveAtRoot(lt, root, typ, degree, cow, shape.value, live, z);
      if out != None { length := length - 1; }
      shape, live := Some(s'), k';
    }

    /** The merged siblings can be reached from the root, and all that can be reached is live. */
    lemma MergedReachable(lt: Less<T>, typ: Removal<T>)
      requires Rooted()
      ensures MergedOwn(lt, typ) <= Reachable() <= live
    {
      hide HoldsIn, NodesOf, Merged, M.Height;
      if shape.Some? {
        var s := shape.value;
        HeldNodes(s, live);
        HeldInOwn(s, live);
        RightHeld(s, NodesOf(s));
        if degree >= 2 && |s.items| > 0 { MergedHeld(lt, s, typ, degree, M.Height(Abs(s)), NodesOf(s)); }
      }
    }

    /** BTree.Clone: both trees go on under new contexts, so neither owns a node of the other. */
    method Clone() returns (t2: HeapTree<T>)
      requires Rooted()
      modifies this
      ensures fresh(t2) && fresh(cow) && fresh(t2.cow) && cow != t2.cow
      ensures cow.freelist == old(cow.freelist) && t2.cow.freelist == old(cow.freelist)
      ensures Rooted() && t2.Rooted() && Model() == old(Model()) && t2.Model() == old(Model())
      ensures live == old(live) && t2.live == old(live)
      ensures Mine(cow, live) == {} && Mine(t2.cow, t2.live) == {}
    {
      hide HoldsIn;
      var cow1 := new Context<T>(cow.freelist);
      var cow2 := new Context<T>(cow.freelist);
      cow := cow1;
      t2 := new HeapTree<T>.Copy(this, cow2);
    }

    /** BTree.Clear. With addNodes, the list ends full or holds every node the tree owned. */
    method Clear(lt: Less<T>, addNodes: bool, ghost z: set<HeapNode<T>>)
      requires StrictWeak(lt) && M.Valid(lt, Model()) && Rooted() && Apart(z)
      modifies this, cow.freelist, Mine(cow, live)
      ensures Rooted() && Apart(z) && Steps(z)
      ensures Model() == M.New<T>(degree)
      ensures !addNodes ==> cow.freelist.Nodes() == old(cow.freelist.Nodes())
      ensures addNodes && old(shape).Some? ==>
        |cow.freelist.nodes| == cow.freelist.capacity || old(Mine(cow, NodesOf(shape.value))) <= cow.freelist.Nodes()
    {
      hide HoldsIn, Flatten, Balanced, Sorted, StrictWeak, NodesOf, M.Height;
      if root != null && addNodes {
        ghost var t := Abs(shape.value);
        var more;
        ghost var f;
        more, f := Reset(lt, root, cow, shape.value, live, degree, M.Height(t));
      }
      root, length := null, 0;
      shape, live := None, {};
    }
  }

  /** Of the nodes ns, exactly those in f are counted once more in e' than in e. */
  ghost predicate CountedMore<T>(e: multiset<HeapNode<T>>, e': multiset<HeapNode<T>>, ns: set<HeapNode<T>>,
      f: set<HeapNode<T>>) {
    forall m :: m in ns ==> e'[m] == e[m] + if m in f then 1 else 0
  }

  lemma NoneSpent<T>(k: set<HeapNode<T>>)
    ensures Spent({}, k)
  {
  }

  lemma SameCount<T>(e: multiset<HeapNode<T>>, ns: set<HeapNode<T>>)
    ensures CountedMore(e, e, ns, {})
  {
  }

  lemma CountedIsMore<T>(e: multiset<HeapNode<T>>, ns: set<HeapNode<T>>, f: set<HeapNode<T>>, n: HeapNode<T>)
    requires n !in ns
    ensures CountedMore(e, Counted(e, f), ns, f) && CountedMore(e, Counted(Counted(e, f), {n}), ns, f)
  {
  }

  twostate predicate Kept<T>(ns: set<HeapNode<T>>)
    reads ns
  {
    forall m :: m in ns ==> unchanged(m)
  }

  /** The root is copied, and the item is removed from the copy. */
  method RemoveFromCopy<T(!new)>(lt: Less<T>, root: HeapNode<T>, typ: Removal<T>, d: nat, c: Context<T>,
      ghost s: Shape<T>, ghost k: set<HeapNode<T>>, ghost z: set<HeapNode<T>>)
    returns (n: HeapNode<T>, out: Option<T>, ghost s': Shape<T>, ghost k': set<HeapNode<T>>, ghost f: set<HeapNode<T>>)
    requires StrictWeak(lt) && d >= 2 && M.RootBalanced(Abs(s), d) && Sorted(lt, Flatten(Abs(s))) && root == s.ref &&
      HoldsIn(s, k)
    requires Removable(Abs(s), typ, d)
    requires c.freelist.Valid() && k !! c.freelist.Nodes() && z !! c.freelist.Nodes() && Mine(c, k) !! z
    modifies c.freelist, c.freelist.Nodes(), Mine(c, k)
    ensures Private(n, s', k') && n.cow == c && Calm(c, n, k', z) && Reworks(c, Abs(s), k, f, k', z)
    ensures n !in k && (fresh(n) || n in old(c.freelist.Nodes()))
    ensures Step(Abs(s'), out) == Remove(lt, Abs(s), typ, d, M.Height(Abs(s)))
    ensures f == Merged(lt, s, typ, d, M.Height(Abs(s))) * old(Mine(c, k))
    ensures Spent(f, k') && (c.freelist.capacity == 0 ==> f !! k') &&
      c.freelist.emptied == Counted(old(c.freelist.emptied), f)
  {
    hide HoldsIn, Private, Flatten, Balanced, Sorted, StrictWeak, Remove, Abs, AbsAll, M.Height, Removable, Merged,
      Spent, Counted;
    RightHeld(s, k);
    n := MutableFor(root, c);
    CopyAbs(s, n);
    ghost var s0 := Shape(n, s.items, s.kids);
    PrivateIntro(n, s0, k);
    MergedCopy(lt, s, s0, typ, d, M.Height(Abs(s)));
    out, s', k', f := RemoveNode(lt, n, typ, d, c, s0, k, z, M.Height(Abs(s)));
  }

  /** The root is copied and written; left without items it gives way to its child and is freed. */
  method RemoveAtRoot<T(!new)>(lt: Less<T>, root: HeapNode<T>, typ: Removal<T>, d: nat, c: Context<T>,
      ghost s: Shape<T>, ghost k: set<HeapNode<T>>, ghost z: set<HeapNode<T>>)
    returns (n: HeapNode<T>, out: Option<T>, ghost s': Shape<T>, ghost k': set<HeapNode<T>>, ghost f: set<HeapNode<T>>)
    requires StrictWeak(lt) && d >= 2 && M.RootBalanced(Abs(s), d) && Sorted(lt, Flatten(Abs(s))) && root == s.ref &&
      HoldsIn(s, k)
    requires |s.items| > 0 && Removable(Abs(s), typ, d)
    requires c.freelist.Valid() && k !! c.freelist.Nodes() && z !! c.freelist.Nodes() && Mine(c, k) !! z
    modifies c.freelist, c.freelist.Nodes(), Mine(c, k)
    ensures c.freelist.Valid() && k' !! c.freelist.Nodes() && z !! c.freelist.Nodes()
    ensures n == s'.ref && HoldsIn(s', k') && Reworks(c, Abs(s), k, f, k', z)
    ensures var r := Remove(lt, Abs(s), typ, d, M.Height(Abs(s)));
      out == r.out && Abs(s') == M.ShrunkRoot(r.tree)
    ensures f == Merged(lt, s, typ, d, M.Height(Abs(s))) * old(Mine(c, k))
    ensures Spent(f, k') && (c.freelist.capacity == 0 ==> f !! k') &&
      CountedMore(old(c.freelist.emptied), c.freelist.emptied, k, f)
  {
    hide HoldsIn, Private, Flatten, Balanced, Sorted, StrictWeak, Remove, Abs, AbsAll, M.Height, Removable, Merged,
      Counted, CountedMore;
    n, out, s', k', f := RemoveFromCopy(lt, root, typ, d, c, s, k, z);
    PrivateRef(n, s', k');
    HeldKids(n, s', k');
    ItemsAbs(s');
    CountedIsMore(old(c.freelist.emptied), k, f, n);
    if |n.items| == 0 && |n.children| > 0 {
      var child := n.children[0];
      FirstKid(s');
      var more := FreeNode(c, n);
      n, s' := child, s'.kids[0];
    } else {
      Freeze(n, s', k');
      k' := k' + {n};
    }
  }

  lemma FirstKid<T>(s: Shape<T>)
    requires |s.kids| > 0
    ensures Abs(s).children[0] == Abs(s.kids[0])
  {
  }

  ghost function Puts<T>(xs: seq<T>): seq<M.Op<T>> {
    seq(|xs|, i requires 0 <= i < |xs| => M.Put(xs[i]))
  }

  lemma NoPuts<T(!new)>(lt: Less<T>, b: M.BTree<T>)
    requires StrictWeak(lt) && M.Valid(lt, b)
    ensures M.Run(lt, b, Puts([])) == M.Trace(b, [])
  {
  }

  /** A run of puts, extended by one. */
  lemma OnePut<T(!new)>(lt: Less<T>, b: M.BTree<T>, xs: seq<T>, i: nat, r: M.Trace<T>)
    requires StrictWeak(lt) && M.Valid(lt, b) && i < |xs| && M.Valid(lt, r.tree) && M.Run(lt, b, Puts(xs[..i])) == r
    ensures var o := M.ReplaceOrInsert(lt, r.tree, xs[i]);
      M.Run(lt, b, Puts(xs[..i + 1])) == M.Trace(o.tree, r.outs + [o.out])
  {
    hide M.Valid, M.ReplaceOrInsert, StrictWeak;
    assert Puts(xs[..i + 1]) == Puts(xs[..i]) + [M.Put(xs[i])];
    M.RunSnoc(lt, b, Puts(xs[..i]), M.Put(xs[i]));
  }

  /** The root is copied, split if full, and written; it becomes the tree's root only afterwards. */
  method InsertAtRoot<T(!new)>(lt: Less<T>, root: HeapNode<T>, x: T, d: nat, c: Context<T>, ghost s: Shape<T>,
      ghost k: set<HeapNode<T>>, ghost z: set<HeapNode<T>>)
    returns (n: HeapNode<T>, out: Option<T>, ghost s': Shape<T>, ghost k': set<HeapNode<T>>)
    requires StrictWeak(lt) && d >= 2 && M.RootBalanced(Abs(s), d) && Sorted(lt, Flatten(Abs(s))) && root == s.ref &&
      HoldsIn(s, k)
    requires c.freelist.Valid() && k !! c.freelist.Nodes() && z !! c.freelist.Nodes()
    modifies c.freelist, c.freelist.Nodes()
    ensures c.freelist.Valid() && k' !! c.freelist.Nodes() && z !! c.freelist.Nodes()
    ensures forall m :: m in k' - k ==> fresh(m) || m in old(c.freelist.Nodes())
    ensures c.freelist.Nodes() <= old(c.freelist.Nodes())
    ensures n == s'.ref && HoldsIn(s', k') && Extends(c, k, k', z)
    ensures LeafOrInner(Abs(s)) && M.RootBalanced(M.RoomyRoot(Abs(s), d), d) &&
      Sorted(lt, Flatten(M.RoomyRoot(Abs(s), d)))
    ensures |M.RoomyRoot(Abs(s), d).items| < 2 * d - 1
    ensures var r := M.RoomyRoot(Abs(s), d);
      Step(Abs(s'), out) == Insert(lt, r, x, d, M.Height(r))
  {
    hide HoldsIn, Private, Flatten, Balanced, Sorted, StrictWeak, Insert, Abs, AbsAll, M.Height, M.RoomyRoot;
    M.RoomyRootOk(Abs(s), d);
    ghost var s1, k1;
    n, s1, k1 := RoomyRootNode(root, d, c, s, k, z);
    ItemsAbs(s1);
    out, s', k' := InsertNode(lt, n, x, d, c, s1, k1, z, M.Height(Abs(s1)));
    Freeze(n, s', k');
    PrivateRef(n, s', k');
    k' := k' + {n};
  }

  method FirstRoot<T>(x: T, c: Context<T>, ghost z: set<HeapNode<T>>) returns (n: HeapNode<T>, ghost s: Shape<T>)
    requires c.freelist.Valid() && z !! c.freelist.Nodes()
    modifies c.freelist, c.freelist.Nodes()
    ensures c.freelist.Valid() && n !in c.freelist.Nodes() && z !! c.freelist.Nodes() && n !in z && n.cow == c
    ensures n == s.ref && HoldsIn(s, {n}) && Abs(s) == Node([x], [])
    ensures c.freelist.Nodes() <= old(c.freelist.Nodes()) && (fresh(n) || n in old(c.freelist.Nodes()))
  {
    n := NewNode(c);
    n.items := n.items + [x];
    s := Shape(n, [x], []);
  }

  /** The full root n becomes the left child of a new root. */
  method SplitRoot<T>(n: HeapNode<T>, d: nat, c: Context<T>, ghost s: Shape<T>, ghost k: set<HeapNode<T>>,
      ghost z: set<HeapNode<T>>)
    returns (top: HeapNode<T>, ghost s': Shape<T>, ghost k': set<HeapNode<T>>)
    requires d >= 2 && LeafOrInner(Abs(s)) && |s.items| >= 2 * d - 1
    requires Private(n, s, k) && n.cow == c && Calm(c, n, k, z)
    modifies n, c.freelist, c.freelist.Nodes()
    ensures Private(top, s', k') && top.cow == c && Calm(c, top, k', z) && Extends(c, k, k', z)
    ensures forall m :: m in k' - k ==> m == n || fresh(m) || m in old(c.freelist.Nodes())
    ensures c.freelist.Nodes() <= old(c.freelist.Nodes()) && (fresh(top) || top in old(c.freelist.Nodes()))
    ensures Abs(s') == M.RoomyRoot(Abs(s), d)
  {
    hide HoldsIn, LeftShape, RightShape, Abs, AbsAll, Private;
    var m := (2 * d - 1) / 2;
    ItemsAbs(s);
    KindOf(s);
    var item, second := Split(n, m, c, s, k, z);
    top := NewNode(c);
    top.items := top.items + [item];
    top.children := top.children + [n, second];
    ghost var l, r := LeftShape(s, m), RightShape(s, m, second);
    PrivateRef(n, l, k);
    PrivateRef(second, r, k);
    s', k' := Shape(top, top.items, [l, r]), k + {n} + {second};
    PairHeld(top, l, r, k);
    SplitRootAbs(s, m, second, d);
  }

  lemma SplitRootAbs<T>(s: Shape<T>, m: nat, next: HeapNode<T>, d: nat)
    requires d >= 2 && LeafOrInner(Abs(s)) && m == d - 1 && |s.items| >= 2 * d - 1 &&
      (s.kids == [] || |s.kids| == |s.items| + 1)
    ensures Node([s.items[m]], [Abs(LeftShape(s, m)), Abs(RightShape(s, m, next))]) == M.RoomyRoot(Abs(s), d)
  {
    SplitAbs(s, m, next);
  }

  lemma PairHeld<T>(top: HeapNode<T>, l: Shape<T>, r: Shape<T>, k: set<HeapNode<T>>)
    requires top !in k && top != l.ref && top != r.ref && top.children == [l.ref, r.ref] && |top.items| == 1
    requires Private(l.ref, l, k) && Private(r.ref, r, k)
    ensures Private(top, Shape(top, top.items, [l, r]), k + {l.ref} + {r.ref})
    ensures Abs(Shape(top, top.items, [l, r])) == Node(top.items, [Abs(l), Abs(r)])
  {
    hide HoldsIn;
    var k' := k + {l.ref} + {r.ref};
    Freeze(l.ref, l, k);
    Freeze(r.ref, r, k);
    Widen(l, k + {l.ref}, k');
    Widen(r, k + {r.ref}, k');
    assert AbsAll([l, r]) == [Abs(l), Abs(r)];
    PrivateIntro(top, Shape(top, top.items, [l, r]), k');
  }

  /** A private copy of the root, split under a new root when it is full. */
  method RoomyRootNode<T>(root: HeapNode<T>, d: nat, c: Context<T>, ghost s: Shape<T>, ghost k: set<HeapNode<T>>,
      ghost z: set<HeapNode<T>>)
    returns (n: HeapNode<T>, ghost s': Shape<T>, ghost k': set<HeapNode<T>>)
    requires d >= 2 && LeafOrInner(Abs(s)) && root == s.ref && HoldsIn(s, k)
    requires c.freelist.Valid() && k !! c.freelist.Nodes() && z !! c.freelist.Nodes()
    modifies c.freelist, c.freelist.Nodes()
    ensures Private(n, s', k') && n.cow == c && Calm(c, n, k', z) && Extends(c, k, k', z)
    ensures forall m :: m in k' - k ==> fresh(m) || m in old(c.freelist.Nodes())
    ensures c.freelist.Nodes() <= old(c.freelist.Nodes())
    ensures Abs(s') == M.RoomyRoot(Abs(s), d)
    ensures fresh(n) || n in old(c.freelist.Nodes())
  {
    hide HoldsIn, Abs, AbsAll;
    RightHeld(s, k);
    n := MutableFor(root, c);
    s', k' := Shape(n, s.items, s.kids), k;
    CopyAbs(s, n);
    ItemsAbs(s);
    if |n.items| >= 2 * d - 1 {
      n, s', k' := SplitRoot(n, d, c, s', k, z);
    }
  }

  // ----- a deletion under a reader -----

  ghost function Three(top: HeapNode<int>, left: HeapNode<int>, right: HeapNode<int>): Shape<int> {
    Shape(top, [2], [Shape(left, [1], []), Shape(right, [3], [])])
  }

  lemma ThreeAbs(top: HeapNode<int>, left: HeapNode<int>, right: HeapNode<int>)
    ensures Abs(Three(top, left, right)) == Node([2], [Node([1], []), Node([3], [])])
  {
    var s := Three(top, left, right);
    assert AbsAll(s.kids) == [Abs(s.kids[0]), Abs(s.kids[1])];
    NoKids<int>();
  }

  /** Removing the 3 has to merge its leaf into the leaf of the 1. */
  lemma ThreeMerges(lt: Less<int>, top: HeapNode<int>, left: HeapNode<int>, right: HeapNode<int>)
    requires StrictWeak(lt) && lt(1, 2) && lt(2, 3)
    ensures M.Height(Abs(Three(top, left, right))) == 1
    ensures Merged(lt, Three(top, left, right), RemoveItem(3), 2, 1) == {right}
    ensures M.Valid(lt, M.BTree(2, Some(Abs(Three(top, left, right))), 3))
  {
    var s := Three(top, left, right);
    ThreeAbs(top, left, right);
    var t := Abs(s);
    ThreeFlat(lt, t);
    assert M.Height(t.children[0]) == 0;
    assert Balanced(t.children[0], 0, 2) && Balanced(t.children[1], 0, 2);
    var r := Find(lt, [2], 3);
    FindIsSlot(lt, [2], 3);
    SlotUnique(lt, [2], 3, r, Slot(1, false));
    assert Target(lt, t, RemoveItem(3)) == 1;
    assert Regular(s) && MergedAt(s, 1, 2) == {right};
    MergedNoHeight(lt, GrownShape(s, 1, 2), 2);
  }

  lemma ThreeFlat(lt: Less<int>, t: Tree<int>)
    requires StrictWeak(lt) && lt(1, 2) && lt(2, 3) && t == Node([2], [Node([1], []), Node([3], [])])
    ensures Flatten(t) == [1, 2, 3] && Sorted(lt, Flatten(t))
  {
    hide Flatten;
    FlattenAtItem(t, 0);
    EmptySides(t);
    LeafFlatten(t.children[0]);
    LeafFlatten(t.children[1]);
  }

  /** Below leaves there is nothing to merge. */
  lemma MergedNoHeight<T>(lt: Less<T>, s: Shape<T>, d: nat)
    requires d >= 2
    ensures forall typ: Removal<T> :: MergedBelow(lt, s, typ, d, 1) == {}
  {
  }

  method OwnedNode<T>(items: seq<T>, children: seq<HeapNode<T>>, c: Context<T>) returns (n: HeapNode<T>)
    ensures fresh(n) && n.items == items && n.children == children && n.cow == c
  {
    n := new HeapNode<T>();
    n.items, n.children, n.cow := items, children, c;
  }

  lemma ThreeHeld(top: HeapNode<int>, left: HeapNode<int>, right: HeapNode<int>, k: set<HeapNode<int>>)
    requires left.items == [1] && left.children == [] && right.items == [3] && right.children == [] &&
      {top, left, right} <= k
    requires top.items == [2] && top.children == [left, right]
    ensures HoldsIn(Three(top, left, right), k)
  {
    var s := Three(top, left, right);
    assert HoldsIn(s.kids[0], k) && HoldsIn(s.kids[1], k);
  }

  /** A tree of degree 2 that holds 1, 2 and 3 in three nodes of its own. */
  method MakeThree() returns (t: HeapTree<int>, top: HeapNode<int>, left: HeapNode<int>, right: HeapNode<int>)
    ensures t.root == top && t.degree == 2 && t.length == 3 && t.shape == Some(Three(top, left, right)) && t.Rooted()
    ensures t.live == {top, left, right} && t.cow.freelist.nodes == [] && t.cow.freelist.capacity == 0 &&
      right.cow == t.cow && top != right
    ensures fresh(t) && fresh(t.live) && fresh(t.cow.freelist)
  {
    hide HoldsIn, Abs, AbsAll;
    var f := new FreeList<int>(0);
    t := new HeapTree<int>(2, f);
    left := OwnedNode([1], [], t.cow);
    right := OwnedNode([3], [], t.cow);
    top := OwnedNode([2], [left, right], t.cow);
    t.root, t.length := top, 3;
    t.shape, t.live := Some(Three(top, left, right)), {top, left, right};
    ThreeHeld(top, left, right, t.live);
  }

  /** A reader holds the root of this tree; then 3 is deleted. The reader's root still leads to
      the leaf that was merged, which is empty now. */
  method DeleteUnderReader(lt: Less<int>) returns (reader: HeapNode<int>)
    requires StrictWeak(lt) && lt(1, 2) && lt(2, 3)
    ensures |reader.children| == 2 && reader.items == [2] && reader.children[1].items == []
  {
    hide M.Valid, Merged, StrictWeak, Abs, M.DeleteItem, HoldsIn, M.Height;
    var t, top, left, right := MakeThree();
    reader := top;
    ThreeMerges(lt, top, left, right);
    RightHeld(Three(top, left, right), t.live);
    assert t.Model() == M.BTree(2, Some(Abs(Three(top, left, right))), 3);
    assert t.MergedOwn(lt, RemoveItem(3)) == {right};
    assert top.children == [left, right] && top in t.live - t.MergedOwn(lt, RemoveItem(3)) &&
      right in t.MergedOwn(lt, RemoveItem(3));
    var out := t.DeleteItem(lt, RemoveItem(3), {});
  }
}
