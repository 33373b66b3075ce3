/** Clear with addNodesToFreelist: the nodes of a tree go to its free list until that is full. */
module BTreeHeapReset {
  import opened Orders
  import opened BTreeModel
  import opened BTreeRemoval
  import opened BTreeHeap
  import opened BTreeHeapRemoval

  ghost function NodesOf<T>(s: Shape<T>): set<HeapNode<T>> {
    {s.ref} + NodesOfAll(s.kids)
  }

  ghost function NodesOfAll<T>(ss: seq<Shape<T>>): set<HeapNode<T>> {
    if ss == [] then {} else NodesOfAll(ss[..|ss| - 1]) + NodesOf(ss[|ss| - 1])
  }

  lemma {:induction false} HeldNodes<T>(s: Shape<T>, k: set<HeapNode<T>>)
    requires HoldsIn(s, k)
    ensures NodesOf(s) <= k
    decreases s, 0
  {
    HeldNodesAll(s.kids, k, s);
  }

  lemma {:induction false} HeldNodesAll<T>(ss: seq<Shape<T>>, k: set<HeapNode<T>>, s: Shape<T>)
    requires ss <= s.kids && forall i :: 0 <= i < |ss| ==> HoldsIn(ss[i], k)
    ensures NodesOfAll(ss) <= k
    decreases s, 0, |ss|
  {
    if ss != [] {
      assert s.kids[|ss| - 1] == ss[|ss| - 1];
      HeldNodes(ss[|ss| - 1], k);
      HeldNodesAll(ss[..|ss| - 1], k, s);
    }
  }

  lemma {:induction false} KidNodesIn<T>(ss: seq<Shape<T>>, i: nat)
    requires i < |ss|
    ensures NodesOf(ss[i]) <= NodesOfAll(ss)
  {
    if i < |ss| - 1 {
      KidNodesIn(ss[..|ss| - 1], i);
    }
  }

  /** What is held anywhere is held in its own nodes. */
  lemma {:induction false} HeldInOwn<T>(s: Shape<T>, k: set<HeapNode<T>>)
    requires HoldsIn(s, k)
    ensures HoldsIn(s, NodesOf(s))
  {
    forall i | 0 <= i < |s.kids| ensures HoldsIn(s.kids[i], NodesOf(s)) {
      HeldInOwn(s.kids[i], k);
      KidNodesIn(s.kids, i);
      Widen(s.kids[i], NodesOf(s.kids[i]), NodesOf(s));
    }
  }

  ghost predicate InKids<T>(s: Shape<T>, i: nat, y: T)
    requires i <= |s.kids|
  {
    exists j :: 0 <= j < i && y in Flatten(Abs(s.kids[j]))
  }

  /** The nodes of k that hold items of the first i kids. */
  ghost function KidHolders<T>(s: Shape<T>, i: nat, k: set<HeapNode<T>>): set<HeapNode<T>>
    requires i <= |s.kids|
    reads k
  {
    set m | m in k && |m.items| > 0 && InKids(s, i, m.items[0])
  }

  /** Kid i does without the nodes of the kids before it, and so does the node itself. */
  lemma KidApart<T(!new)>(lt: Less<T>, s: Shape<T>, i: nat, k: set<HeapNode<T>>)
    requires StrictWeak(lt) && Sorted(lt, Flatten(Abs(s))) && ShapeOk(s) && HoldsIn(s, k) && i <= |s.kids|
    requires s.kids != [] ==> |s.items| > 0
    ensures s.ref !in KidHolders(s, i, k)
    ensures i < |s.kids| ==> HoldsIn(s.kids[i], k - KidHolders(s, i, k))
  {
    hide Flatten, StrictWeak, Sorted;
    var t, f := Abs(s), KidHolders(s, i, k);
    if s.ref in f {
      var j :| 0 <= j < i && s.items[0] in Flatten(Abs(s.kids[j]));
      assert t.children[j] == Abs(s.kids[j]);
      ElsewhereNot(lt, t, 0, j, s.items[0]);
    }
    if i < |s.kids| {
      forall m | m in f ensures m.items[0] !in Flatten(Abs(s.kids[i])) {
        var j :| 0 <= j < i && m.items[0] in Flatten(Abs(s.kids[j]));
        assert t.children[j] == Abs(s.kids[j]) && t.children[i] == Abs(s.kids[i]);
        ElsewhereNot(lt, t, j, i, m.items[0]);
      }
      AvoidsAll(s.kids[i], k, f);
    }
  }

  ghost predicate Sound<T(!new)>(lt: Less<T>, s: Shape<T>, d: nat, h: nat)
    requires d >= 2
  {
    Sorted(lt, Flatten(Abs(s))) && Balanced(Abs(s), h, d) && (s.kids != [] ==> |s.items| > 0)
  }

  lemma SoundKid<T(!new)>(lt: Less<T>, s: Shape<T>, d: nat, h: nat, i: nat)
    requires StrictWeak(lt) && d >= 2 && Sound(lt, s, d, h) && i < |s.kids|
    ensures h > 0 && Sound(lt, s.kids[i], d, h - 1) && |s.kids[i].items| > 0
  {
    hide Flatten, StrictWeak, Sorted;
    var t := Abs(s);
    NodeKind(t, h, d);
    assert t.children[i] == Abs(s.kids[i]);
    SlotInNode(lt, t, s.items[0], i);
  }

  /** What is needed to reset the kids one after the other: kid i lies outside layers[i], and the
      nodes that resetting it may touch lie in layers[i + 1]. */
  ghost predicate Layered<T>(s: Shape<T>, k: set<HeapNode<T>>, layers: seq<set<HeapNode<T>>>)
    reads k
  {
    && |layers| == |s.kids| + 1
    && (forall i :: 0 <= i < |layers| ==> s.ref !in layers[i] && layers[i] <= Holders(Flatten(Abs(s)), k))
    && (forall i :: 0 <= i < |s.kids| ==>
      && HoldsIn(s.kids[i], k - layers[i])
      && layers[i] <= layers[i + 1] && {s.kids[i].ref} + Holders(Flatten(Abs(s.kids[i])), k) <= layers[i + 1])
  }

  lemma Layers<T(!new)>(lt: Less<T>, s: Shape<T>, k: set<HeapNode<T>>, d: nat, h: nat)
      returns (layers: seq<set<HeapNode<T>>>)
    requires StrictWeak(lt) && d >= 2 && Sound(lt, s, d, h) && HoldsIn(s, k)
    ensures Layered(s, k, layers)
  {
    hide Flatten, StrictWeak, Sorted, Balanced, HoldsIn;
    ShapeOkOf(s, h, d);
    RightHeld(s, k);
    layers := seq(|s.kids| + 1, i reads k requires 0 <= i <= |s.kids| => KidHolders(s, i, k));
    forall i | 0 <= i < |layers| ensures s.ref !in layers[i] && layers[i] <= Holders(Flatten(Abs(s)), k) {
      KidApart(lt, s, i, k);
      forall m | m in layers[i] ensures m.items[0] in Flatten(Abs(s)) {
        var j :| 0 <= j < i && m.items[0] in Flatten(Abs(s.kids[j]));
        KidItemsIn(s, j, m.items[0]);
      }
    }
    forall i | 0 <= i < |s.kids|
      ensures HoldsIn(s.kids[i], k - layers[i])
      ensures layers[i] <= layers[i + 1] && {s.kids[i].ref} + Holders(Flatten(Abs(s.kids[i])), k) <= layers[i + 1]
    {
      KidApart(lt, s, i, k);
      SoundKid(lt, s, d, h, i);
      RightHeld(s.kids[i], k);
      FirstItem(s.kids[i], h - 1, d);
    }
  }

  lemma FirstItem<T>(s: Shape<T>, h: nat, d: nat)
    requires d >= 2 && Balanced(Abs(s), h, d) && |s.items| > 0
    ensures s.items[0] in Flatten(Abs(s))
  {
    hide Flatten;
    NodeKind(Abs(s), h, d);
    var p := ItemAt(Abs(s), 0);
  }

  /** The loop body of node.reset: kid i, whose nodes no earlier step has touched. */
  method ResetKid<T(!new)>(lt: Less<T>, n: HeapNode<T>, c: Context<T>, ghost s: Shape<T>, i: nat,
      ghost k: set<HeapNode<T>>, ghost layer: set<HeapNode<T>>,
                           ghost d: nat, ghost h: nat)
    returns (more: bool, ghost g: set<HeapNode<T>>)
    requires StrictWeak(lt) && d >= 2 && Sound(lt, s, d, h) && i < |s.kids| && n == s.kids[i].ref &&
      HoldsIn(s.kids[i], k - layer)
    requires c.freelist.Valid() && (k - layer) !! c.freelist.Nodes()
    modifies c.freelist, Mine(c, k - layer)
    ensures c.freelist.Valid() && old(c.freelist.Nodes()) <= c.freelist.Nodes() <= old(c.freelist.Nodes()) + g
    ensures g <= old(Mine(c, k - layer)) && g <= old(Holders(Flatten(Abs(s.kids[i])), k - layer)) + {n}
    ensures forall m :: m in k && m !in g ==> unchanged(m)
    ensures NodesOf(s.kids[i]) <= k - layer
    ensures if more then old(Mine(c, NodesOf(s.kids[i]))) <= c.freelist.Nodes()
      else |c.freelist.nodes| == c.freelist.capacity
    decreases h, 0
  {
    hide Flatten, StrictWeak, Sorted, HoldsIn, NodesOf, NodesOfAll, Balanced;
    SoundKid(lt, s, d, h, i);
    HeldNodes(s.kids[i], k - layer);
    more, g := Reset(lt, n, c, s.kids[i], k - layer, d, h - 1);
  }

  lemma KidNodes<T>(s: Shape<T>, i: nat)
    requires i < |s.kids|
    ensures NodesOfAll(s.kids[..i + 1]) == NodesOfAll(s.kids[..i]) + NodesOf(s.kids[i])
  {
    assert s.kids[..i + 1][..i] == s.kids[..i];
  }

  lemma OwnNodes<T>(s: Shape<T>)
    ensures NodesOf(s) == {s.ref} + NodesOfAll(s.kids) && NodesOfAll<T>([]) == {}
  {
  }

  /** node.reset. The list ends full, or holds every node of the subtree that c owned. */
  method Reset<T(!new)>(lt: Less<T>, n: HeapNode<T>, c: Context<T>, ghost s: Shape<T>, ghost k: set<HeapNode<T>>,
      ghost d: nat, ghost h: nat)
    returns (more: bool, ghost f: set<HeapNode<T>>)
    requires StrictWeak(lt) && d >= 2 && Sound(lt, s, d, h) && n == s.ref && HoldsIn(s, k)
    requires c.freelist.Valid() && k !! c.freelist.Nodes()
    modifies c.freelist, Mine(c, k)
    ensures c.freelist.Valid() && (k - f) !! c.freelist.Nodes() &&
      old(c.freelist.Nodes()) <= c.freelist.Nodes() <= old(c.freelist.Nodes()) + f
    ensures f <= old(Mine(c, k)) && f <= old(Holders(Flatten(Abs(s)), k)) + {n}
    ensures forall m :: m in k && m !in f ==> unchanged(m)
    ensures if more then old(Mine(c, NodesOf(s))) <= c.freelist.Nodes() else |c.freelist.nodes| == c.freelist.capacity
    decreases h, 1
  {
    hide Flatten, StrictWeak, Sorted, HoldsIn, Sound, NodesOf, NodesOfAll;
    ghost var kh := Layers(lt, s, k, d, h);
    RightHeld(s, k);
    OwnNodes(s);
    f := {};
    var children := n.children;
    var i := 0;
    while i < |children|
      invariant i <= |children| && f <= kh[i] && f <= old(Mine(c, k))
      invariant c.freelist.Valid() && (k - f) !! c.freelist.Nodes() &&
        old(c.freelist.Nodes()) <= c.freelist.Nodes() <= old(c.freelist.Nodes()) + f
      invariant forall m :: m in k && m !in f ==> unchanged(m)
      invariant old(Mine(c, NodesOfAll(s.kids[..i]))) <= c.freelist.Nodes()
    {
      var go;
      ghost var g;
      assert old(HoldsIn(s.kids[i], k - kh[i]));
      assert k - kh[i] <= k - f;
      go, g := ResetKid(lt, children[i], c, s, i, k, kh[i], d, h);
      f := f + g;
      KidNodes(s, i);
      i := i + 1;
      assert f <= kh[i] <= old(Holders(Flatten(Abs(s)), k));
      if !go { return false, f; }
    }
    assert s.kids[..|children|] == s.kids;
    f := f + Mine(c, {n});
    more := FreeNode(c, n);
  }
}
