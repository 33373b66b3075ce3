/** The whole tree of util/btree: root handling, the length counter, and runs of operations. */
module BTreeMap {
  import opened Orders
  import opened BTreeModel
  import opened BTreeRemoval

  datatype BTree<T> = BTree(degree: nat, root: Option<Tree<T>>, length: int)

  ghost function Height<T>(t: Tree<T>): nat {
    if t.children == [] then 0 else 1 + Height(t.children[0])
  }

  lemma {:induction false} BalancedHeight<T>(t: Tree<T>, h: nat, d: nat)
    requires d >= 2 && Balanced(t, h, d)
    ensures Height(t) == h
    decreases h
  {
    if h > 0 { BalancedHeight(t.children[0], h - 1, d); }
  }

  ghost function Items<T>(b: BTree<T>): seq<T> {
    if b.root.None? then [] else Flatten(b.root.value)
  }

  ghost predicate RootBalanced<T>(t: Tree<T>, d: nat)
    requires d >= 2
  {
    Balanced(t, Height(t), d) && (t.children != [] ==> |t.items| > 0)
  }

  ghost predicate Valid<T(!new)>(lt: Less<T>, b: BTree<T>) {
    && b.degree >= 2
    && Sorted(lt, Items(b))
    && b.length == |Items(b)|
    && (b.root.Some? ==> RootBalanced(b.root.value, b.degree))
  }

  datatype Outcome<T> = Outcome(tree: BTree<T>, out: Option<T>)

  ghost function New<T>(degree: nat): BTree<T> {
    BTree(degree, None, 0)
  }

  /** A full root is split under a new root before inserting. */
  ghost function RoomyRoot<T>(t: Tree<T>, d: nat): Tree<T>
    requires d >= 2 && LeafOrInner(t)
  {
    if |t.items| >= 2 * d - 1 then Node([t.items[d - 1]], [SplitLeft(t, d - 1), SplitRight(t, d - 1)]) else t
  }

  lemma RoomyRootOk<T>(t: Tree<T>, d: nat)
    requires d >= 2 && RootBalanced(t, d)
    ensures LeafOrInner(t)
    ensures var r := RoomyRoot(t, d);
      RootBalanced(r, d) && |r.items| < 2 * d - 1 && Flatten(r) == Flatten(t)
  {
    hide Flatten, Balanced, SplitLeft, SplitRight, Height;
    var h := Height(t);
    NodeKind(t, h, d);
    RootSize(t, h, d);
    var r := RoomyRoot(t, d);
    if |t.items| >= 2 * d - 1 {
      SplitBalanced(t, h, d);
      SplitFlatten(t, d - 1);
      TwoChildBalanced(SplitLeft(t, d - 1), SplitRight(t, d - 1), t.items[d - 1], h, d);
      BalancedHeight(r, h + 1, d);
      TwoChildFlatten(r);
    }
  }

  lemma RootSize<T>(t: Tree<T>, h: nat, d: nat)
    requires d >= 2 && Balanced(t, h, d)
    ensures |t.items| <= 2 * d - 1
  {
  }

  lemma TwoChildBalanced<T>(l: Tree<T>, r: Tree<T>, x: T, h: nat, d: nat)
    requires d >= 2 && Balanced(l, h, d) && Balanced(r, h, d) && |l.items| >= d - 1 && |r.items| >= d - 1
    ensures Balanced(Node([x], [l, r]), h + 1, d)
  {
  }

  lemma TwoChildFlatten<T>(t: Tree<T>)
    requires |t.items| == 1 && |t.children| == 2
    ensures Flatten(t) == Flatten(t.children[0]) + [t.items[0]] + Flatten(t.children[1])
  {
    hide Flatten, Lo, Hi;
    FlattenAtItem(t, 0);
    EmptySides(t);
  }

  ghost function ReplaceOrInsert<T(!new)>(lt: Less<T>, b: BTree<T>, x: T): Outcome<T>
    requires Valid(lt, b)
  {
    if b.root.None? then Outcome(BTree(b.degree, Some(Node([x], [])), b.length + 1), None) else
      RoomyRootOk(b.root.value, b.degree);
      var r := RoomyRoot(b.root.value, b.degree);
      var s := Insert(lt, r, x, b.degree, Height(r));
      Outcome(BTree(b.degree, Some(s.tree), if s.out.None? then b.length + 1 else b.length), s.out)
  }

  /** A root left without items gives way to its only child. */
  ghost function ShrunkRoot<T>(t: Tree<T>): Tree<T> {
    if |t.items| == 0 && |t.children| > 0 then t.children[0] else t
  }

  ghost function DeleteItem<T(!new)>(lt: Less<T>, b: BTree<T>, typ: Removal<T>): Outcome<T>
    requires StrictWeak(lt) && Valid(lt, b)
  {
    if b.root.None? || |b.root.value.items| == 0 then Outcome(b, None) else
      var s := Remove(lt, b.root.value, typ, b.degree, Height(b.root.value));
      Outcome(BTree(b.degree, Some(ShrunkRoot(s.tree)), if s.out.Some? then b.length - 1 else b.length), s.out)
  }

  lemma ReplaceOrInsertRefines<T(!new)>(lt: Less<T>, b: BTree<T>, x: T)
    requires StrictWeak(lt) && Valid(lt, b)
    ensures var o := ReplaceOrInsert(lt, b, x);
      Valid(lt, o.tree) && FlatInsert(lt, Items(b), x) == Change(Items(o.tree), o.out)
  {
    hide Flatten, Balanced, Insert, Find, Height, StrictWeak, Sorted;
    FlatInsertSorted(lt, Items(b), x);
    if b.root.Some? {
      var d := b.degree;
      RoomyRootOk(b.root.value, d);
      var r := RoomyRoot(b.root.value, d);
      var h := Height(r);
      var s := Insert(lt, r, x, d, h);
      InsertRefines(lt, r, x, d, h);
      InsertBalanced(lt, r, x, d, h);
      BalancedHeight(s.tree, h, d);
      NodeKind(r, h, d);
      NodeKind(s.tree, h, d);
      HeightZero(s.tree);
      HeightZero(r);
    } else {
      NewRoot(x, b.degree);
      NoItems(lt, x);
    }
  }

  lemma HeightZero<T>(t: Tree<T>)
    ensures Height(t) == 0 <==> t.children == []
  {
  }

  lemma NewRoot<T>(x: T, d: nat)
    requires d >= 2
    ensures RootBalanced(Node([x], []), d) && Flatten(Node([x], [])) == [x]
  {
  }

  lemma NoItems<T>(lt: Less<T>, x: T)
    ensures FlatInsert(lt, [], x) == Change([x], None)
  {
  }

  lemma DeleteItemRefines<T(!new)>(lt: Less<T>, b: BTree<T>, typ: Removal<T>)
    requires StrictWeak(lt) && Valid(lt, b)
    ensures var o := DeleteItem(lt, b, typ);
      Valid(lt, o.tree) && FlatRemove(lt, Items(b), typ) == Change(Items(o.tree), o.out)
  {
    hide Flatten, Balanced, Remove, Find, Height, StrictWeak, Sorted, FlatRemove;
    FlatRemoveSorted(lt, Items(b), typ);
    if b.root.None? || |b.root.value.items| == 0 {
      if b.root.Some? { LeafFlatten(b.root.value); }
      assert Items(b) == [];
      NothingToRemove(lt, typ);
    } else {
      var d, t := b.degree, b.root.value;
      var h := Height(t);
      HeightZero(t);
      RemoveRefines(lt, t, typ, d, h);
      RemoveBalanced(lt, t, typ, d, h);
      ShrunkRootOk(Remove(lt, t, typ, d, h).tree, h, d);
    }
  }

  lemma NothingToRemove<T>(lt: Less<T>, typ: Removal<T>)
    ensures FlatRemove(lt, [], typ) == Change([], None)
  {
  }

  lemma ShrunkRootOk<T>(t: Tree<T>, h: nat, d: nat)
    requires d >= 2 && Balanced(t, h, d)
    ensures RootBalanced(ShrunkRoot(t), d) && Flatten(ShrunkRoot(t)) == Flatten(t)
  {
    hide Flatten, Lo, Hi;
    BalancedHeight(t, h, d);
    NodeKind(t, h, d);
    if |t.items| == 0 && |t.children| > 0 {
      ChildBalanced(t, h, d, 0);
      BalancedHeight(t.children[0], h - 1, d);
      FlattenAt(t, 0);
      EmptySides(t);
    }
  }

  // ----- every run -----

  datatype Op<T> = Put(item: T) | Delete(typ: Removal<T>)

  ghost function Apply<T(!new)>(lt: Less<T>, b: BTree<T>, op: Op<T>): Outcome<T>
    requires StrictWeak(lt) && Valid(lt, b)
  {
    match op case Put(x) => ReplaceOrInsert(lt, b, x) case Delete(typ) => DeleteItem(lt, b, typ)
  }

  ghost function ApplyFlat<T>(lt: Less<T>, s: seq<T>, op: Op<T>): Change<T> {
    match op case Put(x) => FlatInsert(lt, s, x) case Delete(typ) => FlatRemove(lt, s, typ)
  }

  lemma ApplyRefines<T(!new)>(lt: Less<T>, b: BTree<T>, op: Op<T>)
    requires StrictWeak(lt) && Valid(lt, b)
    ensures var o := Apply(lt, b, op);
      Valid(lt, o.tree) && ApplyFlat(lt, Items(b), op) == Change(Items(o.tree), o.out)
  {
    hide Items, Valid, ReplaceOrInsert, DeleteItem, StrictWeak;
    match op
    case Put(x) => ReplaceOrInsertRefines(lt, b, x);
    case Delete(typ) => DeleteItemRefines(lt, b, typ);
  }

  datatype Trace<T> = Trace(tree: BTree<T>, outs: seq<Option<T>>)
  datatype FlatTrace<T> = FlatTrace(items: seq<T>, outs: seq<Option<T>>)

  ghost function Run<T(!new)>(lt: Less<T>, b: BTree<T>, ops: seq<Op<T>>): Trace<T>
    requires StrictWeak(lt) && Valid(lt, b)
    decreases |ops|
  {
    if ops == [] then Trace(b, []) else
      ApplyRefines(lt, b, ops[0]);
      var o := Apply(lt, b, ops[0]);
      var r := Run(lt, o.tree, ops[1..]);
      Trace(r.tree, [o.out] + r.outs)
  }

  ghost function RunFlat<T>(lt: Less<T>, s: seq<T>, ops: seq<Op<T>>): FlatTrace<T>
    decreases |ops|
  {
    if ops == [] then FlatTrace(s, []) else
      var o := ApplyFlat(lt, s, ops[0]);
      var r := RunFlat(lt, o.items, ops[1..]);
      FlatTrace(r.items, [o.out] + r.outs)
  }

  lemma {:induction false} RunRefines<T(!new)>(lt: Less<T>, b: BTree<T>, ops: seq<Op<T>>)
    requires StrictWeak(lt) && Valid(lt, b)
    ensures var r := Run(lt, b, ops);
      Valid(lt, r.tree) && RunFlat(lt, Items(b), ops) == FlatTrace(Items(r.tree), r.outs)
    decreases |ops|
  {
    hide Items, Valid, StrictWeak, Apply, ApplyFlat;
    if ops != [] {
      ApplyRefines(lt, b, ops[0]);
      RunRefines(lt, Apply(lt, b, ops[0]).tree, ops[1..]);
    }
  }

  /** A run, extended by one operation. */
  lemma {:induction false} RunSnoc<T(!new)>(lt: Less<T>, b: BTree<T>, ops: seq<Op<T>>, op: Op<T>)
    requires StrictWeak(lt) && Valid(lt, b)
    ensures Valid(lt, Run(lt, b, ops).tree)
    ensures var r := Run(lt, b, ops); var o := Apply(lt, r.tree, op);
      Run(lt, b, ops + [op]) == Trace(o.tree, r.outs + [o.out])
    decreases |ops|
  {
    hide Valid, StrictWeak, Apply;
    RunRefines(lt, b, ops);
    if ops == [] {
      ApplyRefines(lt, b, op);
      assert ([op])[1..] == [] && [] + [op] == [op];
      assert Run(lt, Apply(lt, b, op).tree, []) == Trace(Apply(lt, b, op).tree, []);
    } else {
      ApplyRefines(lt, b, ops[0]);
      RunSnoc(lt, Apply(lt, b, ops[0]).tree, ops[1..], op);
      assert (ops + [op])[1..] == ops[1..] + [op] && (ops + [op])[0] == ops[0];
    }
  }

  /** For every degree of at least 2 and every run from the empty tree: the tree is an ordered
      map. Contents and results are those of the flat sorted list, the items are strictly sorted,
      every leaf is at one depth, nodes are within bounds, and the length counts the items. */
  lemma EveryRunIsAnOrderedMap<T(!new)>(lt: Less<T>, degree: nat, ops: seq<Op<T>>)
    requires StrictWeak(lt) && degree >= 2
    ensures Valid(lt, New<T>(degree))
    ensures var r := Run(lt, New<T>(degree), ops);
      && Valid(lt, r.tree)
      && RunFlat(lt, [], ops) == FlatTrace(Items(r.tree), r.outs)
  {
    hide StrictWeak;
    RunRefines(lt, New<T>(degree), ops);
  }

  /** Get, Has and Len on the whole tree. */
  lemma LookupIsMapLookup<T(!new)>(lt: Less<T>, b: BTree<T>, x: T)
    requires StrictWeak(lt) && Valid(lt, b)
    ensures (if b.root.None? then None else Get(lt, b.root.value, x)) == FlatGet(lt, Items(b), x)
  {
    hide Flatten, Balanced, StrictWeak, Sorted, Get;
    if b.root.Some? { GetRefines(lt, b.root.value, x, Height(b.root.value), b.degree); }
  }
}
