/** The B-tree algorithm of util/btree on immutable trees: splitting full nodes on the way down
    when inserting, and the proof that it is the flat sorted list of `Orders` kept in balanced
    nodes. Removal is in `BTreeRemoval`, iteration in `BTreeIteration`. */
module BTreeModel {
  import opened Orders

  datatype Tree<T> = Node(items: seq<T>, children: seq<Tree<T>>)

  /** In-order contents. A node with children holds children[0], items[0], children[1], ... */
  ghost function Flatten<T>(t: Tree<T>): seq<T>
    decreases t
  {
    if t.children == [] then t.items else
      var ks := Kids(t.children);
      ks[0] + After(t.items, ks[1..])
  }

  ghost function Kids<T>(ts: seq<Tree<T>>): (ks: seq<seq<T>>)
    ensures |ks| == |ts|
    ensures forall i :: 0 <= i < |ts| ==> ks[i] == Flatten(ts[i])
    decreases ts
  {
    if ts == [] then [] else [Flatten(ts[0])] + Kids(ts[1..])
  }

  /** its[0], ks[0], its[1], ks[1], ... */
  ghost function After<T>(its: seq<T>, ks: seq<seq<T>>): seq<T> {
    if its == [] || ks == [] then [] else [its[0]] + ks[0] + After(its[1..], ks[1..])
  }

  /** ks[0], its[0], ks[1], its[1], ... */
  ghost function Before<T>(its: seq<T>, ks: seq<seq<T>>): seq<T>
    requires |its| == |ks|
  {
    if its == [] then [] else
      var n := |its| - 1;
      Before(its[..n], ks[..n]) + ks[n] + [its[n]]
  }

  ghost predicate Inner<T>(t: Tree<T>) {
    |t.children| == |t.items| + 1
  }

  /** Everything in order before child i of t, and everything after it. */
  ghost function Lo<T>(t: Tree<T>, i: nat): seq<T>
    requires Inner(t) && i <= |t.items|
  {
    Before(t.items[..i], Kids(t.children)[..i])
  }

  ghost function Hi<T>(t: Tree<T>, i: nat): seq<T>
    requires Inner(t) && i <= |t.items|
  {
    After(t.items[i..], Kids(t.children)[i + 1..])
  }

  /** Every node holds at most 2d-1 items, every child at least d-1, and all leaves lie at the
      same depth h below. The node's own lower bound is the business of its parent. */
  ghost predicate Balanced<T>(t: Tree<T>, h: nat, d: nat)
    requires d >= 2
    decreases h
  {
    && |t.items| <= 2 * d - 1
    && if h == 0 then t.children == [] else
         && Inner(t)
         && forall i :: 0 <= i < |t.children| ==>
              Balanced(t.children[i], h - 1, d) && |t.children[i].items| >= d - 1
  }

  lemma ChildBalanced<T>(t: Tree<T>, h: nat, d: nat, i: nat)
    requires d >= 2 && Balanced(t, h, d) && h > 0 && i <= |t.items|
    ensures Inner(t) && Balanced(t.children[i], h - 1, d) && |t.children[i].items| >= d - 1
  {
  }

  // ----- the in-order sequence seen from one child or one item -----

  lemma {:induction false} WeaveShift<T>(its: seq<T>, ks: seq<seq<T>>, i: nat)
    requires |ks| == |its| + 1 && i <= |its|
    ensures ks[0] + After(its, ks[1..]) == Before(its[..i], ks[..i]) + ks[i] + After(its[i..], ks[i + 1..])
  {
    if i == 0 {
      assert its[0..] == its;
    } else {
      WeaveShift(its, ks, i - 1);
      assert its[..i][..i - 1] == its[..i - 1] && ks[..i][..i - 1] == ks[..i - 1];
      assert its[i - 1..][1..] == its[i..] && ks[i..][1..] == ks[i + 1..];
    }
  }

  lemma FlattenAt<T>(t: Tree<T>, i: nat)
    requires Inner(t) && i <= |t.items|
    ensures Flatten(t) == Lo(t, i) + Flatten(t.children[i]) + Hi(t, i)
  {
    hide After, Before;
    WeaveShift(t.items, Kids(t.children), i);
  }

  lemma LeafFlatten<T>(t: Tree<T>)
    requires t.children == []
    ensures Flatten(t) == t.items
  {
  }

  lemma LoStep<T>(t: Tree<T>, i: nat)
    requires Inner(t) && i < |t.items|
    ensures Lo(t, 0) == []
    ensures Lo(t, i + 1) == Lo(t, i) + Flatten(t.children[i]) + [t.items[i]]
  {
    hide Flatten;
    var ks := Kids(t.children);
    assert t.items[..i + 1][..i] == t.items[..i] && ks[..i + 1][..i] == ks[..i];
  }

  lemma HiStep<T>(t: Tree<T>, i: nat)
    requires Inner(t) && i < |t.items|
    ensures Hi(t, |t.items|) == []
    ensures Hi(t, i) == [t.items[i]] + Flatten(t.children[i + 1]) + Hi(t, i + 1)
  {
    hide Flatten;
    var ks := Kids(t.children);
    assert t.items[i..][1..] == t.items[i + 1..] && ks[i + 1..][1..] == ks[i + 2..];
  }

  /** The in-order sequence of a node, seen from item i. */
  lemma FlattenAtItem<T>(t: Tree<T>, i: nat)
    requires Inner(t) && i < |t.items|
    ensures Flatten(t) == (Lo(t, i) + Flatten(t.children[i])) + [t.items[i]]
      + (Flatten(t.children[i + 1]) + Hi(t, i + 1))
  {
    hide Flatten, Lo, Hi;
    FlattenAt(t, i);
    HiStep(t, i);
  }

  lemma KidsConcat<T>(a: seq<Tree<T>>, b: seq<Tree<T>>)
    ensures Kids(a + b) == Kids(a) + Kids(b)
  {
    hide Flatten;
  }

  lemma LoCong<T>(t: Tree<T>, t': Tree<T>, i: nat)
    requires Inner(t) && Inner(t') && i <= |t.items| && i <= |t'.items|
    requires t.items[..i] == t'.items[..i] && t.children[..i] == t'.children[..i]
    ensures Lo(t, i) == Lo(t', i)
  {
    hide Flatten, Before;
    KidsConcat(t.children[..i], t.children[i..]);
    KidsConcat(t'.children[..i], t'.children[i..]);
    assert t.children[..i] + t.children[i..] == t.children && t'.children[..i] + t'.children[i..] == t'.children;
  }

  lemma HiCong<T>(t: Tree<T>, i: nat, t': Tree<T>, j: nat)
    requires Inner(t) && Inner(t') && i <= |t.items| && j <= |t'.items|
    requires t.items[i..] == t'.items[j..] && t.children[i + 1..] == t'.children[j + 1..]
    ensures Hi(t, i) == Hi(t', j)
  {
    hide Flatten, After;
    KidsConcat(t.children[..i + 1], t.children[i + 1..]);
    KidsConcat(t'.children[..j + 1], t'.children[j + 1..]);
    assert t.children[..i + 1] + t.children[i + 1..] == t.children;
    assert t'.children[..j + 1] + t'.children[j + 1..] == t'.children;
  }

  /** Replacing child i (with the items unchanged) replaces its stretch of the sequence. */
  lemma FlattenUpdate<T>(t: Tree<T>, i: nat, c: Tree<T>)
    requires Inner(t) && i <= |t.items|
    ensures Flatten(Node(t.items, t.children[i := c])) == Lo(t, i) + Flatten(c) + Hi(t, i)
  {
    hide Flatten, Lo, Hi;
    var t' := Node(t.items, t.children[i := c]);
    FlattenAt(t', i);
    LoCong(t, t', i);
    HiCong(t, i, t', i);
  }

  // ----- search -----

  /** node.get */
  ghost function Get<T>(lt: Less<T>, t: Tree<T>, x: T): Option<T>
    decreases t
  {
    var r := Find(lt, t.items, x);
    if r.found then Some(t.items[r.index])
    else if r.index < |t.children| then Get(lt, t.children[r.index], x)
    else None
  }

  /** Sortedness of the whole gives sortedness of child i, and puts the two sides of the child on
      the two sides of any x between the neighbouring items. */
  lemma SlotInNode<T(!new)>(lt: Less<T>, t: Tree<T>, x: T, i: nat)
    requires StrictWeak(lt) && Sorted(lt, Flatten(t))
    requires Inner(t) && i <= |t.items|
    ensures Sorted(lt, Flatten(t.children[i]))
    ensures Flatten(t) == Lo(t, i) + Flatten(t.children[i]) + Hi(t, i)
    ensures (i > 0 ==> lt(t.items[i - 1], x)) ==> AllBelow(lt, Lo(t, i), x)
    ensures (i < |t.items| ==> lt(x, t.items[i])) ==> AllAbove(lt, x, Hi(t, i))
  {
    hide Flatten, Lo, Hi;
    FlattenAt(t, i);
    var a, b, c := Lo(t, i), Flatten(t.children[i]), Hi(t, i);
    SortedSlice(lt, Flatten(t), |a|, |a| + |b|);
    assert Flatten(t)[|a|..|a| + |b|] == b;
    if i > 0 {
      LoStep(t, i - 1);
      var a' := Lo(t, i - 1) + Flatten(t.children[i - 1]);
      assert a' + [t.items[i - 1]] + (b + c) == Flatten(t);
      BelowFrom(lt, a', t.items[i - 1], b + c, x);
    } else if |t.items| > 0 {
      LoStep(t, 0);
    } else {
      EmptySides(t);
    }
    if i < |t.items| {
      HiStep(t, i);
      var c' := Flatten(t.children[i + 1]) + Hi(t, i + 1);
      assert [t.items[i]] + c' == c;
      assert (a + b) + [t.items[i]] + c' == Flatten(t);
      BelowFrom(lt, a + b, t.items[i], c', x);
    } else if |t.items| > 0 {
      HiStep(t, 0);
    } else {
      EmptySides(t);
    }
  }

  lemma EmptySides<T>(t: Tree<T>)
    requires Inner(t)
    ensures Lo(t, 0) == [] && Hi(t, |t.items|) == []
  {
  }

  lemma ItemOrder<T(!new)>(lt: Less<T>, t: Tree<T>, i: nat, j: nat)
    requires StrictWeak(lt) && Sorted(lt, Flatten(t))
    requires Inner(t) && i < j < |t.items|
    ensures lt(t.items[i], t.items[j])
    decreases j - i
  {
    hide Flatten, Lo, Hi;
    FlattenAtItem(t, i);
    HiStep(t, i + 1);
    var a := Lo(t, i) + Flatten(t.children[i]);
    var rest := Flatten(t.children[i + 1]) + Hi(t, i + 1);
    BelowFrom(lt, a, t.items[i], rest, t.items[i]);
    assert rest[|Flatten(t.children[i + 1])|] == t.items[i + 1];
    if i + 1 < j { ItemOrder(lt, t, i + 1, j); }
  }

  lemma ItemsSorted<T(!new)>(lt: Less<T>, t: Tree<T>, h: nat, d: nat)
    requires StrictWeak(lt) && Sorted(lt, Flatten(t)) && d >= 2 && Balanced(t, h, d)
    ensures Sorted(lt, t.items)
  {
    if h > 0 {
      hide Flatten;
      forall i, j | 0 <= i < j < |t.items| ensures lt(t.items[i], t.items[j]) { ItemOrder(lt, t, i, j); }
    }
  }

  /** Searching the whole is searching the child at x's slot. */
  lemma DescendFind<T(!new)>(lt: Less<T>, t: Tree<T>, x: T, i: nat)
    requires StrictWeak(lt) && Sorted(lt, Flatten(t)) && Inner(t) && i <= |t.items|
    requires i > 0 ==> lt(t.items[i - 1], x)
    requires i < |t.items| ==> lt(x, t.items[i])
    ensures Sorted(lt, Flatten(t.children[i]))
    ensures Flatten(t) == Lo(t, i) + Flatten(t.children[i]) + Hi(t, i)
    ensures var p := Find(lt, Flatten(t.children[i]), x);
      Find(lt, Flatten(t), x) == Slot(|Lo(t, i)| + p.index, p.found)
  {
    hide Flatten, Lo, Hi, Find;
    SlotInNode(lt, t, x, i);
    FindConcat(lt, Lo(t, i), Flatten(t.children[i]), Hi(t, i), x);
  }

  /** An item found in the node sits between its two children in the flat sequence. */
  lemma FoundFind<T(!new)>(lt: Less<T>, t: Tree<T>, x: T, i: nat)
    requires StrictWeak(lt) && Sorted(lt, Flatten(t))
    requires Inner(t) && i < |t.items| && Same(lt, t.items[i], x)
    ensures var p := |Lo(t, i)| + |Flatten(t.children[i])|;
      Find(lt, Flatten(t), x) == Slot(p, true) && p < |Flatten(t)| && Flatten(t)[p] == t.items[i]
  {
    hide Flatten, Lo, Hi, Find;
    FlattenAtItem(t, i);
    GetByMember(lt, Flatten(t), x, |Lo(t, i)| + |Flatten(t.children[i])|);
  }

  /** The slot of x in a node of a sorted tree. */
  lemma NodeSlot<T(!new)>(lt: Less<T>, t: Tree<T>, x: T, h: nat, d: nat)
    requires StrictWeak(lt) && Sorted(lt, Flatten(t)) && d >= 2 && Balanced(t, h, d)
    ensures Sorted(lt, t.items) && IsSlot(lt, t.items, x, Find(lt, t.items, x))
  {
    hide Flatten, Find;
    ItemsSorted(lt, t, h, d);
    FindIsSlot(lt, t.items, x);
  }

  /** Search in the tree is search in the flat list. */
  lemma {:induction false} GetRefines<T(!new)>(lt: Less<T>, t: Tree<T>, x: T, h: nat, d: nat)
    requires StrictWeak(lt) && Sorted(lt, Flatten(t)) && d >= 2 && Balanced(t, h, d)
    ensures Get(lt, t, x) == FlatGet(lt, Flatten(t), x)
    decreases h
  {
    hide Flatten, Lo, Hi, Find, StrictWeak, Sorted;
    if h == 0 {
      LeafFlatten(t);
    } else {
      NodeSlot(lt, t, x, h, d);
      var r := Find(lt, t.items, x);
      if r.found {
        FoundFind(lt, t, x, r.index);
      } else {
        DescendFind(lt, t, x, r.index);
        GetRefines(lt, t.children[r.index], x, h - 1, d);
      }
    }
  }

  // ----- insertion -----

  datatype Step<T> = Step(tree: Tree<T>, out: Option<T>)

  ghost predicate LeafOrInner<T>(t: Tree<T>) {
    t.children == [] || Inner(t)
  }

  /** node.split: the part kept, and the new right node; items[i] goes up between them. */
  ghost function SplitLeft<T>(t: Tree<T>, i: nat): Tree<T>
    requires i < |t.items| && LeafOrInner(t)
  {
    Node(t.items[..i], if t.children == [] then [] else t.children[..i + 1])
  }

  ghost function SplitRight<T>(t: Tree<T>, i: nat): Tree<T>
    requires i < |t.items| && LeafOrInner(t)
  {
    Node(t.items[i + 1..], if t.children == [] then [] else t.children[i + 1..])
  }

  /** node.maybeSplitChild, when it does split. */
  ghost function SplitChild<T>(t: Tree<T>, i: nat, m: nat): Tree<T>
    requires Inner(t) && i < |t.children| && m < |t.children[i].items| && LeafOrInner(t.children[i])
  {
    var c := t.children[i];
    Node(t.items[..i] + [c.items[m]] + t.items[i..],
         t.children[..i] + [SplitLeft(c, m), SplitRight(c, m)] + t.children[i + 1..])
  }

  /** node.insert: maxItems is 2d-1 and a full child is split at maxItems/2 == d-1. */
  ghost function Insert<T>(lt: Less<T>, t: Tree<T>, x: T, d: nat, h: nat): Step<T>
    requires d >= 2 && Balanced(t, h, d)
    decreases h
  {
    var r := Find(lt, t.items, x);
    var i := r.index;
    if r.found then Step(Node(t.items[i := x], t.children), Some(t.items[i]))
    else if t.children == [] then Step(Node(t.items[..i] + [x] + t.items[i..], []), None)
    else if |t.children[i].items| < 2 * d - 1 then InsertBelow(lt, t, x, i, d, h)
    else
      SplitBalanced(t.children[i], h - 1, d);
      var s := SplitChild(t, i, d - 1);
      if lt(x, s.items[i]) then InsertBelow(lt, s, x, i, d, h)
      else if lt(s.items[i], x) then InsertBelow(lt, s, x, i + 1, d, h)
      else Step(Node(s.items[i := x], s.children), Some(s.items[i]))
  }

  /** The recursive call of node.insert on a private copy of child i. */
  ghost function InsertBelow<T>(lt: Less<T>, t: Tree<T>, x: T, i: nat, d: nat, h: nat): Step<T>
    requires d >= 2 && h > 0 && i < |t.children| && Balanced(t.children[i], h - 1, d)
    decreases h, 0
  {
    var s := Insert(lt, t.children[i], x, d, h - 1);
    Step(Node(t.items, t.children[i := s.tree]), s.out)
  }

  lemma SplitBalanced<T>(t: Tree<T>, h: nat, d: nat)
    requires d >= 2 && Balanced(t, h, d) && |t.items| == 2 * d - 1
    ensures LeafOrInner(t)
    ensures Balanced(SplitLeft(t, d - 1), h, d) && |SplitLeft(t, d - 1).items| == d - 1
    ensures Balanced(SplitRight(t, d - 1), h, d) && |SplitRight(t, d - 1).items| == d - 1
  {
  }

  lemma SplitFlatten<T>(t: Tree<T>, i: nat)
    requires LeafOrInner(t) && i < |t.items|
    ensures Flatten(t) == Flatten(SplitLeft(t, i)) + [t.items[i]] + Flatten(SplitRight(t, i))
  {
    hide Flatten, Lo, Hi;
    if t.children == [] {
      LeafFlatten(t);
      LeafFlatten(SplitLeft(t, i));
      LeafFlatten(SplitRight(t, i));
      assert t.items == t.items[..i] + [t.items[i]] + t.items[i + 1..];
    } else {
      SplitFlattenInner(t, i);
    }
  }

  lemma SplitFlattenInner<T>(t: Tree<T>, i: nat)
    requires Inner(t) && i < |t.items|
    ensures Flatten(t) == Flatten(SplitLeft(t, i)) + [t.items[i]] + Flatten(SplitRight(t, i))
  {
    hide Flatten, Lo, Hi;
    var l, r := SplitLeft(t, i), SplitRight(t, i);
    FlattenAtItem(t, i);
    SplitLeftFlatten(t, i);
    FlattenAt(r, 0);
    HiCong(t, i + 1, r, 0);
    EmptySides(r);
    assert Flatten(r) == Flatten(t.children[i + 1]) + Hi(t, i + 1);
  }

  lemma SplitLeftFlatten<T>(t: Tree<T>, i: nat)
    requires Inner(t) && i < |t.items|
    ensures Flatten(SplitLeft(t, i)) == Lo(t, i) + Flatten(t.children[i])
  {
    hide Flatten, Lo, Hi;
    var l := SplitLeft(t, i);
    FlattenAt(l, i);
    LoCong(t, l, i);
    EmptySides(l);
  }

  /** Splitting a child moves nothing in the flat sequence. */
  lemma SplitChildFlatten<T>(t: Tree<T>, i: nat, m: nat)
    requires Inner(t) && i < |t.children| && m < |t.children[i].items| && LeafOrInner(t.children[i])
    ensures Flatten(SplitChild(t, i, m)) == Flatten(t)
  {
    hide Flatten, Lo, Hi, SplitLeft, SplitRight;
    var c, s := t.children[i], SplitChild(t, i, m);
    assert s.children[i] == SplitLeft(c, m) && s.children[i + 1] == SplitRight(c, m) && s.items[i] == c.items[m];
    SplitFlatten(c, m);
    FlattenAt(t, i);
    FlattenAtItem(s, i);
    LoCong(t, s, i);
    HiCong(t, i, s, i + 1);
  }

  lemma SplitChildBalanced<T>(t: Tree<T>, i: nat, h: nat, d: nat)
    requires d >= 2 && Balanced(t, h, d) && h > 0 && i < |t.children| && |t.children[i].items| == 2 * d - 1
    requires |t.items| < 2 * d - 1
    ensures LeafOrInner(t.children[i])
    ensures var s := SplitChild(t, i, d - 1);
      && Balanced(s, h, d) && |s.items| == |t.items| + 1
      && |s.children[i].items| < 2 * d - 1 && |s.children[i + 1].items| < 2 * d - 1
  {
    SplitBalanced(t.children[i], h - 1, d);
    var s := SplitChild(t, i, d - 1);
    forall k | 0 <= k < |s.children| ensures Balanced(s.children[k], h - 1, d) && |s.children[k].items| >= d - 1 {
      if k < i { assert s.children[k] == t.children[k]; }
      else if k > i + 1 { assert s.children[k] == t.children[k - 1]; }
    }
  }

  lemma UpdateBalanced<T>(t: Tree<T>, i: nat, c: Tree<T>, h: nat, d: nat)
    requires d >= 2 && Balanced(t, h, d) && h > 0 && i < |t.children|
    requires Balanced(c, h - 1, d) && |c.items| >= d - 1
    ensures Balanced(Node(t.items, t.children[i := c]), h, d)
  {
  }

  lemma InsertBelowBalanced<T>(lt: Less<T>, t: Tree<T>, x: T, i: nat, d: nat, h: nat)
    requires d >= 2 && Balanced(t, h, d) && h > 0 && i < |t.children|
    requires var c := t.children[i]; var s := Insert(lt, c, x, d, h - 1);
      Balanced(s.tree, h - 1, d) && |s.tree.items| >= |c.items|
    ensures var s := InsertBelow(lt, t, x, i, d, h);
      Balanced(s.tree, h, d) && |s.tree.items| == |t.items|
  {
    hide Insert;
    UpdateBalanced(t, i, Insert(lt, t.children[i], x, d, h - 1).tree, h, d);
  }

  /** Inserting into a node that is not full keeps every bound. */
  lemma {:induction false} InsertBalanced<T>(lt: Less<T>, t: Tree<T>, x: T, d: nat, h: nat)
    requires d >= 2 && Balanced(t, h, d) && |t.items| < 2 * d - 1
    ensures var s := Insert(lt, t, x, d, h);
      Balanced(s.tree, h, d) && |s.tree.items| >= |t.items|
    decreases h
  {
    hide InsertBelow, Find, Balanced, SplitChild;
    var r := Find(lt, t.items, x);
    var i := r.index;
    NodeKind(t, h, d);
    if r.found {
      SetItemBalanced(t, i, x, h, d);
    } else if h == 0 {
      LeafInsertBalanced(t, i, x, d);
    } else if |t.children[i].items| < 2 * d - 1 {
      ChildBalanced(t, h, d, i);
      InsertBalanced(lt, t.children[i], x, d, h - 1);
      InsertBelowBalanced(lt, t, x, i, d, h);
    } else {
      ChildBalanced(t, h, d, i);
      InsertBalancedSplit(lt, t, x, i, d, h);
    }
  }

  lemma {:induction false} InsertBalancedSplit<T>(lt: Less<T>, t: Tree<T>, x: T, i: nat, d: nat, h: nat)
    requires d >= 2 && Balanced(t, h, d) && h > 0 && |t.items| < 2 * d - 1 && Inner(t)
    requires Find(lt, t.items, x) == Slot(i, false) && |t.children[i].items| == 2 * d - 1
    ensures var s := Insert(lt, t, x, d, h);
      Balanced(s.tree, h, d) && |s.tree.items| >= |t.items|
    decreases h, 0
  {
    hide InsertBelow, Find, Balanced, SplitChild;
    SplitChildBalanced(t, i, h, d);
    var s := SplitChild(t, i, d - 1);
    NodeKind(s, h, d);
    if Same(lt, x, s.items[i]) {
      SetItemBalanced(s, i, x, h, d);
    } else {
      var j := if lt(x, s.items[i]) then i else i + 1;
      ChildBalanced(s, h, d, j);
      InsertBalanced(lt, s.children[j], x, d, h - 1);
      InsertBelowBalanced(lt, s, x, j, d, h);
    }
  }

  lemma NodeKind<T>(t: Tree<T>, h: nat, d: nat)
    requires d >= 2 && Balanced(t, h, d)
    ensures if h == 0 then t.children == [] else Inner(t)
  {
  }

  lemma SetItemBalanced<T>(t: Tree<T>, i: nat, x: T, h: nat, d: nat)
    requires d >= 2 && Balanced(t, h, d) && i < |t.items|
    ensures Balanced(Node(t.items[i := x], t.children), h, d)
  {
  }

  lemma LeafInsertBalanced<T>(t: Tree<T>, i: nat, x: T, d: nat)
    requires d >= 2 && Balanced(t, 0, d) && i <= |t.items| < 2 * d - 1
    ensures Balanced(Node(t.items[..i] + [x] + t.items[i..], []), 0, d)
  {
  }

  /** A flat insert on child i, at x's slot, is a flat insert on the whole. */
  lemma InsertBelowRefines<T(!new)>(lt: Less<T>, t: Tree<T>, x: T, i: nat, c: Step<T>)
    requires StrictWeak(lt) && Sorted(lt, Flatten(t)) && Inner(t) && i <= |t.items|
    requires i > 0 ==> lt(t.items[i - 1], x)
    requires i < |t.items| ==> lt(x, t.items[i])
    requires FlatInsert(lt, Flatten(t.children[i]), x) == Change(Flatten(c.tree), c.out)
    ensures FlatInsert(lt, Flatten(t), x) == Change(Flatten(Node(t.items, t.children[i := c.tree])), c.out)
  {
    hide Flatten, Lo, Hi, Find;
    DescendFind(lt, t, x, i);
    FlattenUpdate(t, i, c.tree);
    FlatInsertMiddle(lt, Lo(t, i), Flatten(t.children[i]), Hi(t, i), x);
  }

  lemma FlatInsertMiddle<T>(lt: Less<T>, a: seq<T>, b: seq<T>, c: seq<T>, x: T)
    requires var p := Find(lt, b, x); Find(lt, a + b + c, x) == Slot(|a| + p.index, p.found)
    ensures FlatInsert(lt, a + b + c, x) == Change(a + FlatInsert(lt, b, x).items + c, FlatInsert(lt, b, x).out)
  {
    hide Find;
    var p, w := Find(lt, b, x), a + b + c;
    if p.found {
      assert w[|a| + p.index := x] == a + b[p.index := x] + c;
    } else {
      assert w[..|a| + p.index] + [x] + w[|a| + p.index..] == a + (b[..p.index] + [x] + b[p.index..]) + c;
    }
  }

  /** Replacing a node's own item is the flat replacement. */
  lemma ReplaceRefines<T(!new)>(lt: Less<T>, t: Tree<T>, x: T, i: nat)
    requires StrictWeak(lt) && Sorted(lt, Flatten(t))
    requires Inner(t) && i < |t.items| && Same(lt, t.items[i], x)
    ensures FlatInsert(lt, Flatten(t), x) == Change(Flatten(Node(t.items[i := x], t.children)), Some(t.items[i]))
  {
    hide Flatten, Lo, Hi, Find;
    FoundFind(lt, t, x, i);
    FlattenAtItem(t, i);
    var t' := Node(t.items[i := x], t.children);
    FlattenAtItem(t', i);
    LoCong(t, t', i);
    HiCong(t, i + 1, t', i + 1);
  }

  /** Insertion into the tree is insertion into the flat list, with the same replaced item. */
  lemma {:induction false} InsertRefines<T(!new)>(lt: Less<T>, t: Tree<T>, x: T, d: nat, h: nat)
    requires StrictWeak(lt) && Sorted(lt, Flatten(t))
    requires d >= 2 && Balanced(t, h, d) && |t.items| < 2 * d - 1
    ensures var s := Insert(lt, t, x, d, h);
      FlatInsert(lt, Flatten(t), x) == Change(Flatten(s.tree), s.out)
    decreases h
  {
    hide Find, Flatten, StrictWeak, Sorted;
    if h == 0 {
      LeafFlatten(t);
      LeafFlatten(Insert(lt, t, x, d, h).tree);
    } else {
      hide FlatInsert;
      NodeSlot(lt, t, x, h, d);
      var r := Find(lt, t.items, x);
      var i := r.index;
      if r.found {
        ReplaceRefines(lt, t, x, i);
      } else if |t.children[i].items| < 2 * d - 1 {
        InsertAtChild(lt, t, x, i, d, h);
      } else {
        InsertSplitRefines(lt, t, x, d, h, i);
      }
    }
  }

  lemma SplitSides<T>(lt: Less<T>, t: Tree<T>, x: T, i: nat, m: nat, j: nat)
    requires Inner(t) && i < |t.children| && m < |t.children[i].items| && LeafOrInner(t.children[i])
    requires IsSlot(lt, t.items, x, Slot(i, false))
    requires var s := SplitChild(t, i, m);
      (j == i && lt(x, s.items[i])) || (j == i + 1 && lt(s.items[i], x))
    ensures var s := SplitChild(t, i, m);
      Inner(s) && j <= |s.items| && (j > 0 ==> lt(s.items[j - 1], x)) && (j < |s.items| ==> lt(x, s.items[j]))
  {
  }

  lemma {:induction false} InsertAtChild<T(!new)>(lt: Less<T>, t: Tree<T>, x: T, i: nat, d: nat, h: nat)
    requires StrictWeak(lt) && Sorted(lt, Flatten(t)) && d >= 2 && Balanced(t, h, d) && h > 0
    requires Inner(t) && i <= |t.items| && Balanced(t.children[i], h - 1, d) && |t.children[i].items| < 2 * d - 1
    requires i > 0 ==> lt(t.items[i - 1], x)
    requires i < |t.items| ==> lt(x, t.items[i])
    ensures var c := Insert(lt, t.children[i], x, d, h - 1);
      FlatInsert(lt, Flatten(t), x) == Change(Flatten(Node(t.items, t.children[i := c.tree])), c.out)
    decreases h, 0
  {
    hide Find, Flatten, FlatInsert, StrictWeak, Sorted, Insert, InsertBelow, Balanced;
    DescendFind(lt, t, x, i);
    InsertRefines(lt, t.children[i], x, d, h - 1);
    InsertBelowRefines(lt, t, x, i, Insert(lt, t.children[i], x, d, h - 1));
  }

  lemma InsertSplitCase<T>(lt: Less<T>, t: Tree<T>, x: T, d: nat, h: nat, i: nat, j: nat)
    requires d >= 2 && Balanced(t, h, d) && |t.items| < 2 * d - 1 && h > 0
    requires Find(lt, t.items, x) == Slot(i, false) && |t.children[i].items| == 2 * d - 1 && LeafOrInner(t.children[i])
    requires var s := SplitChild(t, i, d - 1);
      Balanced(s, h, d) && j == if lt(x, s.items[i]) then i else i + 1
    ensures var s := SplitChild(t, i, d - 1);
      if Same(lt, s.items[i], x) then
        Insert(lt, t, x, d, h) == Step(Node(s.items[i := x], s.children), Some(s.items[i]))
      else
        var c := Insert(lt, s.children[j], x, d, h - 1);
        Insert(lt, t, x, d, h) == Step(Node(s.items, s.children[j := c.tree]), c.out)
  {
    hide SplitChild, Find;
  }

  lemma {:induction false} InsertSplitRefines<T(!new)>(lt: Less<T>, t: Tree<T>, x: T, d: nat, h: nat, i: nat)
    requires StrictWeak(lt) && Sorted(lt, Flatten(t))
    requires d >= 2 && Balanced(t, h, d) && |t.items| < 2 * d - 1 && h > 0 && Inner(t) && i <= |t.items|
    requires Find(lt, t.items, x) == Slot(i, false) && IsSlot(lt, t.items, x, Slot(i, false))
    requires |t.children[i].items| == 2 * d - 1
    ensures var s := Insert(lt, t, x, d, h);
      FlatInsert(lt, Flatten(t), x) == Change(Flatten(s.tree), s.out)
    decreases h, 1
  {
    hide Find, Flatten, FlatInsert, StrictWeak, Sorted, Insert, InsertBelow, Balanced, SplitChild, IsSlot;
    SplitChildBalanced(t, i, h, d);
    SplitChildFlatten(t, i, d - 1);
    var s := SplitChild(t, i, d - 1);
    var j := if lt(x, s.items[i]) then i else i + 1;
    InsertSplitCase(lt, t, x, d, h, i, j);
    if Same(lt, s.items[i], x) {
      ReplaceRefines(lt, s, x, i);
    } else {
      SplitSides(lt, t, x, i, d - 1, j);
      ChildBalanced(s, h, d, j);
      InsertAtChild(lt, s, x, j, d, h);
    }
  }
}
