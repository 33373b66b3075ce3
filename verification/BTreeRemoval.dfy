/** Deletion from the B-tree of util/btree: a child that could become too small is first grown,
    by stealing from a sibling or by merging with one, and the removal is then retried. */
module BTreeRemoval {
  import opened Orders
  import opened BTreeModel

  // ----- growChildAndRemove: the three ways to grow child i -----

  /** Move the last item of `l` up to the parent and the parent's item x down into `c`. */
  ghost function DonorLeft<T>(l: Tree<T>): Tree<T>
    requires |l.items| > 0 && LeafOrInner(l)
  {
    Node(l.items[..|l.items| - 1], if l.children == [] then [] else l.children[..|l.items|])
  }

  ghost function TakeLeft<T>(l: Tree<T>, x: T, c: Tree<T>): Tree<T>
    requires |l.items| > 0 && LeafOrInner(l)
  {
    Node([x] + c.items, if l.children == [] then c.children else [l.children[|l.items|]] + c.children)
  }

  ghost function StealLeft<T>(t: Tree<T>, i: nat): Tree<T>
    requires Inner(t) && 0 < i <= |t.items| && |t.children[i - 1].items| > 0 && LeafOrInner(t.children[i - 1])
  {
    var l, c := t.children[i - 1], t.children[i];
    Node(t.items[i - 1 := l.items[|l.items| - 1]],
         t.children[i - 1 := DonorLeft(l)][i := TakeLeft(l, t.items[i - 1], c)])
  }

  /** Move the first item of `r` up to the parent and the parent's item x down into `c`. */
  ghost function DonorRight<T>(r: Tree<T>): Tree<T>
    requires |r.items| > 0
  {
    Node(r.items[1..], if r.children == [] then [] else r.children[1..])
  }

  ghost function TakeRight<T>(c: Tree<T>, x: T, r: Tree<T>): Tree<T> {
    Node(c.items + [x], if r.children == [] then c.children else c.children + [r.children[0]])
  }

  ghost function StealRight<T>(t: Tree<T>, i: nat): Tree<T>
    requires Inner(t) && i < |t.items| && |t.children[i + 1].items| > 0
  {
    var c, r := t.children[i], t.children[i + 1];
    Node(t.items[i := r.items[0]],
         t.children[i := TakeRight(c, t.items[i], r)][i + 1 := DonorRight(r)])
  }

  ghost function Joined<T>(c: Tree<T>, x: T, m: Tree<T>): Tree<T> {
    Node(c.items + [x] + m.items, c.children + m.children)
  }

  ghost function Merge<T>(t: Tree<T>, i: nat): Tree<T>
    requires Inner(t) && i < |t.items|
  {
    Node(t.items[..i] + t.items[i + 1..],
         t.children[..i] + [Joined(t.children[i], t.items[i], t.children[i + 1])] + t.children[i + 2..])
  }

  /** The first half of node.growChildAndRemove; minItems is d-1. */
  ghost function Grow<T>(t: Tree<T>, i: nat, d: nat): Tree<T>
    requires d >= 2 && Inner(t) && 0 < |t.items| && i <= |t.items|
    requires forall k :: 0 <= k < |t.children| ==> LeafOrInner(t.children[k])
  {
    if i > 0 && |t.children[i - 1].items| > d - 1 then StealLeft(t, i)
    else if i < |t.items| && |t.children[i + 1].items| > d - 1 then StealRight(t, i)
    else Merge(t, if i >= |t.items| then i - 1 else i)
  }

  // ----- growing moves nothing in the flat sequence -----

  ghost predicate Alike<T>(a: Tree<T>, b: Tree<T>) {
    (a.children == [] && b.children == []) || (Inner(a) && Inner(b))
  }

  lemma RotateRightFlatten<T>(l: Tree<T>, x: T, c: Tree<T>)
    requires |l.items| > 0 && Alike(l, c)
    ensures Flatten(l) + [x] + Flatten(c)
         == Flatten(DonorLeft(l)) + [l.items[|l.items| - 1]] + Flatten(TakeLeft(l, x, c))
  {
    hide Flatten, Lo, Hi;
    var n := |l.items|;
    var l', c' := DonorLeft(l), TakeLeft(l, x, c);
    if l.children == [] {
      LeafFlatten(l); LeafFlatten(c); LeafFlatten(l'); LeafFlatten(c');
    } else {
      FlattenAtItem(l, n - 1);
      EmptySides(l);
      FlattenAt(l', n - 1);
      EmptySides(l');
      LoCong(l, l', n - 1);
      FlattenAt(c, 0);
      EmptySides(c);
      FlattenAt(c', 0);
      EmptySides(c');
      HiStep(c', 0);
      HiCong(c, 0, c', 1);
    }
  }

  lemma RotateLeftFlatten<T>(c: Tree<T>, x: T, r: Tree<T>)
    requires |r.items| > 0 && Alike(c, r)
    ensures Flatten(c) + [x] + Flatten(r)
         == Flatten(TakeRight(c, x, r)) + [r.items[0]] + Flatten(DonorRight(r))
  {
    hide Flatten, Lo, Hi;
    var n := |c.items|;
    var c', r' := TakeRight(c, x, r), DonorRight(r);
    if c.children == [] {
      LeafFlatten(r); LeafFlatten(c); LeafFlatten(r'); LeafFlatten(c');
    } else {
      FlattenAtItem(r, 0);
      EmptySides(r);
      FlattenAt(r', 0);
      EmptySides(r');
      HiCong(r, 1, r', 0);
      FlattenAt(c, n);
      EmptySides(c);
      FlattenAtItem(c', n);
      EmptySides(c');
      LoCong(c, c', n);
    }
  }

  lemma JoinFlatten<T>(c: Tree<T>, x: T, m: Tree<T>)
    requires Alike(c, m)
    ensures Flatten(Joined(c, x, m)) == Flatten(c) + [x] + Flatten(m)
  {
    hide Flatten, Lo, Hi;
    var n, j := |c.items|, Joined(c, x, m);
    if c.children == [] {
      LeafFlatten(c); LeafFlatten(m); LeafFlatten(j);
    } else {
      FlattenAtItem(j, n);
      FlattenAt(c, n);
      EmptySides(c);
      LoCong(c, j, n);
      FlattenAt(m, 0);
      EmptySides(m);
      HiCong(m, 0, j, n + 1);
    }
  }

  lemma StealLeftFlatten<T>(t: Tree<T>, i: nat)
    requires Inner(t) && 0 < i <= |t.items| && |t.children[i - 1].items| > 0 && Alike(t.children[i - 1], t.children[i])
    ensures Flatten(StealLeft(t, i)) == Flatten(t)
  {
    hide Flatten, Lo, Hi, DonorLeft, TakeLeft;
    var t' := StealLeft(t, i);
    RotateRightFlatten(t.children[i - 1], t.items[i - 1], t.children[i]);
    FlattenAtItem(t, i - 1);
    FlattenAtItem(t', i - 1);
    LoCong(t, t', i - 1);
    HiCong(t, i, t', i);
    assert Flatten(t) == Lo(t, i - 1) + (Flatten(t.children[i - 1]) + [t.items[i - 1]] + Flatten(t.children[i]))
      + Hi(t, i);
    assert Flatten(t') == Lo(t, i - 1) + (Flatten(t'.children[i - 1]) + [t'.items[i - 1]] + Flatten(t'.children[i]))
      + Hi(t, i);
  }

  lemma StealRightFlatten<T>(t: Tree<T>, i: nat)
    requires Inner(t) && i < |t.items| && |t.children[i + 1].items| > 0 && Alike(t.children[i], t.children[i + 1])
    ensures Flatten(StealRight(t, i)) == Flatten(t)
  {
    hide Flatten, Lo, Hi, DonorRight, TakeRight;
    var t' := StealRight(t, i);
    RotateLeftFlatten(t.children[i], t.items[i], t.children[i + 1]);
    FlattenAtItem(t, i);
    FlattenAtItem(t', i);
    LoCong(t, t', i);
    HiCong(t, i + 1, t', i + 1);
    assert Flatten(t) == Lo(t, i) + (Flatten(t.children[i]) + [t.items[i]] + Flatten(t.children[i + 1])) + Hi(t, i + 1);
    assert Flatten(t') == Lo(t, i) + (Flatten(t'.children[i]) + [t'.items[i]] + Flatten(t'.children[i + 1]))
      + Hi(t, i + 1);
  }

  lemma MergeFlatten<T>(t: Tree<T>, i: nat)
    requires Inner(t) && i < |t.items| && Alike(t.children[i], t.children[i + 1])
    ensures Flatten(Merge(t, i)) == Flatten(t)
  {
    hide Flatten, Lo, Hi, Joined;
    var t' := Merge(t, i);
    JoinFlatten(t.children[i], t.items[i], t.children[i + 1]);
    FlattenAtItem(t, i);
    FlattenAt(t', i);
    LoCong(t, t', i);
    HiCong(t, i + 1, t', i);
  }

  lemma ChildrenAlike<T>(t: Tree<T>, h: nat, d: nat)
    requires d >= 2 && Balanced(t, h, d) && h > 0
    ensures Inner(t) && forall k :: 0 <= k < |t.children| ==> LeafOrInner(t.children[k])
    ensures forall k, l :: 0 <= k < |t.children| && 0 <= l < |t.children| ==> Alike(t.children[k], t.children[l])
  {
    forall k | 0 <= k < |t.children| ensures if h == 1 then t.children[k].children == [] else Inner(t.children[k]) {
      assert Balanced(t.children[k], h - 1, d);
    }
  }

  /** Growing a child keeps the flat sequence. */
  lemma GrowFlatten<T>(t: Tree<T>, i: nat, d: nat, h: nat)
    requires d >= 2 && Balanced(t, h, d) && h > 0 && 0 < |t.items| && i <= |t.items|
    ensures Inner(t) && forall k :: 0 <= k < |t.children| ==> LeafOrInner(t.children[k])
    ensures Flatten(Grow(t, i, d)) == Flatten(t)
  {
    hide Flatten, Balanced, StealLeft, StealRight, Merge;
    ChildrenAlike(t, h, d);
    if i > 0 && |t.children[i - 1].items| > d - 1 {
      StealLeftFlatten(t, i);
    } else if i < |t.items| && |t.children[i + 1].items| > d - 1 {
      StealRightFlatten(t, i);
    } else {
      MergeFlatten(t, if i >= |t.items| then i - 1 else i);
    }
  }

  // ----- growing keeps the bounds and makes room -----

  lemma StealLeftBalanced<T>(t: Tree<T>, i: nat, d: nat, h: nat)
    requires d >= 2 && Balanced(t, h, d) && h > 0 && 0 < i <= |t.items|
    requires |t.children[i].items| <= d - 1 < |t.children[i - 1].items| && LeafOrInner(t.children[i - 1])
    ensures Balanced(StealLeft(t, i), h, d) && |StealLeft(t, i).children[i].items| > d - 1
  {
    ChildBalanced(t, h, d, i - 1);
    ChildBalanced(t, h, d, i);
    var l, c := t.children[i - 1], t.children[i];
    var l', c' := DonorLeft(l), TakeLeft(l, t.items[i - 1], c);
    assert Balanced(l', h - 1, d);
    assert Balanced(c', h - 1, d) by {
      forall k | 0 <= k < |c'.children| ensures Balanced(c'.children[k], h - 2, d) && |c'.children[k].items| >= d - 1 {
        if k > 0 { assert c'.children[k] == c.children[k - 1]; }
      }
    }
  }

  lemma StealRightBalanced<T>(t: Tree<T>, i: nat, d: nat, h: nat)
    requires d >= 2 && Balanced(t, h, d) && h > 0 && i < |t.items|
    requires |t.children[i].items| <= d - 1 < |t.children[i + 1].items|
    ensures Balanced(StealRight(t, i), h, d) && |StealRight(t, i).children[i].items| > d - 1
  {
    ChildBalanced(t, h, d, i + 1);
    ChildBalanced(t, h, d, i);
    var c, r := t.children[i], t.children[i + 1];
    var c', r' := TakeRight(c, t.items[i], r), DonorRight(r);
    assert Balanced(r', h - 1, d);
    assert Balanced(c', h - 1, d);
  }

  lemma MergeBalanced<T>(t: Tree<T>, i: nat, d: nat, h: nat)
    requires d >= 2 && Balanced(t, h, d) && h > 0 && i < |t.items|
    requires |t.children[i].items| <= d - 1 && |t.children[i + 1].items| <= d - 1
    ensures Balanced(Merge(t, i), h, d) && |Merge(t, i).children[i].items| > d - 1
    ensures |Merge(t, i).items| == |t.items| - 1
  {
    ChildBalanced(t, h, d, i + 1);
    ChildBalanced(t, h, d, i);
    var c, m, t' := t.children[i], t.children[i + 1], Merge(t, i);
    var j := Joined(c, t.items[i], m);
    assert Balanced(j, h - 1, d) by {
      forall k | 0 <= k < |j.children| ensures Balanced(j.children[k], h - 2, d) && |j.children[k].items| >= d - 1 {
        if k < |c.children| { assert j.children[k] == c.children[k]; }
        else { assert j.children[k] == m.children[k - |c.children|]; }
      }
    }
    forall k | 0 <= k < |t'.children| ensures Balanced(t'.children[k], h - 1, d) && |t'.children[k].items| >= d - 1 {
      if k < i { assert t'.children[k] == t.children[k]; }
      else if k > i { assert t'.children[k] == t.children[k + 1]; }
    }
  }

  /** Which child the removal goes into. */
  ghost function Target<T>(lt: Less<T>, t: Tree<T>, typ: Removal<T>): (i: nat)
    ensures i <= |t.items|
  {
    match typ
    case RemoveItem(x) => Find(lt, t.items, x).index
    case RemoveMin => 0
    case RemoveMax => |t.items|
  }

  /** An inner node can lose an item below it if it has an item to merge with, or already a
      child with room; a leaf can lose its minimum or maximum only if it has one. */
  ghost predicate Removable<T>(t: Tree<T>, typ: Removal<T>, d: nat)
    requires d >= 2
  {
    if t.children == [] then typ.RemoveItem? || |t.items| > 0
    else |t.items| > 0 || |t.children[0].items| > d - 1
  }

  lemma GrowBalanced<T>(t: Tree<T>, i: nat, d: nat, h: nat)
    requires d >= 2 && Balanced(t, h, d) && h > 0 && 0 < |t.items| && i <= |t.items|
    requires |t.children[i].items| <= d - 1
    requires forall k :: 0 <= k < |t.children| ==> LeafOrInner(t.children[k])
    ensures var g := Grow(t, i, d); var j := if i > |g.items| then i - 1 else i;
      Balanced(g, h, d) && |g.items| >= |t.items| - 1 && |g.children[j].items| > d - 1
    ensures Removable(Grow(t, i, d), RemoveMin, d)
  {
    hide StealLeft, StealRight, Merge;
    if i > 0 && |t.children[i - 1].items| > d - 1 {
      StealLeftBalanced(t, i, d, h);
      assert |StealLeft(t, i).items| == |t.items| by { StealSizes(t, i); }
    } else if i < |t.items| && |t.children[i + 1].items| > d - 1 {
      StealRightBalanced(t, i, d, h);
      assert |StealRight(t, i).items| == |t.items| by { StealSizesRight(t, i); }
    } else {
      MergeBalanced(t, if i >= |t.items| then i - 1 else i, d, h);
    }
  }

  lemma StealSizes<T>(t: Tree<T>, i: nat)
    requires Inner(t) && 0 < i <= |t.items| && |t.children[i - 1].items| > 0 && LeafOrInner(t.children[i - 1])
    ensures |StealLeft(t, i).items| == |t.items|
  {
  }

  lemma StealSizesRight<T>(t: Tree<T>, i: nat)
    requires Inner(t) && i < |t.items| && |t.children[i + 1].items| > 0
    ensures |StealRight(t, i).items| == |t.items|
  {
  }

  /** Growing the target child leaves the target where it was, except that the last child merges
      into the one before it. So the retried removal finds a child with room. */
  lemma GrowTarget<T(!new)>(lt: Less<T>, t: Tree<T>, typ: Removal<T>, d: nat, h: nat)
    requires StrictWeak(lt) && Sorted(lt, Flatten(t))
    requires d >= 2 && Balanced(t, h, d) && h > 0 && 0 < |t.items|
    requires |t.children[Target(lt, t, typ)].items| <= d - 1
    ensures Inner(t) && forall k :: 0 <= k < |t.children| ==> LeafOrInner(t.children[k])
    ensures var i := Target(lt, t, typ); var g := Grow(t, i, d);
      && Flatten(g) == Flatten(t) && Balanced(g, h, d) && |g.items| >= |t.items| - 1 && Removable(g, typ, d)
      && Target(lt, g, typ) == (if i > |g.items| then i - 1 else i)
      && |g.children[Target(lt, g, typ)].items| > d - 1
  {
    hide Flatten, Balanced, Grow, Find, StrictWeak, Sorted;
    var i := Target(lt, t, typ);
    ChildrenAlike(t, h, d);
    GrowFlatten(t, i, d, h);
    GrowBalanced(t, i, d, h);
    var g := Grow(t, i, d);
    ChildrenAlike(g, h, d);
    match typ {
      case RemoveItem(x) => GrowSlot(lt, t, x, d, h);
      case RemoveMin =>
      case RemoveMax => GrowSize(t, i, d);
    }
  }

  lemma GrowSize<T>(t: Tree<T>, i: nat, d: nat)
    requires d >= 2 && Inner(t) && 0 < |t.items| && i <= |t.items|
    requires forall k :: 0 <= k < |t.children| ==> LeafOrInner(t.children[k])
    ensures |t.items| - 1 <= |Grow(t, i, d).items| <= |t.items|
  {
  }

  lemma GrowSlot<T(!new)>(lt: Less<T>, t: Tree<T>, x: T, d: nat, h: nat)
    requires StrictWeak(lt) && Sorted(lt, Flatten(t))
    requires d >= 2 && Balanced(t, h, d) && h > 0 && 0 < |t.items| && Inner(t)
    requires forall k :: 0 <= k < |t.children| ==> LeafOrInner(t.children[k])
    requires |t.children[Find(lt, t.items, x).index].items| <= d - 1
    ensures var i := Find(lt, t.items, x).index; var g := Grow(t, i, d);
      Find(lt, g.items, x).index == if i > |g.items| then i - 1 else i
  {
    hide Flatten, Balanced, Find, StrictWeak, Sorted, StealLeft, StealRight, Merge;
    var r := Find(lt, t.items, x);
    var i := r.index;
    NodeSlot(lt, t, x, h, d);
    GrowFlatten(t, i, d, h);
    GrowBalanced(t, i, d, h);
    var g := Grow(t, i, d);
    NodeSlot(lt, g, x, h, d);
    if i > 0 && |t.children[i - 1].items| > d - 1 {
      StealSizes(t, i);
      StolenLeftSlot(lt, t, x, r);
    } else if i < |t.items| && |t.children[i + 1].items| > d - 1 {
      ChildrenAlike(t, h, d);
      StealSizesRight(t, i);
      StolenRightSlot(lt, t, x, r);
    } else {
      MergeBalanced(t, if i >= |t.items| then i - 1 else i, d, h);
      MergedSlot(lt, t, x, r, if i >= |t.items| then i - 1 else i);
    }
  }

  lemma StolenLeftSlot<T(!new)>(lt: Less<T>, t: Tree<T>, x: T, r: Slot)
    requires StrictWeak(lt) && Sorted(lt, Flatten(t)) && Inner(t) && IsSlot(lt, t.items, x, r) && r.index > 0
    requires |t.children[r.index - 1].items| > 0 && LeafOrInner(t.children[r.index - 1])
    requires Sorted(lt, StealLeft(t, r.index).items)
    ensures Find(lt, StealLeft(t, r.index).items, x) == r
  {
    hide Flatten, Find, Sorted;
    var i := r.index;
    var l := t.children[i - 1];
    var y := l.items[|l.items| - 1];
    MemberBelow(lt, t, i - 1, l.items, |l.items| - 1);
    FindIsSlot(lt, StealLeft(t, i).items, x);
    SlotUnique(lt, StealLeft(t, i).items, x, r, Find(lt, StealLeft(t, i).items, x));
  }

  lemma StolenRightSlot<T(!new)>(lt: Less<T>, t: Tree<T>, x: T, r: Slot)
    requires StrictWeak(lt) && Sorted(lt, Flatten(t)) && Inner(t) && IsSlot(lt, t.items, x, r) && r.index < |t.items|
    requires |t.children[r.index + 1].items| > 0 && LeafOrInner(t.children[r.index + 1])
    requires Sorted(lt, StealRight(t, r.index).items)
    ensures Find(lt, StealRight(t, r.index).items, x) == Slot(r.index, false)
  {
    hide Flatten, Find, StrictWeak, Sorted, IsSlot;
    var i := r.index;
    var c := t.children[i + 1];
    MemberAbove(lt, t, i, c.items, 0);
    RaisedSlot(lt, t.items, x, r, c.items[0]);
  }

  /** Raising the item at x's slot leaves x before it. */
  lemma RaisedSlot<T(!new)>(lt: Less<T>, its: seq<T>, x: T, r: Slot, y: T)
    requires StrictWeak(lt) && IsSlot(lt, its, x, r) && r.index < |its| && lt(its[r.index], y) &&
      Sorted(lt, its[r.index := y])
    ensures Find(lt, its[r.index := y], x) == Slot(r.index, false)
  {
    hide Find;
    var i, s := r.index, its[r.index := y];
    assert lt(x, y) by { assert lt(its[i], x) || lt(x, y); }
    forall k | i <= k < |s| ensures lt(x, s[k]) { if i < k { assert lt(s[i], s[k]); } }
    forall k | 0 <= k < i ensures lt(s[k], x) { assert lt(its[k], x); }
    FindIsSlot(lt, s, x);
    SlotUnique(lt, s, x, Slot(i, false), Find(lt, s, x));
  }

  lemma MergedSlot<T(!new)>(lt: Less<T>, t: Tree<T>, x: T, r: Slot, i: nat)
    requires StrictWeak(lt) && Inner(t) && IsSlot(lt, t.items, x, r) && i < |t.items|
    requires Sorted(lt, t.items) && Sorted(lt, Merge(t, i).items)
    requires i == if r.index >= |t.items| then r.index - 1 else r.index
    ensures Find(lt, Merge(t, i).items, x).index == i
  {
    hide Find;
    var s := Merge(t, i).items;
    assert forall k :: i < k < |t.items| ==> lt(t.items[i], t.items[k]);
    FindIsSlot(lt, s, x);
    SlotUnique(lt, s, x, Slot(i, false), Find(lt, s, x));
  }

  /** Items directly in child i lie below item i, those in child i+1 above it. */
  lemma MemberBelow<T(!new)>(lt: Less<T>, t: Tree<T>, i: nat, its: seq<T>, k: nat)
    requires StrictWeak(lt) && Sorted(lt, Flatten(t)) && Inner(t) && i < |t.items|
    requires its == t.children[i].items && k < |its| && LeafOrInner(t.children[i])
    ensures lt(its[k], t.items[i])
  {
    hide Flatten, Lo, Hi, StrictWeak;
    FlattenAtItem(t, i);
    var p := ItemAt(t.children[i], k);
    var s := Flatten(t);
    assert s[|Lo(t, i)| + p] == its[k];
    assert s[|Lo(t, i)| + |Flatten(t.children[i])|] == t.items[i];
  }

  lemma MemberAbove<T(!new)>(lt: Less<T>, t: Tree<T>, i: nat, its: seq<T>, k: nat)
    requires StrictWeak(lt) && Sorted(lt, Flatten(t)) && Inner(t) && i < |t.items|
    requires its == t.children[i + 1].items && k < |its| && LeafOrInner(t.children[i + 1])
    ensures lt(t.items[i], its[k])
  {
    hide Flatten, Lo, Hi, StrictWeak;
    FlattenAtItem(t, i);
    var p := ItemAt(t.children[i + 1], k);
    var s, q := Flatten(t), |Lo(t, i)| + |Flatten(t.children[i])|;
    assert s[q] == t.items[i];
    assert s[q + 1 + p] == its[k];
  }

  lemma ItemAt<T>(t: Tree<T>, k: nat) returns (p: nat)
    requires LeafOrInner(t) && k < |t.items|
    ensures p < |Flatten(t)| && Flatten(t)[p] == t.items[k]
  {
    hide Flatten, Lo, Hi;
    if t.children == [] {
      LeafFlatten(t);
      p := k;
    } else {
      FlattenAtItem(t, k);
      p := |Lo(t, k)| + |Flatten(t.children[k])|;
    }
  }

  // ----- removal -----

  /** 1 when the target child must be grown first. */
  ghost function Tight<T>(lt: Less<T>, t: Tree<T>, typ: Removal<T>, d: nat): nat
    requires d >= 2
  {
    if Inner(t) && |t.children[Target(lt, t, typ)].items| <= d - 1 then 1 else 0
  }

  /** node.remove. Termination: growing does not change the height but leaves the retried call
      with a target child that has room; descending lowers the height. */
  ghost function Remove<T(!new)>(lt: Less<T>, t: Tree<T>, typ: Removal<T>, d: nat, h: nat): (s: Step<T>)
    requires StrictWeak(lt) && Sorted(lt, Flatten(t))
    requires d >= 2 && Balanced(t, h, d) && Removable(t, typ, d)
    ensures !typ.RemoveItem? ==> s.out.Some?
    decreases h, 1 + Tight(lt, t, typ, d)
  {
    hide Flatten, Find, StrictWeak, Sorted, Balanced, Grow;
    NodeKind(t, h, d);
    if h == 0 then
      var c := FlatRemove(lt, t.items, typ);
      Step(Node(c.items, []), c.out)
    else if |t.children[Target(lt, t, typ)].items| <= d - 1 then
      GrowTarget(lt, t, typ, d, h);
      Remove(lt, Grow(t, Target(lt, t, typ), d), typ, d, h)
    else
      ChildReady(lt, t, Target(lt, t, typ), d, h);
      RemoveBelow(lt, t, typ, d, h)
  }

  /** The second half of node.remove, on a private copy of the target child, which has room. An
      item found in the node itself is replaced by its predecessor, the child's maximum. */
  ghost function RemoveBelow<T(!new)>(lt: Less<T>, t: Tree<T>, typ: Removal<T>, d: nat, h: nat): (s: Step<T>)
    requires StrictWeak(lt) && d >= 2 && h > 0 && Inner(t)
    requires var c := t.children[Target(lt, t, typ)];
      Sorted(lt, Flatten(c)) && Balanced(c, h - 1, d) && Removable(c, RemoveMax, d)
    ensures !typ.RemoveItem? ==> s.out.Some?
    decreases h, 0
  {
    hide Flatten, Find, StrictWeak, Sorted, Balanced;
    var i := Target(lt, t, typ);
    if Hit(lt, t, typ) then
      var s := Remove(lt, t.children[i], RemoveMax, d, h - 1);
      Step(Node(t.items[i := s.out.value], t.children[i := s.tree]), Some(t.items[i]))
    else
      var s := Remove(lt, t.children[i], typ, d, h - 1);
      Step(Node(t.items, t.children[i := s.tree]), s.out)
  }

  /** The item to remove is in the node itself. */
  ghost predicate Hit<T>(lt: Less<T>, t: Tree<T>, typ: Removal<T>) {
    typ.RemoveItem? && Find(lt, t.items, typ.item).found
  }

  lemma ChildReady<T(!new)>(lt: Less<T>, t: Tree<T>, i: nat, d: nat, h: nat)
    requires StrictWeak(lt) && Sorted(lt, Flatten(t)) && d >= 2 && Balanced(t, h, d) && h > 0 && i <= |t.items|
    requires |t.children[i].items| > d - 1
    ensures Inner(t) && Balanced(t.children[i], h - 1, d) && Sorted(lt, Flatten(t.children[i]))
    ensures Removable(t.children[i], RemoveMax, d)
  {
    hide Flatten, StrictWeak, Sorted;
    SlotInNode(lt, t, if |t.items| > 0 then t.items[0] else t.children[i].items[0], i);
  }

  /** Removal keeps every bound; a node loses an item of its own only by merging two children. */
  lemma {:induction false} RemoveBalanced<T(!new)>(lt: Less<T>, t: Tree<T>, typ: Removal<T>, d: nat, h: nat)
    requires StrictWeak(lt) && Sorted(lt, Flatten(t))
    requires d >= 2 && Balanced(t, h, d) && Removable(t, typ, d)
    ensures var s := Remove(lt, t, typ, d, h);
      && Balanced(s.tree, h, d) && |s.tree.items| >= |t.items| - 1
      && (h > 0 && Tight(lt, t, typ, d) == 0 ==> |s.tree.items| == |t.items|)
    decreases h, Tight(lt, t, typ, d)
  {
    hide Flatten, Find, StrictWeak, Sorted, Balanced, Grow, RemoveBelow;
    NodeKind(t, h, d);
    if h == 0 {
      LeafRemoveBalanced(lt, t, typ, d);
    } else if |t.children[Target(lt, t, typ)].items| <= d - 1 {
      GrowTarget(lt, t, typ, d, h);
      NodeKind(Grow(t, Target(lt, t, typ), d), h, d);
      RemoveBalanced(lt, Grow(t, Target(lt, t, typ), d), typ, d, h);
    } else {
      var i := Target(lt, t, typ);
      ChildReady(lt, t, i, d, h);
      var typ' := if Hit(lt, t, typ) then RemoveMax else typ;
      RemoveBalanced(lt, t.children[i], typ', d, h - 1);
      RemoveBelowBalanced(lt, t, typ, d, h, t.children[i], Remove(lt, t.children[i], typ', d, h - 1));
    }
  }

  lemma LeafRemoveBalanced<T>(lt: Less<T>, t: Tree<T>, typ: Removal<T>, d: nat)
    requires d >= 2 && Balanced(t, 0, d)
    ensures var c := FlatRemove(lt, t.items, typ);
      Balanced(Node(c.items, []), 0, d) && |c.items| >= |t.items| - 1
  {
    hide Find;
  }

  lemma RemoveBelowBalanced<T(!new)>(lt: Less<T>, t: Tree<T>, typ: Removal<T>, d: nat, h: nat, c: Tree<T>, s: Step<T>)
    requires StrictWeak(lt) && d >= 2 && Balanced(t, h, d) && h > 0 && Inner(t) && c == t.children[Target(lt, t, typ)]
    requires Sorted(lt, Flatten(c)) && Balanced(c, h - 1, d) && Removable(c, RemoveMax, d) && |c.items| > d - 1
    requires s == Remove(lt, c, if Hit(lt, t, typ) then RemoveMax else typ, d, h - 1)
    requires Balanced(s.tree, h - 1, d) && |s.tree.items| >= |c.items| - 1
    ensures Balanced(RemoveBelow(lt, t, typ, d, h).tree, h, d) &&
      |RemoveBelow(lt, t, typ, d, h).tree.items| == |t.items|
  {
    hide Flatten, Find, StrictWeak, Sorted, Remove, Balanced, Target;
    var i := Target(lt, t, typ);
    UpdateBalanced(t, i, s.tree, h, d);
    if Hit(lt, t, typ) {
      HitIndex(lt, t, typ); SetItemBalanced(Node(t.items, t.children[i := s.tree]), i, s.out.value, h, d);
    }
  }

  lemma HitIndex<T>(lt: Less<T>, t: Tree<T>, typ: Removal<T>)
    requires Hit(lt, t, typ)
    ensures Target(lt, t, typ) < |t.items|
  {
  }

  /** Removal from the tree is removal from the flat list, with the same removed item. */
  lemma {:induction false} RemoveRefines<T(!new)>(lt: Less<T>, t: Tree<T>, typ: Removal<T>, d: nat, h: nat)
    requires StrictWeak(lt) && Sorted(lt, Flatten(t))
    requires d >= 2 && Balanced(t, h, d) && Removable(t, typ, d)
    ensures var s := Remove(lt, t, typ, d, h);
      FlatRemove(lt, Flatten(t), typ) == Change(Flatten(s.tree), s.out)
    decreases h, 1 + Tight(lt, t, typ, d)
  {
    hide Flatten, Find, StrictWeak, Sorted, Balanced, Grow, RemoveBelow, FlatRemove;
    NodeKind(t, h, d);
    if h == 0 {
      LeafFlatten(t);
      LeafFlatten(Node(FlatRemove(lt, t.items, typ).items, []));
    } else if |t.children[Target(lt, t, typ)].items| <= d - 1 {
      GrowTarget(lt, t, typ, d, h);
      NodeKind(Grow(t, Target(lt, t, typ), d), h, d);
      RemoveRefines(lt, Grow(t, Target(lt, t, typ), d), typ, d, h);
    } else {
      ChildReady(lt, t, Target(lt, t, typ), d, h);
      NodeSlotOf(lt, t, typ, d, h);
      RemoveBelowRefines(lt, t, typ, d, h);
    }
  }

  lemma NodeSlotOf<T(!new)>(lt: Less<T>, t: Tree<T>, typ: Removal<T>, d: nat, h: nat)
    requires StrictWeak(lt) && Sorted(lt, Flatten(t)) && d >= 2 && Balanced(t, h, d)
    ensures typ.RemoveItem? ==> IsSlot(lt, t.items, typ.item, Find(lt, t.items, typ.item))
  {
    hide Flatten, Find, Balanced, StrictWeak, Sorted, IsSlot;
    if typ.RemoveItem? { NodeSlot(lt, t, typ.item, h, d); }
  }

  lemma {:induction false} RemoveBelowRefines<T(!new)>(lt: Less<T>, t: Tree<T>, typ: Removal<T>, d: nat, h: nat)
    requires StrictWeak(lt) && Sorted(lt, Flatten(t)) && d >= 2 && h > 0 && Inner(t)
    requires typ.RemoveItem? ==> IsSlot(lt, t.items, typ.item, Find(lt, t.items, typ.item))
    requires var c := t.children[Target(lt, t, typ)];
      Sorted(lt, Flatten(c)) && Balanced(c, h - 1, d) && Removable(c, RemoveMax, d)
    ensures var s := RemoveBelow(lt, t, typ, d, h);
      FlatRemove(lt, Flatten(t), typ) == Change(Flatten(s.tree), s.out)
    decreases h, 0
  {
    hide Flatten, Find, StrictWeak, Sorted, Balanced, Remove, FlatRemove;
    var i := Target(lt, t, typ);
    if Hit(lt, t, typ) {
      RemoveRefines(lt, t.children[i], RemoveMax, d, h - 1);
      HitRefines(lt, t, typ.item, i, Remove(lt, t.children[i], RemoveMax, d, h - 1));
    } else {
      RemoveRefines(lt, t.children[i], typ, d, h - 1);
      MissRefines(lt, t, typ, Remove(lt, t.children[i], typ, d, h - 1));
    }
  }

  lemma HitRefines<T(!new)>(lt: Less<T>, t: Tree<T>, x: T, i: nat, s: Step<T>)
    requires StrictWeak(lt) && Sorted(lt, Flatten(t)) && Inner(t) && i < |t.items| && Same(lt, t.items[i], x)
    requires FlatRemove(lt, Flatten(t.children[i]), RemoveMax) == Change(Flatten(s.tree), s.out) && s.out.Some?
    ensures FlatRemove(lt, Flatten(t), RemoveItem(x))
         == Change(Flatten(Node(t.items[i := s.out.value], t.children[i := s.tree])), Some(t.items[i]))
  {
    hide Flatten, Find, StrictWeak, Sorted, Lo, Hi;
    FoundFind(lt, t, x, i);
    FlattenAtItem(t, i);
    var t' := Node(t.items[i := s.out.value], t.children[i := s.tree]);
    FlattenAtItem(t', i);
    LoCong(t, t', i);
    HiCong(t, i + 1, t', i + 1);
  }

  lemma MissRefines<T(!new)>(lt: Less<T>, t: Tree<T>, typ: Removal<T>, s: Step<T>)
    requires StrictWeak(lt) && Sorted(lt, Flatten(t)) && Inner(t) && !Hit(lt, t, typ)
    requires typ.RemoveItem? ==> IsSlot(lt, t.items, typ.item, Find(lt, t.items, typ.item))
    requires FlatRemove(lt, Flatten(t.children[Target(lt, t, typ)]), typ) == Change(Flatten(s.tree), s.out)
    requires !typ.RemoveItem? ==> s.out.Some?
    ensures FlatRemove(lt, Flatten(t), typ)
         == Change(Flatten(Node(t.items, t.children[Target(lt, t, typ) := s.tree])), s.out)
  {
    hide Flatten, Find, StrictWeak, Sorted, Lo, Hi;
    var i := Target(lt, t, typ);
    FlattenAt(t, i);
    FlattenUpdate(t, i, s.tree);
    EmptySides(t);
    if typ.RemoveItem? { DescendFind(lt, t, typ.item, i); }
    FlatRemoveMiddle(lt, Lo(t, i), Flatten(t.children[i]), Hi(t, i), typ);
  }

  lemma FlatRemoveMiddle<T>(lt: Less<T>, a: seq<T>, b: seq<T>, c: seq<T>, typ: Removal<T>)
    requires typ.RemoveItem? ==>
      var p := Find(lt, b, typ.item); Find(lt, a + b + c, typ.item) == Slot(|a| + p.index, p.found)
    requires typ.RemoveMin? ==> a == [] && b != []
    requires typ.RemoveMax? ==> c == [] && b != []
    ensures FlatRemove(lt, a + b + c, typ) == Change(a + FlatRemove(lt, b, typ).items + c, FlatRemove(lt, b, typ).out)
  {
    hide Find, FlatRemove;
    var w := a + b + c;
    match typ {
      case RemoveItem(x) => RemoveItemMiddle(lt, a, b, c, x);
      case RemoveMin => assert w[1..] == a + b[1..] + c; ShortRemove(lt, w); ShortRemove(lt, b);
      case RemoveMax => assert w[..|w| - 1] == a + b[..|b| - 1] + c; ShortRemove(lt, w); ShortRemove(lt, b);
    }
  }

  lemma ShortRemove<T>(lt: Less<T>, s: seq<T>)
    requires s != []
    ensures FlatRemove(lt, s, RemoveMin) == Change(s[1..], Some(s[0]))
    ensures FlatRemove(lt, s, RemoveMax) == Change(s[..|s| - 1], Some(s[|s| - 1]))
  {
  }

  lemma RemoveItemMiddle<T>(lt: Less<T>, a: seq<T>, b: seq<T>, c: seq<T>, x: T)
    requires var p := Find(lt, b, x); Find(lt, a + b + c, x) == Slot(|a| + p.index, p.found)
    ensures FlatRemove(lt, a + b + c, RemoveItem(x)) ==
      Change(a + FlatRemove(lt, b, RemoveItem(x)).items + c, FlatRemove(lt, b, RemoveItem(x)).out)
  {
    hide Find;
    var p, w := Find(lt, b, x), a + b + c;
    if p.found {
      assert w[..|a| + p.index] == a + b[..p.index];
      assert w[|a| + p.index + 1..] == b[p.index + 1..] + c;
      assert w[|a| + p.index] == b[p.index];
      assert (a + b[..p.index]) + (b[p.index + 1..] + c) == a + (b[..p.index] + b[p.index + 1..]) + c;
    }
  }
}
