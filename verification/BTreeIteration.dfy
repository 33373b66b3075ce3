/** node.iterate of util/btree, ascending and descending. The callback may keep state, so it is
    modelled as a decision taken on everything delivered so far: `go(seen)` is its answer after
    the last item of `seen`. */
module BTreeIteration {
  import opened Orders
  import opened BTreeModel

  datatype Query<!T> = Query(lt: Less<T>, start: Option<T>, stop: Option<T>, includeStart: bool, go: seq<T> -> bool)

  /** hit and ok are the two results of iterate; seen is what the callback has received. */
  datatype Scan<T> = Scan(hit: bool, ok: bool, seen: seq<T>)

  // ----- the loop body of iterate, on a flat sequence -----

  ghost function AscendFlat<T>(q: Query<T>, s: seq<T>, hit: bool, seen: seq<T>): Scan<T>
    decreases |s|
  {
    if s == [] then Scan(hit, true, seen)
    else if q.start.Some? && q.lt(s[0], q.start.value) then AscendFlat(q, s[1..], hit, seen)
    else if !q.includeStart && !hit && q.start.Some? &&
      !q.lt(q.start.value, s[0]) then AscendFlat(q, s[1..], true, seen)
    else if q.stop.Some? && !q.lt(s[0], q.stop.value) then Scan(true, false, seen)
    else if !q.go(seen + [s[0]]) then Scan(true, false, seen + [s[0]])
    else AscendFlat(q, s[1..], true, seen + [s[0]])
  }

  ghost function DescendFlat<T>(q: Query<T>, s: seq<T>, hit: bool, seen: seq<T>): Scan<T>
    decreases |s|
  {
    if s == [] then Scan(hit, true, seen) else
      var n := |s| - 1;
      if q.start.Some? && !q.lt(s[n], q.start.value) && (!q.includeStart || hit || q.lt(q.start.value, s[n])) then
        DescendFlat(q, s[..n], hit, seen)
      else if q.stop.Some? && !q.lt(q.stop.value, s[n]) then Scan(hit, false, seen)
      else if !q.go(seen + [s[n]]) then Scan(true, false, seen + [s[n]])
      else DescendFlat(q, s[..n], true, seen + [s[n]])
  }

  lemma {:induction false} AscendConcat<T>(q: Query<T>, a: seq<T>, b: seq<T>, hit: bool, seen: seq<T>)
    ensures var r := AscendFlat(q, a, hit, seen);
      AscendFlat(q, a + b, hit, seen) == if r.ok then AscendFlat(q, b, r.hit, r.seen) else r
    decreases |a|
  {
    if a == [] {
      assert a + b == b;
    } else {
      var x, rest := a[0], a[1..];
      assert (a + b)[1..] == rest + b && (a + b)[0] == x;
      AscendConcat(q, rest, b, hit, seen);
      AscendConcat(q, rest, b, true, seen);
      AscendConcat(q, rest, b, true, seen + [x]);
    }
  }

  lemma {:induction false} DescendConcat<T>(q: Query<T>, a: seq<T>, b: seq<T>, hit: bool, seen: seq<T>)
    ensures var r := DescendFlat(q, b, hit, seen);
      DescendFlat(q, a + b, hit, seen) == if r.ok then DescendFlat(q, a, r.hit, r.seen) else r
    decreases |b|
  {
    if b == [] {
      assert a + b == a;
    } else {
      var n := |b| - 1;
      assert (a + b)[..|a| + n] == a + b[..n] && (a + b)[|a| + n] == b[n];
      DescendConcat(q, a, b[..n], hit, seen);
      DescendConcat(q, a, b[..n], true, seen + [b[n]]);
    }
  }

  lemma {:induction false} AscendSkip<T>(q: Query<T>, s: seq<T>, hit: bool, seen: seq<T>)
    requires q.start.Some? && AllBelow(q.lt, s, q.start.value)
    ensures AscendFlat(q, s, hit, seen) == Scan(hit, true, seen)
    decreases |s|
  {
    if s != [] { AscendSkip(q, s[1..], hit, seen); }
  }

  lemma {:induction false} DescendSkip<T(!new)>(q: Query<T>, s: seq<T>, hit: bool, seen: seq<T>)
    requires StrictWeak(q.lt) && q.start.Some? && AllAbove(q.lt, q.start.value, s)
    ensures DescendFlat(q, s, hit, seen) == Scan(hit, true, seen)
    decreases |s|
  {
    if s != [] { DescendSkip(q, s[..|s| - 1], hit, seen); }
  }

  // ----- iterate on a node -----

  /** What has been passed before item i when ascending, and after it when descending. */
  ghost function Passed<T>(t: Tree<T>, i: nat): seq<T>
    requires LeafOrInner(t) && i <= |t.items|
  {
    if t.children == [] then t.items[..i] else Lo(t, i)
  }

  ghost function Remaining<T>(t: Tree<T>, i: nat): seq<T>
    requires LeafOrInner(t) && i <= |t.items|
  {
    if t.children == [] then t.items[i..] else Hi(t, i)
  }

  ghost function ChildItems<T>(t: Tree<T>, i: nat): seq<T>
    requires LeafOrInner(t) && i <= |t.items|
  {
    if t.children == [] then [] else Flatten(t.children[i])
  }

  lemma PassedStep<T>(t: Tree<T>, i: nat)
    requires LeafOrInner(t) && i < |t.items|
    ensures Passed(t, i + 1) == Passed(t, i) + ChildItems(t, i) + [t.items[i]]
    ensures Remaining(t, i) == [t.items[i]] + ChildItems(t, i + 1) + Remaining(t, i + 1)
  {
    hide Flatten, Lo, Hi;
    if t.children != [] {
      LoStep(t, i);
      HiStep(t, i);
    }
  }

  lemma PassedEnds<T>(t: Tree<T>)
    requires LeafOrInner(t)
    ensures Passed(t, 0) == [] && Remaining(t, |t.items|) == []
    ensures Flatten(t) == Passed(t, |t.items|) + ChildItems(t, |t.items|)
    ensures Flatten(t) == ChildItems(t, 0) + Remaining(t, 0)
  {
    hide Flatten, Lo, Hi;
    if t.children == [] {
      LeafFlatten(t);
    } else {
      EmptySides(t);
      FlattenAt(t, |t.items|);
      FlattenAt(t, 0);
    }
  }

  /** The stretch around item i is sorted: the child before it lies below, the one after above. */
  lemma AroundItem<T(!new)>(lt: Less<T>, t: Tree<T>, i: nat, x: T)
    requires StrictWeak(lt) && Sorted(lt, Flatten(t)) && LeafOrInner(t) && i < |t.items|
    ensures !lt(x, t.items[i]) ==> AllBelow(lt, ChildItems(t, i), x)
    ensures !lt(t.items[i], x) ==> AllAbove(lt, x, ChildItems(t, i + 1))
  {
    hide Flatten, Lo, Hi, Sorted, StrictWeak;
    if t.children != [] {
      FlattenAtItem(t, i);
      var a, b := Lo(t, i) + Flatten(t.children[i]), Flatten(t.children[i + 1]) + Hi(t, i + 1);
      BelowFrom(lt, a, t.items[i], b, x);
      if AllBelow(lt, a, x) { BelowSuffix(lt, Lo(t, i), Flatten(t.children[i]), x); }
      if AllAbove(lt, x, b) { AbovePrefix(lt, Flatten(t.children[i + 1]), Hi(t, i + 1), x); }
    }
  }

  lemma BelowSuffix<T>(lt: Less<T>, a: seq<T>, b: seq<T>, x: T)
    requires AllBelow(lt, a + b, x)
    ensures AllBelow(lt, b, x)
  {
    forall i | 0 <= i < |b| ensures lt(b[i], x) { assert (a + b)[|a| + i] == b[i]; }
  }

  lemma AbovePrefix<T>(lt: Less<T>, a: seq<T>, b: seq<T>, x: T)
    requires AllAbove(lt, x, a + b)
    ensures AllAbove(lt, x, a)
  {
    forall i | 0 <= i < |a| ensures lt(x, a[i]) { assert (a + b)[i] == a[i]; }
  }

  ghost predicate ChildrenReady<T(!new)>(lt: Less<T>, t: Tree<T>, h: nat, d: nat)
    requires d >= 2
  {
    && LeafOrInner(t)
    && (forall i :: 0 <= i < |t.children| ==>
          h > 0 && Balanced(t.children[i], h - 1, d) && Sorted(lt, Flatten(t.children[i])))
  }

  lemma MakeReady<T(!new)>(lt: Less<T>, t: Tree<T>, h: nat, d: nat)
    requires StrictWeak(lt) && d >= 2 && Balanced(t, h, d) && Sorted(lt, Flatten(t))
    ensures ChildrenReady(lt, t, h, d)
  {
    hide Flatten, Sorted, StrictWeak;
    forall i | 0 <= i < |t.children|
      ensures h > 0 && Balanced(t.children[i], h - 1, d) && Sorted(lt, Flatten(t.children[i]))
    {
      ChildBalanced(t, h, d, i);
      if |t.items| > 0 {
        SlotInNode(lt, t, t.items[0], i);
      } else {
        FlattenAt(t, 0);
        EmptySides(t);
        assert Flatten(t) == Flatten(t.children[0]);
      }
    }
  }

  // ----- one turn of the loop: child, then item -----

  lemma FlattenAround<T>(t: Tree<T>, i: nat)
    requires LeafOrInner(t) && i <= |t.items|
    ensures Flatten(t) == Passed(t, i) + ChildItems(t, i) + Remaining(t, i)
  {
    hide Flatten, Lo, Hi;
    if t.children == [] { LeafFlatten(t); } else { FlattenAt(t, i); }
  }

  lemma AscendTurn<T>(q: Query<T>, t: Tree<T>, i: nat, hit0: bool, seen0: seq<T>, hit: bool, seen: seq<T>)
    requires LeafOrInner(t) && i < |t.items|
    requires AscendFlat(q, Passed(t, i), hit0, seen0) == Scan(hit, true, seen)
    ensures var c := AscendFlat(q, ChildItems(t, i), hit, seen);
      var r := if c.ok then AscendFlat(q, [t.items[i]], c.hit, c.seen) else c;
      && AscendFlat(q, Passed(t, i + 1), hit0, seen0) == r
      && (!r.ok ==> AscendFlat(q, Flatten(t), hit0, seen0) == r)
  {
    hide AscendFlat, Flatten, Passed, ChildItems, Remaining;
    PassedStep(t, i);
    FlattenAround(t, i + 1);
    var turn := ChildItems(t, i) + [t.items[i]];
    assert Passed(t, i + 1) == Passed(t, i) + turn;
    AscendConcat(q, Passed(t, i), turn, hit0, seen0);
    AscendConcat(q, ChildItems(t, i), [t.items[i]], hit, seen);
    var rest := ChildItems(t, i + 1) + Remaining(t, i + 1);
    assert Flatten(t) == Passed(t, i + 1) + rest;
    AscendConcat(q, Passed(t, i + 1), rest, hit0, seen0);
  }

  lemma DescendTurn<T>(q: Query<T>, t: Tree<T>, i: nat, hit0: bool, seen0: seq<T>, hit: bool, seen: seq<T>)
    requires LeafOrInner(t) && i < |t.items|
    requires DescendFlat(q, Remaining(t, i + 1), hit0, seen0) == Scan(hit, true, seen)
    ensures var c := DescendFlat(q, ChildItems(t, i + 1), hit, seen);
      var r := if c.ok then DescendFlat(q, [t.items[i]], c.hit, c.seen) else c;
      && DescendFlat(q, Remaining(t, i), hit0, seen0) == r
      && (!r.ok ==> DescendFlat(q, Flatten(t), hit0, seen0) == r)
  {
    hide DescendFlat, Flatten, Passed, ChildItems, Remaining;
    PassedStep(t, i);
    FlattenAround(t, i);
    var turn := [t.items[i]] + ChildItems(t, i + 1);
    assert Remaining(t, i) == turn + Remaining(t, i + 1);
    DescendConcat(q, turn, Remaining(t, i + 1), hit0, seen0);
    DescendConcat(q, [t.items[i]], ChildItems(t, i + 1), hit, seen);
    var rest := Passed(t, i) + ChildItems(t, i);
    assert Flatten(t) == rest + Remaining(t, i);
    DescendConcat(q, rest, Remaining(t, i), hit0, seen0);
  }

  lemma AscendOne<T>(q: Query<T>, x: T, hit: bool, seen: seq<T>)
    ensures AscendFlat(q, [x], hit, seen) ==
      if q.start.Some? && q.lt(x, q.start.value) then Scan(hit, true, seen)
      else if !q.includeStart && !hit && q.start.Some? && !q.lt(q.start.value, x) then Scan(true, true, seen)
      else if q.stop.Some? && !q.lt(x, q.stop.value) then Scan(true, false, seen)
      else Scan(true, q.go(seen + [x]), seen + [x])
  {
    assert [x][1..] == [];
  }

  lemma DescendOne<T>(q: Query<T>, x: T, hit: bool, seen: seq<T>)
    ensures DescendFlat(q, [x], hit, seen) ==
      if q.start.Some? && !q.lt(x, q.start.value) && (!q.includeStart || hit || q.lt(q.start.value, x))
        then Scan(hit, true, seen)
      else if q.stop.Some? && !q.lt(q.stop.value, x) then Scan(hit, false, seen)
      else Scan(true, q.go(seen + [x]), seen + [x])
  {
    assert [x][..0] == [];
  }

  /** iterate(ascend, ...): the walk of the tree delivers what the walk of the flat sequence does. */
  method IterateAscend<T(!new)>(q: Query<T>, t: Tree<T>, hit0: bool, seen0: seq<T>, ghost h: nat, ghost d: nat)
    returns (r: Scan<T>)
    requires StrictWeak(q.lt) && d >= 2 && Balanced(t, h, d) && Sorted(q.lt, Flatten(t))
    ensures r == AscendFlat(q, Flatten(t), hit0, seen0)
    decreases h
  {
    hide AscendFlat, Flatten, Balanced, Sorted, StrictWeak, Passed, Remaining;
    MakeReady(q.lt, t, h, d);
    PassedEnds(t);
    NothingSeen(q, hit0, seen0);
    var hit, seen := hit0, seen0;
    var i := 0;
    while i < |t.items|
      invariant i <= |t.items|
      invariant AscendFlat(q, Passed(t, i), hit0, seen0) == Scan(hit, true, seen)
    {
      AscendTurn(q, t, i, hit0, seen0, hit, seen);
      NothingSeen(q, hit, seen);
      if q.start.Some? && q.lt(t.items[i], q.start.value) {
        AroundItem(q.lt, t, i, q.start.value);
        NotBoth(q.lt, t.items[i], q.start.value);
        AscendSkip(q, ChildItems(t, i), hit, seen);
        AscendOne(q, t.items[i], hit, seen);
      } else {
        if |t.children| > 0 {
          r := IterateAscend(q, t.children[i], hit, seen, h - 1, d);
          hit, seen := r.hit, r.seen;
          if !r.ok { return; }
        }
        AscendOne(q, t.items[i], hit, seen);
        if !q.includeStart && !hit && q.start.Some? && !q.lt(q.start.value, t.items[i]) {
          hit := true;
        } else {
          hit := true;
          if q.stop.Some? && !q.lt(t.items[i], q.stop.value) { return Scan(hit, false, seen); }
          seen := seen + [t.items[i]];
          if !q.go(seen) { return Scan(hit, false, seen); }
        }
      }
      i := i + 1;
    }
    AscendConcat(q, Passed(t, i), ChildItems(t, i), hit0, seen0);
    NothingSeen(q, hit, seen);
    if |t.children| > 0 {
      r := IterateAscend(q, t.children[|t.children| - 1], hit, seen, h - 1, d);
    } else {
      r := Scan(hit, true, seen);
    }
  }

  /** iterate(descend, ...) */
  method IterateDescend<T(!new)>(q: Query<T>, t: Tree<T>, hit0: bool, seen0: seq<T>, ghost h: nat, ghost d: nat)
    returns (r: Scan<T>)
    requires StrictWeak(q.lt) && d >= 2 && Balanced(t, h, d) && Sorted(q.lt, Flatten(t))
    ensures r == DescendFlat(q, Flatten(t), hit0, seen0)
    decreases h
  {
    hide DescendFlat, Flatten, Balanced, Sorted, StrictWeak, Passed, Remaining;
    MakeReady(q.lt, t, h, d);
    PassedEnds(t);
    NothingSeen(q, hit0, seen0);
    var hit, seen := hit0, seen0;
    var i := |t.items|;
    while i > 0
      invariant 0 <= i <= |t.items|
      invariant DescendFlat(q, Remaining(t, i), hit0, seen0) == Scan(hit, true, seen)
    {
      i := i - 1;
      DescendTurn(q, t, i, hit0, seen0, hit, seen);
      NothingSeen(q, hit, seen);
      if q.start.Some? && !q.lt(t.items[i], q.start.value)
         && (!q.includeStart || hit || q.lt(q.start.value, t.items[i]))
      {
        AroundItem(q.lt, t, i, q.start.value);
        DescendSkip(q, ChildItems(t, i + 1), hit, seen);
        DescendOne(q, t.items[i], hit, seen);
      } else {
        if |t.children| > 0 {
          r := IterateDescend(q, t.children[i + 1], hit, seen, h - 1, d);
          KeptPast(q, t, i, hit, seen);
          hit, seen := r.hit, r.seen;
          if !r.ok { return; }
        }
        DescendOne(q, t.items[i], hit, seen);
        if q.stop.Some? && !q.lt(q.stop.value, t.items[i]) { return Scan(hit, false, seen); }
        hit := true;
        seen := seen + [t.items[i]];
        if !q.go(seen) { return Scan(hit, false, seen); }
      }
    }
    DescendConcat(q, ChildItems(t, 0), Remaining(t, 0), hit0, seen0);
    NothingSeen(q, hit, seen);
    if |t.children| > 0 {
      r := IterateDescend(q, t.children[0], hit, seen, h - 1, d);
    } else {
      r := Scan(hit, true, seen);
    }
  }

  lemma NothingSeen<T>(q: Query<T>, hit: bool, seen: seq<T>)
    ensures AscendFlat(q, [], hit, seen) == Scan(hit, true, seen)
    ensures DescendFlat(q, [], hit, seen) == Scan(hit, true, seen)
  {
  }

  lemma NotBoth<T(!new)>(lt: Less<T>, x: T, y: T)
    requires StrictWeak(lt) && lt(x, y)
    ensures !lt(y, x)
  {
  }

  /** When item i is the start itself, everything in the child after it is past the start, so the
      child's walk leaves `hit` alone and the item is still delivered. */
  lemma KeptPast<T(!new)>(q: Query<T>, t: Tree<T>, i: nat, hit: bool, seen: seq<T>)
    requires StrictWeak(q.lt) && Sorted(q.lt, Flatten(t)) && LeafOrInner(t) && i < |t.items|
    ensures q.start.Some? && !q.lt(t.items[i], q.start.value) ==>
      DescendFlat(q, ChildItems(t, i + 1), hit, seen) == Scan(hit, true, seen)
  {
    hide DescendFlat, Flatten, StrictWeak, Sorted;
    if q.start.Some? && !q.lt(t.items[i], q.start.value) {
      AroundItem(q.lt, t, i, q.start.value);
      DescendSkip(q, ChildItems(t, i + 1), hit, seen);
    }
  }

  // ----- a range query is a filter -----

  ghost predicate InRangeUp<T>(q: Query<T>, x: T) {
    && (q.start.Some? ==> !q.lt(x, q.start.value) && (q.includeStart || q.lt(q.start.value, x)))
    && (q.stop.Some? ==> q.lt(x, q.stop.value))
  }

  ghost predicate InRangeDown<T>(q: Query<T>, x: T) {
    && (q.start.Some? ==> !q.lt(q.start.value, x) && (q.includeStart || q.lt(x, q.start.value)))
    && (q.stop.Some? ==> q.lt(q.stop.value, x))
  }

  /** The items in range, in ascending and in descending order. */
  ghost function SelectUp<T>(q: Query<T>, s: seq<T>): seq<T> {
    if s == [] then [] else (if InRangeUp(q, s[0]) then [s[0]] else []) + SelectUp(q, s[1..])
  }

  ghost function SelectDown<T>(q: Query<T>, s: seq<T>): seq<T> {
    if s == [] then [] else
      var n := |s| - 1;
      (if InRangeDown(q, s[n]) then [s[n]] else []) + SelectDown(q, s[..n])
  }

  /** Hand over the candidates one by one until the callback says no. */
  ghost function Deliver<T>(go: seq<T> -> bool, cands: seq<T>, seen: seq<T>): seq<T> {
    if cands == [] then seen
    else if !go(seen + [cands[0]]) then seen + [cands[0]]
    else Deliver(go, cands[1..], seen + [cands[0]])
  }

  /** Deliver hands over the longest prefix on which the callback has not yet said no, and the
      item it says no to. */
  lemma {:induction false} DeliverPrefix<T>(go: seq<T> -> bool, cands: seq<T>, seen: seq<T>)
    ensures var r := Deliver(go, cands, seen);
      && |seen| <= |r| && r <= seen + cands
      && (r == seen + cands || (|r| > |seen| && !go(r)))
      && (forall k :: |seen| < k < |r| ==> go(r[..k]))
    decreases |cands|
  {
    if cands == [] {
      assert seen + cands == seen;
    } else {
      var seen', rest := seen + [cands[0]], cands[1..];
      assert seen + cands == seen' + rest;
      if go(seen') {
        DeliverPrefix(go, rest, seen');
        var r := Deliver(go, rest, seen');
        assert r[..|seen'|] == seen' by { assert (seen' + rest)[..|seen'|] == seen'; }
      }
    }
  }

  lemma {:induction false} AscendFiltered<T(!new)>(q: Query<T>, s: seq<T>, hit: bool, seen: seq<T>)
    requires StrictWeak(q.lt) && Sorted(q.lt, s)
    requires hit && q.start.Some? ==> AllAbove(q.lt, q.start.value, s)
    ensures AscendFlat(q, s, hit, seen).seen == Deliver(q.go, SelectUp(q, s), seen)
    decreases |s|
  {
    if s != [] {
      var x, rest := s[0], s[1..];
      forall i | 0 <= i < |rest| ensures q.lt(x, rest[i]) { assert rest[i] == s[i + 1]; }
      if InRangeUp(q, x) {
        assert SelectUp(q, s)[1..] == SelectUp(q, rest);
        AscendFiltered(q, rest, true, seen + [x]);
      } else if q.start.Some? && q.lt(x, q.start.value) {
        assert SelectUp(q, s) == SelectUp(q, rest);
        AscendFiltered(q, rest, hit, seen);
      } else if !q.includeStart && !hit && q.start.Some? && !q.lt(q.start.value, x) {
        assert SelectUp(q, s) == SelectUp(q, rest);
        AscendFiltered(q, rest, true, seen);
      } else {
        SelectNone(q, s);
      }
    }
  }

  lemma {:induction false} SelectNone<T(!new)>(q: Query<T>, s: seq<T>)
    requires StrictWeak(q.lt) && Sorted(q.lt, s) && q.stop.Some?
    requires s != [] ==> !q.lt(s[0], q.stop.value)
    ensures SelectUp(q, s) == []
    decreases |s|
  {
    if s != [] {
      assert s[1..] != [] ==> q.lt(s[0], s[1..][0]);
      SelectNone(q, s[1..]);
    }
  }

  /** Ascend, AscendRange, AscendLessThan, AscendGreaterOrEqual: exactly the items in range, in
      order, up to the callback's first no. */
  lemma AscendIsFilter<T(!new)>(q: Query<T>, s: seq<T>)
    requires StrictWeak(q.lt) && Sorted(q.lt, s)
    ensures AscendFlat(q, s, false, []).seen == Deliver(q.go, SelectUp(q, s), [])
  {
    AscendFiltered(q, s, false, []);
  }

  lemma {:induction false} DescendFiltered<T(!new)>(q: Query<T>, s: seq<T>, hit: bool, seen: seq<T>)
    requires StrictWeak(q.lt) && Sorted(q.lt, s)
    requires hit && q.start.Some? ==> AllBelow(q.lt, s, q.start.value)
    ensures DescendFlat(q, s, hit, seen).seen == Deliver(q.go, SelectDown(q, s), seen)
    decreases |s|
  {
    if s != [] {
      var n := |s| - 1;
      var x, rest := s[n], s[..n];
      forall i | 0 <= i < |rest| ensures q.lt(rest[i], x) { assert rest[i] == s[i]; }
      if InRangeDown(q, x) {
        assert SelectDown(q, s)[1..] == SelectDown(q, rest);
        DescendFiltered(q, rest, true, seen + [x]);
      } else if q.start.Some? && !q.lt(x, q.start.value) && (!q.includeStart || hit || q.lt(q.start.value, x)) {
        assert SelectDown(q, s) == SelectDown(q, rest);
        DescendFiltered(q, rest, hit, seen);
      } else {
        SelectDownNone(q, s);
      }
    }
  }

  lemma {:induction false} SelectDownNone<T(!new)>(q: Query<T>, s: seq<T>)
    requires StrictWeak(q.lt) && Sorted(q.lt, s) && q.stop.Some?
    requires s != [] ==> !q.lt(q.stop.value, s[|s| - 1])
    ensures SelectDown(q, s) == []
    decreases |s|
  {
    if s != [] {
      var n := |s| - 1;
      assert s[..n] != [] ==> q.lt(s[..n][n - 1], s[n]);
      SelectDownNone(q, s[..n]);
    }
  }

  /** Descend, DescendRange, DescendLessOrEqual, DescendGreaterThan. */
  lemma DescendIsFilter<T(!new)>(q: Query<T>, s: seq<T>)
    requires StrictWeak(q.lt) && Sorted(q.lt, s)
    ensures DescendFlat(q, s, false, []).seen == Deliver(q.go, SelectDown(q, s), [])
  {
    DescendFiltered(q, s, false, []);
  }

  /** DescendLessOrEqual with a callback that stops at once delivers the greatest item that is
      not above the pivot, and nothing exactly when every item is above it. */
  lemma {:induction false} FloorOf<T(!new)>(q: Query<T>, s: seq<T>, k: int)
    requires StrictWeak(q.lt) && Sorted(q.lt, s)
    requires q.start.Some? && q.stop.None? && q.includeStart && (forall x :: !q.go([x]))
    requires -1 <= k < |s| && (k >= 0 ==> !q.lt(q.start.value, s[k]))
    requires forall i :: k < i < |s| ==> q.lt(q.start.value, s[i])
    ensures DescendFlat(q, s, false, []).seen == if k < 0 then [] else [s[k]]
    decreases |s|
  {
    if s != [] {
      var n := |s| - 1;
      if k < n {
        FloorOf(q, s[..n], k);
      } else {
        assert [] + [s[n]] == [s[n]];
      }
    }
  }
}
