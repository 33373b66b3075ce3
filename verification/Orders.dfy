/** Items of a tree are compared only through `Less`, which "must provide a strict weak
    ordering"; two items neither of which is less than the other count as the same item.
    The reference for every tree operation is the same operation on one flat sorted list. */
module Orders {

  datatype Option<+T> = None | Some(value: T)

  type Less<!T> = (T, T) -> bool

  ghost predicate StrictWeak<T(!new)>(lt: Less<T>) {
    && (forall x :: !lt(x, x))
    && (forall x, y, z :: lt(x, y) && lt(y, z) ==> lt(x, z))
    && (forall x, y, z :: lt(x, z) ==> lt(x, y) || lt(y, z))
  }

  predicate Same<T>(lt: Less<T>, x: T, y: T) {
    !lt(x, y) && !lt(y, x)
  }

  ghost predicate Sorted<T>(lt: Less<T>, s: seq<T>) {
    forall i, j :: 0 <= i < j < |s| ==> lt(s[i], s[j])
  }

  ghost predicate AllBelow<T>(lt: Less<T>, s: seq<T>, x: T) {
    forall i :: 0 <= i < |s| ==> lt(s[i], x)
  }

  ghost predicate AllAbove<T>(lt: Less<T>, x: T, s: seq<T>) {
    forall i :: 0 <= i < |s| ==> lt(x, s[i])
  }

  /** Where an item is, or where it would go. */
  datatype Slot = Slot(index: nat, found: bool)

  /** The number of leading items that are not above x: what a binary search for the first
      item above x returns. */
  function Upper<T>(lt: Less<T>, s: seq<T>, x: T): (i: nat)
    ensures i <= |s|
    ensures i < |s| ==> lt(x, s[i])
    ensures forall j :: 0 <= j < i ==> !lt(x, s[j])
  {
    if s == [] || lt(x, s[0]) then 0 else
      var i := Upper(lt, s[1..], x);
      assert forall j :: 1 <= j < i + 1 ==> s[j] == s[1..][j - 1];
      1 + i
  }

  function Find<T>(lt: Less<T>, s: seq<T>, x: T): (r: Slot)
    ensures r.index <= |s| && (r.found ==> r.index < |s|)
  {
    var i := Upper(lt, s, x);
    if i > 0 && !lt(s[i - 1], x) then Slot(i - 1, true) else Slot(i, false)
  }

  /** What a slot means, independently of how it is searched for. */
  ghost predicate IsSlot<T>(lt: Less<T>, s: seq<T>, x: T, r: Slot) {
    && r.index <= |s|
    && (r.found ==> r.index < |s| && Same(lt, s[r.index], x))
    && (forall i :: 0 <= i < r.index ==> lt(s[i], x))
    && (!r.found ==> forall i :: r.index <= i < |s| ==> lt(x, s[i]))
  }

  lemma FindIsSlot<T(!new)>(lt: Less<T>, s: seq<T>, x: T)
    requires StrictWeak(lt) && Sorted(lt, s)
    ensures IsSlot(lt, s, x, Find(lt, s, x))
  {
    var i := Upper(lt, s, x);
    forall j | i <= j < |s| ensures lt(x, s[j]) {
      if j > i { assert lt(s[i], s[j]); }
    }
    if i > 0 {
      forall j | 0 <= j < i - 1 ensures lt(s[j], x) {
        assert lt(s[j], s[i - 1]) && !lt(x, s[i - 1]);
      }
    }
  }

  lemma SlotUnique<T(!new)>(lt: Less<T>, s: seq<T>, x: T, a: Slot, b: Slot)
    requires StrictWeak(lt) && Sorted(lt, s)
    requires IsSlot(lt, s, x, a) && IsSlot(lt, s, x, b)
    ensures a == b
  {
    var atA := a.index < |s| && lt(s[a.index], x);
    var atB := b.index < |s| && lt(s[b.index], x);
  }

  /** Searching in the middle part is enough when the rest lies on the two sides of x. */
  lemma FindConcat<T(!new)>(lt: Less<T>, a: seq<T>, b: seq<T>, c: seq<T>, x: T)
    requires StrictWeak(lt) && Sorted(lt, a + b + c)
    requires AllBelow(lt, a, x) && AllAbove(lt, x, c)
    ensures Sorted(lt, b)
    ensures Find(lt, a + b + c, x) == Slot(|a| + Find(lt, b, x).index, Find(lt, b, x).found)
  {
    var s := a + b + c;
    SortedSlice(lt, s, |a|, |a| + |b|);
    assert s[|a|..|a| + |b|] == b;
    FindIsSlot(lt, b, x);
    FindIsSlot(lt, s, x);
    var p := Find(lt, b, x);
    var q := Slot(|a| + p.index, p.found);
    forall i | 0 <= i < q.index ensures lt(s[i], x) { assert i >= |a| ==> s[i] == b[i - |a|]; }
    assert forall i :: |a| <= i < |a| + |b| ==> s[i] == b[i - |a|];
    SlotUnique(lt, s, x, q, Find(lt, s, x));
  }

  lemma SortedSlice<T>(lt: Less<T>, s: seq<T>, lo: nat, hi: nat)
    requires lo <= hi <= |s| && Sorted(lt, s)
    ensures Sorted(lt, s[lo..hi])
  {
  }

  /** In a sorted a + [y] + b, everything in a is below anything that is not below y. */
  lemma BelowFrom<T(!new)>(lt: Less<T>, a: seq<T>, y: T, b: seq<T>, x: T)
    requires StrictWeak(lt) && Sorted(lt, a + [y] + b)
    ensures !lt(x, y) ==> AllBelow(lt, a, x)
    ensures !lt(y, x) ==> AllAbove(lt, x, b)
    ensures lt(y, x) ==> AllBelow(lt, a + [y], x)
    ensures lt(x, y) ==> AllAbove(lt, x, [y] + b)
  {
    var s := a + [y] + b;
    assert s[|a|] == y;
    forall i | 0 <= i < |a| ensures lt(a[i], y) { assert s[i] == a[i]; }
    forall i | 0 <= i < |b| ensures lt(y, b[i]) { assert s[|a| + 1 + i] == b[i]; }
  }

  // ----- the ordered map as one flat sorted list -----

  datatype Change<T> = Change(items: seq<T>, out: Option<T>)

  datatype Removal<T> = RemoveItem(item: T) | RemoveMin | RemoveMax

  function FlatInsert<T>(lt: Less<T>, s: seq<T>, x: T): Change<T> {
    var r := Find(lt, s, x);
    if r.found then Change(s[r.index := x], Some(s[r.index]))
    else Change(s[..r.index] + [x] + s[r.index..], None)
  }

  function FlatRemove<T>(lt: Less<T>, s: seq<T>, typ: Removal<T>): Change<T> {
    match typ
    case RemoveItem(x) =>
      var r := Find(lt, s, x);
      if r.found then Change(s[..r.index] + s[r.index + 1..], Some(s[r.index])) else Change(s, None)
    case RemoveMin => if s == [] then Change(s, None) else Change(s[1..], Some(s[0]))
    case RemoveMax => if s == [] then Change(s, None) else Change(s[..|s| - 1], Some(s[|s| - 1]))
  }

  function FlatGet<T>(lt: Less<T>, s: seq<T>, x: T): Option<T> {
    var r := Find(lt, s, x);
    if r.found then Some(s[r.index]) else None
  }

  lemma FlatInsertSorted<T(!new)>(lt: Less<T>, s: seq<T>, x: T)
    requires StrictWeak(lt) && Sorted(lt, s)
    ensures Sorted(lt, FlatInsert(lt, s, x).items)
    ensures FlatInsert(lt, s, x).out == FlatGet(lt, s, x)
    ensures |FlatInsert(lt, s, x).items| == |s| + (if FlatGet(lt, s, x).None? then 1 else 0)
  {
    FindIsSlot(lt, s, x);
    var r := Find(lt, s, x);
    var s' := FlatInsert(lt, s, x).items;
    forall i | r.index < i < |s| ensures lt(x, s[i]) {
      assert lt(s[r.index], s[i]);
    }
  }

  lemma FlatRemoveSorted<T(!new)>(lt: Less<T>, s: seq<T>, typ: Removal<T>)
    requires StrictWeak(lt) && Sorted(lt, s)
    ensures Sorted(lt, FlatRemove(lt, s, typ).items)
    ensures |FlatRemove(lt, s, typ).items| == |s| - (if FlatRemove(lt, s, typ).out.None? then 0 else 1)
  {
  }

  /** What a removal takes out: the item found under the key, the least, or the greatest; nothing only
      where there is none. */
  lemma RemovedIs<T(!new)>(lt: Less<T>, s: seq<T>, x: T)
    requires StrictWeak(lt) && Sorted(lt, s)
    ensures FlatRemove(lt, s, RemoveItem(x)).out == FlatGet(lt, s, x)
    ensures var c := FlatRemove(lt, s, RemoveMin);
      if s == [] then c.out == None else c.out.Some? && c.out.value in s && forall y :: y in s ==> !lt(y, c.out.value)
    ensures var c := FlatRemove(lt, s, RemoveMax);
      if s == [] then c.out == None else c.out.Some? && c.out.value in s && forall y :: y in s ==> !lt(c.out.value, y)
  {
    forall y | y in s ensures !lt(y, s[0]) && !lt(s[|s| - 1], y) {
      var i :| 0 <= i < |s| && s[i] == y;
      if i > 0 { assert lt(s[0], s[i]); }
      if i < |s| - 1 { assert lt(s[i], s[|s| - 1]); }
    }
  }

  /** The flat list is an ordered map: looking up after an insert finds the new item under its
      own key and the old one under every other key. */
  lemma GetAfterInsert<T(!new)>(lt: Less<T>, s: seq<T>, x: T, y: T)
    requires StrictWeak(lt) && Sorted(lt, s)
    ensures FlatGet(lt, FlatInsert(lt, s, x).items, y)
         == if Same(lt, x, y) then Some(x) else FlatGet(lt, s, y)
  {
    FlatInsertSorted(lt, s, x);
    var r, s' := Find(lt, s, x), FlatInsert(lt, s, x).items;
    FindIsSlot(lt, s, x);
    assert s'[r.index] == x;
    if Same(lt, x, y) {
      GetByMember(lt, s', y, r.index);
    } else {
      FindIsSlot(lt, s, y);
      var q := Find(lt, s, y);
      if q.found {
        var k := if q.index < r.index || r.found then q.index else q.index + 1;
        assert s'[k] == s[q.index];
        GetByMember(lt, s', y, k);
      } else {
        GetNone(lt, s, y);
        forall i | 0 <= i < |s'| ensures !Same(lt, s'[i], y) {
          if i != r.index {
            assert s'[i] == s[if i < r.index || r.found then i else i - 1];
          }
        }
        GetNone(lt, s', y);
      }
    }
  }

  /** Looking up after a removal finds exactly the items that were not removed. */
  lemma GetAfterRemove<T(!new)>(lt: Less<T>, s: seq<T>, typ: Removal<T>, y: T)
    requires StrictWeak(lt) && Sorted(lt, s)
    ensures var c := FlatRemove(lt, s, typ);
      FlatGet(lt, c.items, y)
      == if c.out.Some? && Same(lt, c.out.value, y) then None else FlatGet(lt, s, y)
  {
    FlatRemoveSorted(lt, s, typ);
    var c := FlatRemove(lt, s, typ);
    if c.out.Some? {
      var p := match typ case RemoveItem(x) => Find(lt, s, x).index case RemoveMin => 0 case RemoveMax => |s| - 1;
      assert c.out.value == s[p];
      forall i | 0 <= i < |c.items| ensures c.items[i] == s[if i < p then i else i + 1] {}
      FindIsSlot(lt, s, y);
      var q := Find(lt, s, y);
      if q.found && q.index != p {
        var k := if q.index < p then q.index else q.index - 1;
        assert c.items[k] == s[q.index];
        assert lt(s[p], s[q.index]) || lt(s[q.index], s[p]);
        GetByMember(lt, c.items, y, k);
      } else {
        if q.found { assert Same(lt, s[p], y); } else { GetNone(lt, s, y); }
        forall i | 0 <= i < |c.items| ensures !Same(lt, c.items[i], y) {
          var j := if i < p then i else i + 1;
          if q.found { if p < j { assert lt(s[p], s[j]); } else { assert lt(s[j], s[p]); } }
        }
        GetNone(lt, c.items, y);
      }
    }
  }

  lemma GetByMember<T(!new)>(lt: Less<T>, s: seq<T>, y: T, k: nat)
    requires StrictWeak(lt) && Sorted(lt, s)
    requires k < |s| && Same(lt, s[k], y)
    ensures Find(lt, s, y) == Slot(k, true) && FlatGet(lt, s, y) == Some(s[k])
  {
    FindIsSlot(lt, s, y);
    var r := Slot(k, true);
    forall i | 0 <= i < k ensures lt(s[i], y) { assert lt(s[i], s[k]); }
    assert IsSlot(lt, s, y, r);
    SlotUnique(lt, s, y, r, Find(lt, s, y));
  }

  lemma GetNone<T(!new)>(lt: Less<T>, s: seq<T>, y: T)
    requires StrictWeak(lt) && Sorted(lt, s)
    ensures FlatGet(lt, s, y).None? <==> forall i :: 0 <= i < |s| ==> !Same(lt, s[i], y)
  {
    FindIsSlot(lt, s, y);
    var r := Find(lt, s, y);
    assert r.found ==> Same(lt, s[r.index], y);
  }
}
