/** The client's table of meta partitions (sdk/meta/partition.go): a map by id beside a tree ordered
    by Start, and the lookups that route an inode to its partition. */
module RangeLookup {
  import opened Orders
  import opened BTreeIteration
  import opened InodeRanges

  const UINT64 := 0x1_0000_0000_0000_0000

  function ByStart(): Less<Part> {
    (a: Part, b: Part) => a.start < b.start
  }

  lemma ByStartIsOrder()
    ensures StrictWeak(ByStart())
  {
  }

  function Pivot(start: nat): Part { Part(0, start, 0) }

  class RangeTable {
    var partitions: map<nat, Part>
    var ranges: seq<Part>           // the items of the tree

    constructor ()
      ensures Valid() && partitions == map[]
    {
      partitions, ranges := map[], [];
    }

    /** Map and tree hold the same partitions. */
    ghost predicate Valid()
      reads this
    {
      && Sorted(ByStart(), ranges)
      && (forall id :: id in partitions ==> partitions[id].id == id && partitions[id] in ranges)
      && (forall p :: p in ranges ==> p.id in partitions && partitions[p.id] == p)
    }

    /** addPartition, for an id that is not there: the tree drops a partition with the same Start,
        which the map keeps. */
    method Add(p: Part)
      requires Valid() && p.id !in partitions
      modifies this
      ensures partitions == old(partitions)[p.id := p] && Sorted(ByStart(), ranges)
      ensures forall q :: q in ranges <==> q == p || (q in old(ranges) && q.start != p.start)
      ensures Valid() <==> NoRival(old(partitions), p)
    {
      hide StrictWeak, Sorted, FlatInsert;
      ByStartIsOrder();
      FlatInsertSorted(ByStart(), ranges, p);
      InsertMembers(ranges, p);
      partitions := partitions[p.id := p];
      ranges := FlatInsert(ByStart(), ranges, p).items;
      if !NoRival(old(partitions), p) {
        var id :| id in old(partitions) && id != p.id && old(partitions)[id].start == p.start;
        assert partitions[id] == old(partitions)[id] && partitions[id] !in ranges;
      }
    }

    method Drop(p: Part)
      requires Valid() && p in ranges
      modifies this
      ensures Valid() && partitions == old(partitions) - {p.id} && forall q :: q in ranges <==>
        q in old(ranges) && q != p
    {
      hide StrictWeak, Sorted, FlatRemove;
      ByStartIsOrder();
      FlatRemoveSorted(ByStart(), ranges, RemoveItem(p));
      RemoveMembers(ranges, p);
      partitions := partitions - {p.id};
      ranges := FlatRemove(ByStart(), ranges, RemoveItem(p)).items;
    }

    /** replaceOrInsertPartition: map and tree go on holding the same partitions if and only if no
        other partition has the same Start. */
    method ReplaceOrInsert(p: Part)
      requires Valid()
      modifies this
      ensures partitions == old(partitions)[p.id := p] && p in ranges && Sorted(ByStart(), ranges)
      ensures Valid() <==> NoRival(old(partitions), p)
    {
      hide Sorted;
      if p.id in partitions { Drop(partitions[p.id]); }
      Add(p);
    }
  }

  ghost predicate NoRival(partitions: map<nat, Part>, p: Part) {
    forall id :: id in partitions && id != p.id ==> partitions[id].start != p.start
  }

  lemma InsertMembers(s: seq<Part>, p: Part)
    requires Sorted(ByStart(), s)
    ensures forall q :: q in FlatInsert(ByStart(), s, p).items <==> q == p || (q in s && q.start != p.start)
  {
    var r := Find(ByStart(), s, p);
    ByStartIsOrder();
    FindIsSlot(ByStart(), s, p);
    var t := FlatInsert(ByStart(), s, p).items;
    if r.found {
      assert s == s[..r.index] + [s[r.index]] + s[r.index + 1..] && t == s[..r.index] + [p] + s[r.index + 1..];
      forall i | 0 <= i < |s| ensures s[i].start == p.start <==> i == r.index {
        assert i < r.index ==> ByStart()(s[i], s[r.index]);
        assert i > r.index ==> ByStart()(s[r.index], s[i]);
      }
    } else {
      assert s == s[..r.index] + s[r.index..];
      forall i | 0 <= i < |s| ensures s[i].start != p.start {
        assert i < r.index ==> ByStart()(s[i], p);
        assert i >= r.index ==> ByStart()(p, s[i]);
      }
    }
  }

  lemma RemoveMembers(s: seq<Part>, p: Part)
    requires Sorted(ByStart(), s) && p in s
    ensures forall q :: q in FlatRemove(ByStart(), s, RemoveItem(p)).items <==> q in s && q != p
  {
    var k :| 0 <= k < |s| && s[k] == p;
    ByStartIsOrder();
    GetByMember(ByStart(), s, p, k);
    var t := FlatRemove(ByStart(), s, RemoveItem(p)).items;
    assert t == s[..k] + s[k + 1..] && s == s[..k] + [p] + s[k + 1..];
    forall q | q in t ensures q != p {
      var i :| 0 <= i < |t| && t[i] == q;
      assert t[i] == s[if i < k then i else i + 1];
    }
  }

  // ----- lookups -----

  /** getPartitionByInode: the partition with the greatest Start not above ino, if ino is in it. */
  function ByInode(ranges: seq<Part>, ino: nat): Option<Part> {
    var k := Upper(ByStart(), ranges, Pivot(ino));
    if k == 0 || ino > ranges[k - 1].end || ino < ranges[k - 1].start then None else Some(ranges[k - 1])
  }

  /** getNextPartition: the partition with the least Start above ino. */
  function Next(ranges: seq<Part>, ino: nat): Option<Part> {
    var k := Upper(ByStart(), ranges, Pivot(ino));
    if k == |ranges| then None else Some(ranges[k])
  }

  lemma UpperSplits(ranges: seq<Part>, ino: nat)
    requires Sorted(ByStart(), ranges)
    ensures var k := Upper(ByStart(), ranges, Pivot(ino));
      (forall i :: 0 <= i < k ==> ranges[i].start <= ino) && (forall i :: k <= i < |ranges| ==> ino < ranges[i].start)
  {
    hide Upper;
    var k := Upper(ByStart(), ranges, Pivot(ino));
    forall i | 0 <= i < k ensures ranges[i].start <= ino { assert !ByStart()(Pivot(ino), ranges[i]); }
    forall i | k <= i < |ranges| ensures ino < ranges[i].start {
      assert ByStart()(Pivot(ino), ranges[k]);
      if k < i { assert ByStart()(ranges[k], ranges[i]); }
    }
  }

  /** What the tree's descent delivers to the callback of getPartitionByInode. */
  lemma ByInodeIsDescent(ranges: seq<Part>, ino: nat)
    requires Sorted(ByStart(), ranges)
    ensures var q := Query(ByStart(), Some(Pivot(ino)), None, true, (seen: seq<Part>) => false);
      var seen := DescendFlat(q, ranges, false, []).seen;
      ByInode(ranges, ino) == if seen == [] || ino > seen[0].end || ino < seen[0].start then None else Some(seen[0])
  {
    hide Upper, DescendFlat, Sorted, StrictWeak;
    ByStartIsOrder();
    UpperSplits(ranges, ino);
    var k: int := Upper(ByStart(), ranges, Pivot(ino));
    FloorOf(Query(ByStart(), Some(Pivot(ino)), None, true, (seen: seq<Part>) => false), ranges, k - 1);
  }

  /** The first partition that the ascent from start on delivers. */
  ghost function FirstFrom(ranges: seq<Part>, start: nat): Option<Part> {
    var q := Query(ByStart(), Some(Pivot(start)), None, true, (seen: seq<Part>) => false);
    var seen := AscendFlat(q, ranges, false, []).seen;
    if seen == [] then None else Some(seen[0])
  }

  lemma {:induction false} FirstAbove(ranges: seq<Part>, ino: nat)
    requires Sorted(ByStart(), ranges)
    ensures FirstFrom(ranges, ino + 1) == Next(ranges, ino)
    decreases |ranges|
  {
    if ranges != [] && ranges[0].start <= ino {
      SortedSlice(ByStart(), ranges, 1, |ranges|);
      assert ranges[1..|ranges|] == ranges[1..];
      FirstAbove(ranges[1..], ino);
      UpperSplits(ranges, ino);
      UpperSplits(ranges[1..], ino);
    }
  }

  lemma FirstOfAll(ranges: seq<Part>)
    ensures FirstFrom(ranges, 0) == if ranges == [] then None else Some(ranges[0])
  {
    if ranges != [] {
      var q := Query(ByStart(), Some(Pivot(0)), None, true, (seen: seq<Part>) => false);
      var p: Part := ranges[0];
      assert p.start >= 0 && !ByStart()(p, Pivot(0));
      assert AscendFlat(q, ranges, false, []).seen == [ranges[0]];
    }
  }

  /** And what the ascent delivers to the callback of getNextPartition: it starts at ino + 1 in 64 bits,
      so the largest id of all is followed by the first partition. */
  lemma NextIsAscent(ranges: seq<Part>, ino: nat)
    requires Sorted(ByStart(), ranges) && ino < UINT64
    ensures FirstFrom(ranges, (ino + 1) % UINT64) ==
      if ino < UINT64 - 1 then Next(ranges, ino) else if ranges == [] then None else Some(ranges[0])
  {
    if ino < UINT64 - 1 {
      assert (ino + 1) % UINT64 == ino + 1;
      FirstAbove(ranges, ino);
    } else {
      assert (ino + 1) % UINT64 == 0;
      FirstOfAll(ranges);
    }
  }

  // ----- routing -----

  lemma TiledIsSorted(parts: seq<Part>)
    requires Tiled(parts)
    ensures Sorted(ByStart(), parts)
  {
    forall i, j | 0 <= i < j < |parts| ensures ByStart()(parts[i], parts[j]) { StartsIncrease(parts, i, j); }
  }

  /** On the volume's ranges the lookup finds partition i exactly for the inodes of its range. */
  lemma RoutesExactly(parts: seq<Part>, i: nat, ino: nat)
    requires Tiled(parts) && i < |parts|
    ensures ByInode(parts, ino) == Some(parts[i]) <==> parts[i].start <= ino <= parts[i].end
  {
    hide Upper, Sorted;
    TiledIsSorted(parts);
    UpperSplits(parts, ino);
    var k := Upper(ByStart(), parts, Pivot(ino));
    if k > 0 && k - 1 != i {
      if i < k - 1 { StartsIncrease(parts, i, k - 1); } else { StartsIncrease(parts, k - 1, i); }
    }
  }

  /** Every id a partition handed out is routed back to it. */
  lemma RoutesHome(v: Vol, i: nat, ino: nat)
    requires Inv(v) && i < |v.parts| && HandedOut(v, i, ino)
    ensures ByInode(v.parts, ino) == Some(v.parts[i])
  {
    hide ByInode, NodeOk;
    OneOwner(v, i, ino);
    RoutesExactly(v.parts, i, ino);
  }

  /** A table that knows the volume's partitions has them in its tree in the volume's order. */
  lemma TableIsVolume(ranges: seq<Part>, parts: seq<Part>)
    requires Tiled(parts) && Sorted(ByStart(), ranges) && forall p :: p in ranges <==> p in parts
    ensures ranges == parts
  {
    TiledIsSorted(parts);
    SortedUnique(ranges, parts);
  }

  lemma {:induction false} SortedUnique(a: seq<Part>, b: seq<Part>)
    requires Sorted(ByStart(), a) && Sorted(ByStart(), b) && forall p :: p in a <==> p in b
    ensures a == b
    decreases |a|
  {
    hide Sorted;
    if a == [] {
      if b != [] { HasFirst(b); }
    } else {
      HasFirst(a);
      assert a[0] in b;
      var j :| 0 <= j < |b| && b[j] == a[0];
      HasFirst(b);
      var i :| 0 <= i < |a| && a[i] == b[0];
      if j > 0 { Ahead(b, j); }
      if i > 0 { Ahead(a, i); }
      SortedSlice(ByStart(), a, 1, |a|);
      SortedSlice(ByStart(), b, 1, |b|);
      assert a[1..|a|] == a[1..] && b[1..|b|] == b[1..];
      TailMembers(a, b);
      TailMembers(b, a);
      SortedUnique(a[1..], b[1..]);
    }
  }

  lemma HasFirst(s: seq<Part>)
    requires s != []
    ensures s[0] in s
  {
  }

  lemma Ahead(s: seq<Part>, i: nat)
    requires Sorted(ByStart(), s) && 0 < i < |s|
    ensures s[0].start < s[i].start
  {
    assert ByStart()(s[0], s[i]);
  }

  lemma TailMembers(a: seq<Part>, b: seq<Part>)
    requires a != [] && b != [] && a[0] == b[0] && Sorted(ByStart(), a) && (forall p :: p in a ==> p in b)
    ensures forall p :: p in a[1..] ==> p in b[1..]
  {
    forall p | p in a[1..] ensures p in b[1..] {
      var i :| 0 < i < |a| && a[i] == p;
      assert ByStart()(a[0], a[i]) && p in b;
      var j :| 0 <= j < |b| && b[j] == p;
      assert b[1..][j - 1] == p;
    }
  }
}
