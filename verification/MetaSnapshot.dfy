/** Snapshot transfer between metanodes (metanode/partition_item.go and ApplySnapshot), and listing
    a directory. Trees are the sorted lists they refine. */
module MetaSnapshot {
  import opened BigEndian
  import opened Orders
  import opened BTreeIteration
  import opened StreamKeys
  import opened MetaFsm
  import opened MetaCodec

  const OP_CREATE_INODE := 0
  const OP_CREATE_DENTRY := 2

  datatype InodeItem = InodeItem(id: nat, ino: Inode)
  datatype DentryItem = DentryItem(key: DentryKey, den: Dentry)

  // ----- the orders of the two trees -----

  function InodeLess(): Less<InodeItem> {
    (a: InodeItem, b: InodeItem) => a.id < b.id
  }

  /** Go's string order. */
  predicate NameLess(a: seq<Byte>, b: seq<Byte>) {
    b != [] && (a == [] || a[0] < b[0] || (a[0] == b[0] && NameLess(a[1..], b[1..])))
  }

  predicate KeyLess(a: DentryKey, b: DentryKey) {
    a.parent < b.parent || (a.parent == b.parent && NameLess(a.name, b.name))
  }

  function DentryLess(): Less<DentryItem> {
    (a: DentryItem, b: DentryItem) => KeyLess(a.key, b.key)
  }

  lemma {:induction false} NameOrder(a: seq<Byte>, b: seq<Byte>, c: seq<Byte>)
    ensures !NameLess(a, a)
    ensures NameLess(a, b) && NameLess(b, c) ==> NameLess(a, c)
    ensures NameLess(a, c) ==> NameLess(a, b) || NameLess(b, c)
    ensures !NameLess(a, b) && !NameLess(b, a) ==> a == b
    decreases |a| + |b| + |c|
  {
    if a != [] && b != [] && c != [] {
      NameOrder(a[1..], b[1..], c[1..]);
      assert a == [a[0]] + a[1..] && b == [b[0]] + b[1..];
    } else if a != [] && b != [] {
      NameOrder(a[1..], b[1..], []);
      assert a == [a[0]] + a[1..] && b == [b[0]] + b[1..];
    } else if a != [] {
      NameOrder(a[1..], [], []);
    }
  }

  lemma OrdersAreStrictWeak()
    ensures StrictWeak(InodeLess()) && StrictWeak(DentryLess())
  {
    var lt := DentryLess();
    forall x ensures !lt(x, x) { NameOrder(x.key.name, [], []); }
    forall x, y, z ensures (lt(x, y) && lt(y, z) ==> lt(x, z)) && (lt(x, z) ==> lt(x, y) || lt(y, z)) {
      NameOrder(x.key.name, y.key.name, z.key.name);
    }
  }

  // ----- one step of the iterator -----

  /** The item after cur, or the first. */
  function After<T>(lt: Less<T>, s: seq<T>, cur: Option<T>): Option<T> {
    var i := if cur.None? then 0 else Find(lt, s, cur.value).index + 1;
    if i < |s| then Some(s[i]) else None
  }

  ghost function NextQuery<T>(lt: Less<T>, cur: Option<T>): Query<T> {
    Query(lt, cur, None, true, (seen: seq<T>) => cur.Some? && seen != [] && seen[|seen| - 1] == cur.value)
  }

  /** The ascent that Next starts, with its callback that passes over the current item and stops at
      the next one. */
  lemma {:induction false} AscentFindsNext<T(!new)>(lt: Less<T>, s: seq<T>, i: int)
    requires StrictWeak(lt) && Sorted(lt, s) && -1 <= i < |s|
    ensures var cur := if i < 0 then None else Some(s[i]);
      AscendFlat(NextQuery(lt, cur), s, false, []).seen ==
        if i < 0 then (if s == [] then [] else [s[0]]) else if i + 1 < |s| then [s[i], s[i + 1]] else [s[i]]
    decreases |s|
  {
    if i > 0 {
      assert lt(s[0], s[i]);
      SortedSlice(lt, s, 1, |s|);
      assert s[1..|s|] == s[1..] && s[1..][i - 1] == s[i];
      AscentFindsNext(lt, s[1..], i - 1);
    } else if i == 0 {
      var q := NextQuery(lt, Some(s[0]));
      assert [] + [s[0]] == [s[0]];
      assert q.go([s[0]]);
      if |s| > 1 {
        assert lt(s[0], s[1]) && s[1..][0] == s[1];
        assert [s[0]] + [s[1]] == [s[0], s[1]];
        assert !q.go([s[0], s[1]]);
      }
    } else if s != [] {
      assert [] + [s[0]] == [s[0]];
    }
  }

  lemma AfterIs<T(!new)>(lt: Less<T>, s: seq<T>, i: int)
    requires StrictWeak(lt) && Sorted(lt, s) && -1 <= i < |s|
    ensures After(lt, s, if i < 0 then None else Some(s[i])) == if i + 1 < |s| then Some(s[i + 1]) else None
  {
    if i >= 0 { GetByMember(lt, s, s[i], i); }
  }

  // ----- the iterator -----

  function InodeFrame(x: InodeItem): seq<Byte>
    requires InodeFits(x.ino)
  {
    ItemBytes(MetaItem(OP_CREATE_INODE, Be(x.id, 8), InodeBytes(x.ino)))
  }

  function DentryFrame(x: DentryItem): seq<Byte> {
    ItemBytes(MetaItem(OP_CREATE_DENTRY, DentryKeyBytes(x.key), DentryBytes(x.den)))
  }

  predicate Transferable(inos: seq<InodeItem>, dens: seq<DentryItem>) {
    && (forall i :: 0 <= i < |inos| ==>
          inos[i].id < UINT64 && InodeFits(inos[i].ino) && |InodeBytes(inos[i].ino)| < UINT32)
    && (forall i :: 0 <= i < |dens| ==> DentryFits(dens[i].key, dens[i].den) && |dens[i].key.name| + 8 < UINT32)
  }

  /** The k-th thing the iterator hands out; nothing stands for the end. */
  function Emitted(applyId: nat, inos: seq<InodeItem>, dens: seq<DentryItem>, k: nat): Option<seq<Byte>>
    requires Transferable(inos, dens)
  {
    if k == 0 then Some(Be(applyId, 8))
    else if k <= |inos| then Some(InodeFrame(inos[k - 1]))
    else if k <= |inos| + |dens| then Some(DentryFrame(dens[k - 1 - |inos|]))
    else None
  }

  datatype Cur = NoItem | AtInode(ino: InodeItem) | AtDentry(den: DentryItem)

  class ItemIterator {
    const applyId: nat
    const inodes: seq<InodeItem>
    const dentries: seq<DentryItem>
    const total: nat
    var cur: nat
    var curItem: Cur

    constructor (applyId: nat, inodes: seq<InodeItem>, dentries: seq<DentryItem>)
      requires Sorted(InodeLess(), inodes) && Sorted(DentryLess(), dentries) && Transferable(inodes, dentries)
      ensures Valid() && cur == 0 && this.applyId == applyId && this.inodes == inodes && this.dentries == dentries
    {
      this.applyId, this.inodes, this.dentries := applyId, inodes, dentries;
      total := |inodes| + |dentries|;
      cur, curItem := 0, NoItem;
    }

    ghost predicate Valid()
      reads this
    {
      && Sorted(InodeLess(), inodes) && Sorted(DentryLess(), dentries) && Transferable(inodes, dentries)
      && total == |inodes| + |dentries| && cur <= total + 1
      && (cur <= 1 ==> curItem == NoItem)
      && (1 < cur <= |inodes| ==> curItem == AtInode(inodes[cur - 2]))
      && (|inodes| + 1 < cur <= total ==> curItem == AtDentry(dentries[cur - 2 - |inodes|]))
    }

    /** Next: the apply id, then each inode, then each dentry, then the end. */
    method Next() returns (data: Option<seq<Byte>>)
      requires Valid()
      modifies this
      ensures Valid() && data == Emitted(applyId, inodes, dentries, old(cur))
      ensures cur == old(cur) + if data.Some? then 1 else 0
    {
      hide Sorted, Find, StrictWeak, After;
      OrdersAreStrictWeak();
      if cur > total { return None; }
      if cur == 0 {
        cur := 1;
        return Some(Be(applyId, 8));
      }
      if cur <= |inodes| {
        AfterIs(InodeLess(), inodes, cur - 2);
        var x := After(InodeLess(), inodes, if curItem.AtInode? then Some(curItem.ino) else None);
        data := Some(InodeFrame(x.value));
        cur, curItem := cur + 1, AtInode(x.value);
        return;
      }
      if cur == |inodes| + 1 { curItem := NoItem; }
      AfterIs(DentryLess(), dentries, cur - 2 - |inodes|);
      var x := After(DentryLess(), dentries, if curItem.AtDentry? then Some(curItem.den) else None);
      data := Some(DentryFrame(x.value));
      cur, curItem := cur + 1, AtDentry(x.value);
    }
  }

  // ----- the receiving side -----

  datatype Snap = Snap(applyId: nat, inodes: seq<InodeItem>, dentries: seq<DentryItem>, cursor: nat)

  /** One frame of ApplySnapshot after the first. */
  function Received(sn: Snap, frame: seq<Byte>): Option<Snap> {
    match ReadItem(frame)
    case None => None
    case Some(m) =>
      if m.op == OP_CREATE_INODE then
        match ReadUint(m.k, 8)
        case Short => None
        case Have(id, _) =>
          match ReadInode(m.v)
          case Short => None
          case Have(v, _) =>
            Some(sn.(inodes := FlatInsert(InodeLess(), sn.inodes, InodeItem(id, v)).items,
                     cursor := if sn.cursor < id then id else sn.cursor))
      else if m.op == OP_CREATE_DENTRY then
        match ReadDentryKey(m.k)
        case None => None
        case Some(k) =>
          match ReadDentry(m.v)
          case None => None
          case Some(d) => Some(sn.(dentries := FlatInsert(DentryLess(), sn.dentries, DentryItem(k, d)).items))
      else None
  }

  function ReceivedAll(sn: Snap, frames: seq<seq<Byte>>): Option<Snap>
    decreases |frames|
  {
    if frames == [] then Some(sn) else
      match ReceivedAll(sn, frames[..|frames| - 1]) case None => None case Some(t) => Received(t, frames[|frames| - 1])
  }

  /** What a complete sequence of frames stands for, if every one of them can be read. */
  function Accepted(frames: seq<seq<Byte>>): Option<Snap>
    requires frames != [] ==> |frames[0]| >= 8
  {
    if frames == [] then Some(Snap(0, [], [], 0)) else ReceivedAll(Snap(Val(frames[0][..8]), [], [], 0), frames[1..])
  }

  /** The partition that receives a snapshot. */
  class Follower {
    var applyId: nat
    var inodeTree: seq<InodeItem>
    var dentryTree: seq<DentryItem>
    var cursor: nat

    ghost function View(): Snap
      reads this
    {
      Snap(applyId, inodeTree, dentryTree, cursor)
    }

    /** ApplySnapshot: new trees are built aside. They are swapped in, with apply id and cursor, only
        if the iterator came to its end and every frame could be read; otherwise nothing changes.
        A first frame of less than 8 bytes panics. */
    method ApplySnapshot(frames: seq<seq<Byte>>, ended: bool) returns (ok: bool)
      requires frames != [] ==> |frames[0]| >= 8
      modifies this
      ensures ok <==> ended && Accepted(frames).Some?
      ensures ok ==> View() == Accepted(frames).value
      ensures !ok ==> View() == old(View())
    {
      hide Received;
      var sn := Snap(0, [], [], 0);
      var i := 0;
      while i < |frames|
        invariant i <= |frames| && (i == 0 ==> sn == Snap(0, [], [], 0)) && View() == old(View())
        invariant i > 0 ==> ReceivedAll(Snap(Val(frames[0][..8]), [], [], 0), frames[1..i]) == Some(sn)
      {
        if i == 0 {
          sn := Snap(Val(frames[0][..8]), [], [], 0);
        } else {
          var next := Received(sn, frames[i]);
          assert frames[1..i + 1][..i - 1] == frames[1..i];
          if next.None? {
            assert frames[1..][..i] == frames[1..i + 1];
            Stuck(Snap(Val(frames[0][..8]), [], [], 0), frames[1..], i);
            return false;
          }
          sn := next.value;
        }
        i := i + 1;
      }
      if !ended { return false; }
      assert frames != [] ==> frames[1..i] == frames[1..];
      applyId, inodeTree, dentryTree, cursor := sn.applyId, sn.inodes, sn.dentries, sn.cursor;
      ok := true;
    }
  }

  lemma {:induction false} Stuck(sn: Snap, frames: seq<seq<Byte>>, i: nat)
    requires i <= |frames| && ReceivedAll(sn, frames[..i]).None?
    ensures ReceivedAll(sn, frames).None?
    decreases |frames| - i
  {
    hide Received;
    if i == |frames| {
      assert frames[..i] == frames;
    } else {
      assert frames[..i + 1][..i] == frames[..i];
      Stuck(sn, frames, i + 1);
    }
  }

  // ----- the round trip -----

  function StoredItem(x: InodeItem): InodeItem { InodeItem(x.id, Stored(x.ino)) }

  function StoredItems(inos: seq<InodeItem>): (r: seq<InodeItem>)
    ensures |r| == |inos|
  {
    seq(|inos|, i requires 0 <= i < |inos| => StoredItem(inos[i]))
  }

  lemma InsertLast<T(!new)>(lt: Less<T>, s: seq<T>, x: T)
    requires StrictWeak(lt) && Sorted(lt, s + [x])
    ensures FlatInsert(lt, s, x).items == s + [x]
  {
    forall i | 0 <= i < |s| ensures lt(s[i], x) { assert (s + [x])[i] == s[i] && (s + [x])[|s|] == x; }
    forall i, j | 0 <= i < j < |s| ensures lt(s[i], s[j]) { assert (s + [x])[i] == s[i] && (s + [x])[j] == s[j]; }
    FindIsSlot(lt, s, x);
    SlotUnique(lt, s, x, Find(lt, s, x), Orders.Slot(|s|, false));
    assert s[..|s|] == s && s[|s|..] == [];
  }

  lemma InodeArrives(sn: Snap, x: InodeItem)
    requires Sorted(InodeLess(), sn.inodes + [StoredItem(x)]) && x.id < UINT64 && InodeFits(x.ino) &&
      |InodeBytes(x.ino)| < UINT32
    ensures Received(sn, InodeFrame(x)) ==
      Some(sn.(inodes := sn.inodes + [StoredItem(x)], cursor := if sn.cursor < x.id then x.id else sn.cursor))
  {
    hide ReadItem, ItemBytes, ReadInode, InodeBytes, ReadUint, Be, Val, Sorted, StrictWeak, FlatInsert, InodeFits,
      Stored;
    OrdersAreStrictWeak();
    var m := MetaItem(OP_CREATE_INODE, Be(x.id, 8), InodeBytes(x.ino));
    ItemRoundTrip(m);
    Widths();
    assert Be(x.id, 8) == Be(x.id, 8) + [];
    ReadUintOf(x.id, 8, []);
    ReadInodeOf(x.ino);
    InsertLast(InodeLess(), sn.inodes, StoredItem(x));
  }

  lemma DentryArrives(sn: Snap, x: DentryItem)
    requires Sorted(DentryLess(), sn.dentries + [x]) && DentryFits(x.key, x.den) && |x.key.name| + 8 < UINT32
    ensures Received(sn, DentryFrame(x)) == Some(sn.(dentries := sn.dentries + [x]))
  {
    hide ReadItem, ItemBytes, ReadDentry, ReadDentryKey, Be, Val, Sorted, StrictWeak, FlatInsert;
    OrdersAreStrictWeak();
    ItemRoundTrip(MetaItem(OP_CREATE_DENTRY, DentryKeyBytes(x.key), DentryBytes(x.den)));
    DentryRoundTrip(x.key, x.den);
    InsertLast(DentryLess(), sn.dentries, x);
  }

  function LastId(inos: seq<InodeItem>): nat { if inos == [] then 0 else inos[|inos| - 1].id }

  function Frames(applyId: nat, inos: seq<InodeItem>, dens: seq<DentryItem>): (fs: seq<seq<Byte>>)
    requires Transferable(inos, dens)
    ensures |fs| == 1 + |inos| + |dens|
  {
    seq(1 + |inos| + |dens|, k requires 0 <= k < 1 + |inos| + |dens| => Emitted(applyId, inos, dens, k).value)
  }

  lemma {:induction false} InodesArrive(applyId: nat, inos: seq<InodeItem>, dens: seq<DentryItem>, n: nat)
    requires Transferable(inos, dens) && Sorted(InodeLess(), inos) && n <= |inos|
    ensures ReceivedAll(Snap(applyId, [], [], 0),
      Frames(applyId, inos, dens)[1..1 + n]) == Some(Snap(applyId, StoredItems(inos[..n]), [], LastId(inos[..n])))
    decreases n
  {
    hide Received, InodeFrame, DentryFrame, Be, Stored, InodeFits, InodeBytes;
    var fs := Frames(applyId, inos, dens);
    if n > 0 {
      InodesArrive(applyId, inos, dens, n - 1);
      assert fs[1..1 + n][..n - 1] == fs[1..n] && fs[1..1 + n][n - 1] == InodeFrame(inos[n - 1]);
      var front := StoredItems(inos[..n - 1]);
      assert StoredItems(inos[..n]) == front + [StoredItem(inos[n - 1])];
      forall i, j | 0 <= i < j < n
        ensures InodeLess()(StoredItems(inos[..n])[i], StoredItems(inos[..n])[j])
      {
        assert InodeLess()(inos[i], inos[j]);
      }
      if n > 1 { assert InodeLess()(inos[n - 2], inos[n - 1]); }
      InodeArrives(Snap(applyId, front, [], LastId(inos[..n - 1])), inos[n - 1]);
    }
  }

  lemma {:induction false} DentriesArrive(applyId: nat, inos: seq<InodeItem>, dens: seq<DentryItem>, n: nat)
    requires Transferable(inos, dens) && Sorted(InodeLess(), inos) && Sorted(DentryLess(), dens) && n <= |dens|
    ensures ReceivedAll(Snap(applyId, [], [], 0), Frames(applyId, inos, dens)[1..1 + |inos| + n])
      == Some(Snap(applyId, StoredItems(inos), dens[..n], LastId(inos)))
    decreases n
  {
    hide Received, InodeFrame, DentryFrame, Be, StoredItems, InodeFits, InodeBytes, DentryLess;
    var fs, m := Frames(applyId, inos, dens), |inos|;
    if n == 0 {
      InodesArrive(applyId, inos, dens, m);
      assert inos[..m] == inos && dens[..0] == [];
    } else {
      DentriesArrive(applyId, inos, dens, n - 1);
      assert fs[1..1 + m + n][..m + n - 1] == fs[1..m + n] && fs[1..1 + m + n][m + n - 1] == DentryFrame(dens[n - 1]);
      assert dens[..n] == dens[..n - 1] + [dens[n - 1]];
      SortedSlice(DentryLess(), dens, 0, n);
      assert dens[0..n] == dens[..n];
      DentryArrives(Snap(applyId, StoredItems(inos), dens[..n - 1], LastId(inos)), dens[n - 1]);
    }
  }

  /** A snapshot taken from quiescent trees and applied elsewhere: the same apply id, the same
      dentries, the inodes as their codec stores them, and the cursor at the last inode. */
  lemma SnapshotTransfers(applyId: nat, inos: seq<InodeItem>, dens: seq<DentryItem>)
    requires applyId < UINT64 && Transferable(inos, dens) && Sorted(InodeLess(), inos) && Sorted(DentryLess(), dens)
    ensures var fs := Frames(applyId, inos, dens);
      |fs[0]| >= 8 && Accepted(fs) == Some(Snap(applyId, StoredItems(inos), dens, LastId(inos)))
  {
    hide Received, InodeFrame, DentryFrame, Be, Val, StoredItems, InodeFits, InodeBytes;
    var fs := Frames(applyId, inos, dens);
    Widths();
    ValOfBe(applyId, 8);
    assert fs[0] == Be(applyId, 8) && fs[0][..8] == fs[0];
    DentriesArrive(applyId, inos, dens, |dens|);
    assert fs[1..1 + |inos| + |dens|] == fs[1..] && dens[..|dens|] == dens;
  }

  /** The transfer is exact if and only if no inode has extents of total size zero. */
  lemma TransferExact(inos: seq<InodeItem>)
    ensures StoredItems(inos) == inos <==>
      forall i :: 0 <= i < |inos| ==> inos[i].ino.extents == [] || Sum(inos[i].ino.extents) % UINT64 != 0
  {
    hide Sum;
    if StoredItems(inos) == inos {
      forall i | 0 <= i < |inos| ensures inos[i].ino.extents == [] || Sum(inos[i].ino.extents) % UINT64 != 0 {
        assert StoredItems(inos)[i] == inos[i];
      }
    }
    if forall i :: 0 <= i < |inos| ==> inos[i].ino.extents == [] || Sum(inos[i].ino.extents) % UINT64 != 0 {
      forall i | 0 <= i < |inos| ensures StoredItem(inos[i]) == inos[i] { var v := inos[i].ino.(extents := []); }
      assert StoredItems(inos) == inos;
    }
  }

  // ----- readDir -----

  const UINT64_MAX := 0xFFFF_FFFF_FFFF_FFFF

  ghost function DirQuery(parent: nat): Query<DentryItem> {
    Query(DentryLess(), Some(DentryItem(DentryKey(parent, []), Dentry(0, 0))),
          Some(DentryItem(DentryKey((parent + 1) % UINT64, []), Dentry(0, 0))), true, (seen: seq<DentryItem>) => true)
  }

  ghost function EntriesOf(s: seq<DentryItem>, parent: nat): seq<DentryItem> {
    if s == [] then [] else (if s[0].key.parent == parent then [s[0]] else []) + EntriesOf(s[1..], parent)
  }

  lemma {:induction false} DeliverAll<T>(go: seq<T> -> bool, cands: seq<T>, seen: seq<T>)
    requires forall s :: go(s)
    ensures Deliver(go, cands, seen) == seen + cands
    decreases |cands|
  {
    if cands != [] {
      DeliverAll(go, cands[1..], seen + [cands[0]]);
      assert seen + [cands[0]] + cands[1..] == seen + cands;
    }
  }

  lemma {:induction false} DirFilter(s: seq<DentryItem>, parent: nat)
    requires parent <= UINT64_MAX
    ensures SelectUp(DirQuery(parent), s) == if parent < UINT64_MAX then EntriesOf(s, parent) else []
    decreases |s|
  {
    if s != [] {
      DirFilter(s[1..], parent);
      var q := DirQuery(parent);
      assert InRangeUp(q, s[0]) <==> parent <= s[0].key.parent && s[0].key.parent < (parent + 1) % UINT64;
    }
  }

  /** readDir lists exactly the entries of one directory, in name order, for every parent but the
      largest, for which the upper bound wraps to 0 and nothing is listed. */
  lemma ReadDirListsOneDirectory(s: seq<DentryItem>, parent: nat)
    requires Sorted(DentryLess(), s) && parent <= UINT64_MAX
    ensures AscendFlat(DirQuery(parent), s, false, []).seen == if parent < UINT64_MAX then EntriesOf(s, parent) else []
  {
    hide AscendFlat, SelectUp, EntriesOf, Sorted, StrictWeak;
    OrdersAreStrictWeak();
    var q := DirQuery(parent);
    AscendIsFilter(q, s);
    DeliverAll(q.go, SelectUp(q, s), []);
    assert [] + SelectUp(q, s) == SelectUp(q, s);
    DirFilter(s, parent);
  }
}
