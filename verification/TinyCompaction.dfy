/** Compaction of a tiny-object chunk with deletes going on (storage/chunk.go): the index is walked
    while tombstones are still appended to it, live objects are copied to a new data file, and at
    commit the tombstones the walk did not reach are carried over. */
module TinyCompaction {
  import opened BigEndian
  import opened TinyIndex

  /** The chunk during compaction. `moved` and `mark` only record what happened: the objects copied,
      and the position after the last record that led to an entry of the new index. */
  datatype Chunk = Chunk(
    log: seq<Object>,          // the old index file
    tree: map<nat, Object>,    // the live tree; copying an object overwrites its offset here
    data: seq<Byte>,
    read: nat,                 // records read so far, at most BATCH at a time
    eof: bool,                 // the last read was short
    pos: nat,                  // records walked
    newIdx: seq<Object>,
    newData: seq<Byte>,
    deleted: set<nat>,         // deletedSet
    moved: set<nat>,
    mark: nat)

  /** Records that one read gets when n are left. */
  function Batch(n: nat): nat { if n < BATCH then n else BATCH }

  /** The compaction begins with the first read of WalkIndexFile. */
  function Start(log: seq<Object>, data: seq<Byte>): Chunk {
    Chunk(log, Replay(log), data, Batch(|log|), |log| < BATCH, 0, [], [], {}, {}, 0)
  }

  /** The next read: it may get tombstones written since the last one. */
  function ReadMore(c: Chunk): Chunk
    requires c.read <= |c.log|
  {
    c.(read := c.read + Batch(|c.log| - c.read), eof := |c.log| - c.read < BATCH)
  }

  /** The walk is over: the last read was short and its records are done. */
  predicate Walked(c: Chunk) { c.eof && c.pos == c.read }

  /** Object.Check. */
  predicate Check(o: Object, r: Object) {
    o.oid != 0 && o.offset == r.offset && o.crc == r.crc && (o.size == r.size || Tomb(r))
  }

  predicate Copies(c: Chunk)
    requires c.pos < |c.log|
  {
    var r := c.log[c.pos];
    !(Tomb(r) && r.oid !in c.deleted) && r.oid in c.tree && Check(c.tree[r.oid], r)
  }

  function Slice(data: seq<Byte>, o: Object): seq<Byte>
    requires o.offset + o.size <= |data|
  {
    data[o.offset..o.offset + o.size]
  }

  /** The callback of copyValidData, on the record at pos. */
  function WalkOne(c: Chunk): Chunk
    requires c.pos < |c.log| && (Copies(c) ==>
      c.tree[c.log[c.pos].oid].offset + c.tree[c.log[c.pos].oid].size <= |c.data|)
  {
    var r := c.log[c.pos];
    if Tomb(r) && r.oid !in c.deleted then
      c.(newIdx := c.newIdx + [r], deleted := c.deleted + {r.oid}, pos := c.pos + 1, mark := c.pos + 1)
    else if !Copies(c) then
      c.(pos := c.pos + 1)
    else
      var o := c.tree[r.oid];
      var o' := o.(offset := |c.newData|);
      c.(newData := c.newData + Slice(c.data, o), tree := c.tree[r.oid := o'], newIdx := c.newIdx + [o'],
         pos := c.pos + 1, mark := c.pos + 1, moved := c.moved + {r.oid})
  }

  /** The callback for one record, field by field. A tombstone is passed on the first time. Any other
      record makes the live object of its id, with the offset and checksum of the record and with its
      size unless the record is a tombstone, move to the end of the new file with its bytes. */
  lemma WalkExactly(c: Chunk)
    requires c.pos < |c.log|
    requires Copies(c) ==> c.tree[c.log[c.pos].oid].offset + c.tree[c.log[c.pos].oid].size <= |c.data|
    ensures var r, w := c.log[c.pos], WalkOne(c);
      && w.pos == c.pos + 1 && w.log == c.log && w.data == c.data && w.read == c.read && w.eof == c.eof
      && if r.size == 0xFFFF_FFFF && r.oid !in c.deleted then
           w.newIdx == c.newIdx + [r] && r.oid in w.deleted && w.tree == c.tree && w.newData == c.newData
         else if r.oid in c.tree && c.tree[r.oid].oid != 0 && c.tree[r.oid].offset == r.offset
             && c.tree[r.oid].crc == r.crc && (c.tree[r.oid].size == r.size || r.size == 0xFFFF_FFFF) then
           var o := c.tree[r.oid].(offset := |c.newData|);
           && w.newIdx == c.newIdx + [o] && w.tree == c.tree[r.oid := o] && w.deleted == c.deleted
           && w.newData == c.newData + c.data[r.offset..r.offset + o.size]
         else w.newIdx == c.newIdx && w.tree == c.tree && w.newData == c.newData && w.deleted == c.deleted
  {
  }

  /** A read gets 1024 records, or what is left; the walk ends at the first that gets fewer. */
  lemma ReadExactly(c: Chunk)
    requires c.read <= |c.log|
    ensures var w := ReadMore(c);
      && w.read == (if |c.log| - c.read < 1024 then |c.log| else c.read + 1024)
      && (w.eof <==> w.read < c.read + 1024)
  {
  }

  /** A delete that comes in between: the tombstone has the offset the tree has at that moment. */
  function DeleteOne(c: Chunk, oid: nat): Chunk {
    if oid in c.tree then c.(log := c.log + [c.tree[oid].(size := TOMBSTONE)], tree := c.tree - {oid}) else c
  }

  // ----- the last record of a live object -----

  ghost predicate LiveAt(log: seq<Object>, x: nat, p: nat) {
    p < |log| && log[p].oid == x && !Tomb(log[p]) && forall q :: p < q < |log| ==> log[q].oid != x
  }

  lemma {:induction false} LiveRecord(log: seq<Object>, x: nat) returns (p: nat)
    requires x in Replay(log)
    ensures LiveAt(log, x, p) && log[p] == Replay(log)[x] && x > 0
    decreases |log|
  {
    var n := |log| - 1;
    if log[n].oid == x {
      p := n;
    } else {
      p := LiveRecord(log[..n], x);
    }
  }

  lemma LiveUnique(log: seq<Object>, x: nat, p: nat, q: nat)
    requires LiveAt(log, x, p) && LiveAt(log, x, q)
    ensures p == q
  {
  }

  /** The sets of one object are at different offsets. */
  ghost predicate SetsApart(log: seq<Object>) {
    forall i, j :: 0 <= i < j < |log| && log[i].oid == log[j].oid && !Tomb(log[i]) && !Tomb(log[j]) ==>
      log[i].offset != log[j].offset
  }

  ghost predicate Tombed(log: seq<Object>, x: nat) {
    exists p :: 0 <= p < |log| && Tomb(log[p]) && log[p].oid == x
  }

  /** No live object has a tombstone from an earlier life. */
  ghost predicate NoneBuried(log: seq<Object>) {
    forall x :: x in Replay(log) ==> !Tombed(log, x)
  }

  ghost predicate InFile(log: seq<Object>, data: seq<Byte>) {
    forall x :: x in Replay(log) ==> Replay(log)[x].offset + Replay(log)[x].size <= |data|
  }

  ghost predicate ValidStart(log: seq<Object>, data: seq<Byte>) {
    SetsApart(log) && NoneBuried(log) && InFile(log, data)
  }

  // ----- the invariant -----

  /** The log grows by tombstones of objects that were live at the start, one each. */
  ghost predicate LogInv(log0: seq<Object>, c: Chunk) {
    && |log0| <= |c.log| && c.log[..|log0|] == log0 && c.mark <= c.pos <= c.read <= |c.log| &&
       (c.eof ==> |log0| <= c.read)
    && (forall q :: |log0| <= q < |c.log| ==> TailOk(log0, c, c.log[q]))
    && (forall q, r :: |log0| <= q < r < |c.log| ==> c.log[q].oid != c.log[r].oid)
  }

  ghost predicate TailOk(log0: seq<Object>, c: Chunk, r: Object) {
    Tomb(r) && r.oid in Replay(log0) && r.oid !in c.tree
  }

  /** Object x in the tree is what it was at the start, except that a moved one stands in the new
      index and has its bytes at its new offset. */
  ghost predicate TreeOk(log0: seq<Object>, c: Chunk, x: nat)
    requires x in c.tree
  {
    && x in Replay(log0)
    && c.tree[x].(offset := 0) == Replay(log0)[x].(offset := 0)
    && (if x in c.moved then x in Replay(c.newIdx) && Replay(c.newIdx)[x] == c.tree[x] && BytesMoved(log0, c, x)
        else c.tree[x] == Replay(log0)[x] && x !in Replay(c.newIdx))
  }

  ghost predicate BytesMoved(log0: seq<Object>, c: Chunk, x: nat)
    requires x in c.tree && x in Replay(log0)
  {
    && c.tree[x].offset + c.tree[x].size <= |c.newData|
    && Replay(log0)[x].offset + Replay(log0)[x].size <= |c.data|
    && Slice(c.newData, c.tree[x]) == Slice(c.data, Replay(log0)[x])
  }

  /** Moved objects were met by the walk; live ones not moved are still ahead. */
  ghost predicate WalkInv(log0: seq<Object>, c: Chunk) {
    && (forall x :: x in c.moved ==> x in Replay(log0))
    && (forall x, p: nat :: x in c.moved && LiveAt(log0, x, p) ==> p < c.mark)
    && (forall x, p: nat :: x in c.tree && x !in c.moved && LiveAt(log0, x, p) ==> c.pos <= p)
  }

  /** An object of the new index that is not live any more has its tombstone after the mark. */
  ghost predicate Pending(log0: seq<Object>, c: Chunk, x: nat) {
    exists q :: |log0| <= q < |c.log| && c.mark <= q && c.log[q].oid == x
  }

  ghost predicate NewInv(log0: seq<Object>, c: Chunk)
    requires c.mark <= c.pos <= |c.log|
  {
    && (forall x :: x in Replay(c.newIdx) ==> x in c.moved && (x !in c.tree ==> Pending(log0, c, x)))
    && (forall x :: x in c.deleted <==> Tombed(c.log[..c.pos], x))
    && (c.newIdx == [] <==> c.mark == 0)
    && (c.newIdx != [] && Tomb(c.newIdx[|c.newIdx| - 1]) ==> c.newIdx[|c.newIdx| - 1] == c.log[c.mark - 1])
  }

  /** The walk passes over no new tombstone. */
  ghost predicate SkipInv(log0: seq<Object>, c: Chunk) {
    |log0| < c.pos ==> c.mark == c.pos
  }

  ghost predicate Inv(log0: seq<Object>, c: Chunk) {
    && ValidStart(log0, c.data) && LogInv(log0, c) && WalkInv(log0, c) && SkipInv(log0, c)
    && (forall x :: x in c.tree ==> TreeOk(log0, c, x))
    && NewInv(log0, c)
  }

  lemma StartOk(log0: seq<Object>, data: seq<Byte>)
    requires ValidStart(log0, data)
    ensures Inv(log0, Start(log0, data))
  {
    var c := Start(log0, data);
    assert c.log[..|log0|] == log0;
    NoReplay();
  }

  // ----- each step keeps it -----

  lemma DeleteKeeps(log0: seq<Object>, c: Chunk, oid: nat)
    requires Inv(log0, c)
    ensures Inv(log0, DeleteOne(c, oid))
  {
    hide Replay, ValidStart, TreeOk, LiveAt, Tombed, Pending, TailOk;
    var c' := DeleteOne(c, oid);
    if oid in c.tree {
      assert TreeOk(log0, c, oid);
      var n := |c.log|;
      DeletedTail(log0, c, oid);
      assert c'.log[..c.pos] == c.log[..c.pos];
      assert c'.log[..|log0|] == log0;
      forall x | x in c'.tree ensures TreeOk(log0, c', x) { SameTreeOk(log0, c, c', x); }
      forall x | x in Replay(c'.newIdx) && x !in c'.tree
        ensures Pending(log0, c', x)
      {
        DeletedPending(log0, c, oid, x);
      }
    }
  }

  lemma SameTreeOk(log0: seq<Object>, c: Chunk, c': Chunk, x: nat)
    requires x in c.tree && x in c'.tree && c'.tree[x] == c.tree[x] && TreeOk(log0, c, x)
    requires c'.newIdx == c.newIdx && c'.moved == c.moved && c'.newData == c.newData && c'.data == c.data
    ensures TreeOk(log0, c', x)
  {
  }

  lemma DeletedTail(log0: seq<Object>, c: Chunk, oid: nat)
    requires oid in c.tree && TreeOk(log0, c, oid) && LogInv(log0, c)
    ensures c.tree[oid].oid == oid
    ensures var c' := DeleteOne(c, oid);
      forall q :: |log0| <= q < |c'.log| ==>
        TailOk(log0, c', c'.log[q]) && (q < |c.log| ==> c'.log[q].oid != oid) && c'.log[|c.log|].oid == oid
  {
    hide Replay;
    ReplayKeys(log0);
    var c' := DeleteOne(c, oid);
    forall q | |log0| <= q < |c'.log| ensures TailOk(log0, c', c'.log[q]) && (q < |c.log| ==> c'.log[q].oid != oid) {
      if q < |c.log| { assert TailOk(log0, c, c.log[q]); }
    }
  }

  lemma DeletedPending(log0: seq<Object>, c: Chunk, oid: nat, x: nat)
    requires oid in c.tree && (x != oid ==> Pending(log0, c, x)) && |log0| <= |c.log| && c.mark <= |c.log| &&
      c.tree[oid].oid == oid
    ensures Pending(log0, DeleteOne(c, oid), x)
  {
    var c', n := DeleteOne(c, oid), |c.log|;
    if x == oid {
      assert |log0| <= n < |c'.log| && c'.mark <= n && c'.log[n].oid == x;
    } else {
      var q :| |log0| <= q < |c.log| && c.mark <= q && c.log[q].oid == x;
      assert c'.log[q].oid == x;
    }
  }

  lemma CanWalk(log0: seq<Object>, c: Chunk)
    requires Inv(log0, c) && c.pos < |c.log|
    ensures Copies(c) ==> c.tree[c.log[c.pos].oid].offset + c.tree[c.log[c.pos].oid].size <= |c.data|
    ensures Copies(c) ==> var x := c.log[c.pos].oid; x !in c.moved && LiveAt(log0, x, c.pos)
  {
    hide Replay;
    if Copies(c) {
      var x := c.log[c.pos].oid;
      assert TreeOk(log0, c, x);
      var p := LiveRecord(log0, x);
      AheadOnly(log0, c, x, p);
    }
  }

  /** A record of a live object x at pos, with x's offset in the tree, is x's last one. */
  lemma AheadOnly(log0: seq<Object>, c: Chunk, x: nat, p: nat)
    requires Inv(log0, c) && c.pos < |c.log| && c.log[c.pos].oid == x && x in c.tree && LiveAt(log0, x, p) &&
      log0[p] == Replay(log0)[x]
    requires c.tree[x].offset == c.log[c.pos].offset
    ensures x !in c.moved && p == c.pos
  {
    hide Replay;
    assert TreeOk(log0, c, x);
    NotInTail(log0, c, c.pos);
    assert c.log[c.pos] == c.log[..|log0|][c.pos];
    assert log0[c.pos].oid == x;
    assert x in c.moved ==> p < c.mark;
    assert c.pos <= p;
    assert log0[p].oid == x && !Tomb(log0[p]) && log0[p].offset == log0[c.pos].offset;
    assert Tomb(log0[c.pos]) ==> Tombed(log0, x);
  }

  lemma NotInTail(log0: seq<Object>, c: Chunk, q: nat)
    requires LogInv(log0, c) && q < |c.log| && c.log[q].oid in c.tree
    ensures q < |log0|
  {
    assert q >= |log0| ==> TailOk(log0, c, c.log[q]);
  }

  /** A tombstone met for the first time. */
  lemma WalkTomb(log0: seq<Object>, c: Chunk)
    requires Inv(log0, c) && c.pos < c.read && Tomb(c.log[c.pos]) && c.log[c.pos].oid !in c.deleted
    ensures Inv(log0, WalkOne(c))
  {
    hide Replay, ValidStart, TreeOk, LiveAt, Tombed, Pending, TailOk;
    var c', r := WalkOne(c), c.log[c.pos];
    ReplaySnoc(c.newIdx, r);
    TombStep(c.log, c.pos);
    assert LogInv(log0, c') by {
      forall q | |log0| <= q < |c'.log|
        ensures TailOk(log0, c', c'.log[q])
      {
        SameTailOk(log0, c, c', c.log[q]);
      }
    }
    forall x | x in c'.tree ensures TreeOk(log0, c', x) { TombTreeOk(log0, c, x); }
    forall x, p: nat | x in c'.tree && x !in c'.moved && LiveAt(log0, x, p)
      ensures c'.pos <= p
    {
      NotThere(log0, c, x, p);
    }
    forall x | x in Replay(c'.newIdx) ensures x in c'.moved && (x !in c'.tree ==> Pending(log0, c', x)) {
      if x !in c'.tree { TombPending(log0, c, x); }
    }
  }

  lemma SameTailOk(log0: seq<Object>, c: Chunk, c': Chunk, r: Object)
    requires TailOk(log0, c, r) && c'.moved == c.moved && c'.tree == c.tree
    ensures TailOk(log0, c', r)
  {
  }

  lemma TombStep(log: seq<Object>, pos: nat)
    requires pos < |log|
    ensures forall x :: Tombed(log[..pos + 1], x) <==> Tombed(log[..pos], x) || (Tomb(log[pos]) && log[pos].oid == x)
  {
    forall x ensures Tombed(log[..pos + 1], x) <==> Tombed(log[..pos], x) || (Tomb(log[pos]) && log[pos].oid == x) {
      if Tombed(log[..pos], x) {
        var p :| 0 <= p < pos && Tomb(log[..pos][p]) && log[..pos][p].oid == x;
        assert Tomb(log[..pos + 1][p]) && log[..pos + 1][p].oid == x;
      }
      if Tombed(log[..pos + 1], x) {
        var p :| 0 <= p < pos + 1 && Tomb(log[..pos + 1][p]) && log[..pos + 1][p].oid == x;
        if p < pos { assert Tomb(log[..pos][p]) && log[..pos][p].oid == x; }
      }
      assert log[..pos + 1][pos] == log[pos];
    }
  }

  /** The record at pos is not the last record of an unmoved live object, being a tombstone or not
      matching the tree. */
  lemma NotThere(log0: seq<Object>, c: Chunk, x: nat, p: nat)
    requires Inv(log0, c) && c.pos < |c.log| && !Copies(c) && x in c.tree && x !in c.moved && LiveAt(log0, x, p)
    ensures c.pos < p
  {
    hide Replay;
    assert c.pos <= p;
    assert TreeOk(log0, c, x);
    var p' := LiveRecord(log0, x);
    LiveUnique(log0, x, p, p');
    assert log0[p] == c.log[..|log0|][p] == c.log[p];
    ReplayKeys(log0);
  }

  lemma TombTreeOk(log0: seq<Object>, c: Chunk, x: nat)
    requires Inv(log0, c) && c.pos < |c.log| && Tomb(c.log[c.pos]) && c.log[c.pos].oid !in c.deleted && x in c.tree
    ensures TreeOk(log0, WalkOne(c), x)
  {
    hide Replay, ValidStart, NewInv;
    var r := c.log[c.pos];
    ReplaySnoc(c.newIdx, r);
    assert TreeOk(log0, c, x);
    var p := LiveRecord(log0, x);
    assert x in c.moved ==> p < c.mark;
    assert r.oid == x && c.pos < |log0| ==> log0[c.pos] == c.log[..|log0|][c.pos];
    if r.oid == x { NotInTail(log0, c, c.pos); }
  }

  /** Writing a tombstone to the new index hides no older pending one: those were all written. */
  lemma TombPending(log0: seq<Object>, c: Chunk, y: nat)
    requires Inv(log0, c) && c.pos < |c.log| && Tomb(c.log[c.pos]) && c.log[c.pos].oid !in c.deleted
    requires y != c.log[c.pos].oid && Pending(log0, c, y) && y !in c.tree
    ensures Pending(log0, WalkOne(c), y)
  {
    var c' := WalkOne(c);
    var q :| |log0| <= q < |c.log| && c.mark <= q && c.log[q].oid == y;
    NotSkipped(log0, c, q);
    assert c'.log[q].oid == y;
  }

  lemma NotSkipped(log0: seq<Object>, c: Chunk, q: nat)
    requires Inv(log0, c) && |log0| <= q < |c.log| && c.mark <= q
    ensures c.pos <= q
  {
  }

  /** Past the old log, a tombstone of the old log is in the deleted set. */
  lemma WalkedIn(log0: seq<Object>, c: Chunk, x: nat)
    requires LogInv(log0, c) && |log0| <= c.pos
    ensures Tombed(log0, x) ==> Tombed(c.log[..c.pos], x)
  {
    if Tombed(log0, x) {
      var p :| 0 <= p < |log0| && Tomb(log0[p]) && log0[p].oid == x;
      assert c.log[..|log0|][p] == log0[p];
      assert c.log[..c.pos][p] == log0[p];
    }
  }

  /** A record passed over. */
  lemma WalkSkip(log0: seq<Object>, c: Chunk)
    requires Inv(log0, c) && c.pos < c.read && !(Tomb(c.log[c.pos]) && c.log[c.pos].oid !in c.deleted) && !Copies(c)
    ensures Inv(log0, WalkOne(c))
  {
    hide Replay, ValidStart, TreeOk, LiveAt, Tombed, Pending, TailOk, Copies;
    var c', r := WalkOne(c), c.log[c.pos];
    TombStep(c.log, c.pos);
    assert LogInv(log0, c') by {
      forall q | |log0| <= q < |c'.log|
        ensures TailOk(log0, c', c'.log[q])
      {
        SameTailOk(log0, c, c', c.log[q]);
      }
    }
    forall x | x in c'.tree ensures TreeOk(log0, c', x) { SameTreeOk(log0, c, c', x); }
    forall x, p: nat | x in c'.tree && x !in c'.moved && LiveAt(log0, x, p)
      ensures c'.pos <= p
    {
      NotThere(log0, c, x, p);
    }
    forall x | x in Replay(c'.newIdx) && x !in c'.tree ensures Pending(log0, c', x) { SamePending(log0, c, c', x); }
    if |log0| <= c.pos { TailEmitted(log0, c); }
  }

  lemma SamePending(log0: seq<Object>, c: Chunk, c': Chunk, x: nat)
    requires Pending(log0, c, x) && c'.log == c.log && c'.mark == c.mark
    ensures Pending(log0, c', x)
  {
  }

  /** A new tombstone is the first of its object, so it goes to the new index. */
  lemma TailEmitted(log0: seq<Object>, c: Chunk)
    requires Inv(log0, c) && |log0| <= c.pos < |c.log|
    ensures Tomb(c.log[c.pos]) && c.log[c.pos].oid !in c.deleted
  {
    hide Replay, TreeOk, WalkInv, Pending, SetsApart, InFile;
    var x := c.log[c.pos].oid;
    assert TailOk(log0, c, c.log[c.pos]);
    assert x in Replay(log0) && !Tombed(log0, x);
    forall p | 0 <= p < c.pos ensures !(Tomb(c.log[..c.pos][p]) && c.log[..c.pos][p].oid == x) {
      if p < |log0| { assert c.log[..|log0|][p] == log0[p] == c.log[p]; }
    }
  }

  /** A live object copied. */
  lemma WalkCopy(log0: seq<Object>, c: Chunk)
    requires Inv(log0, c) && c.pos < c.read && Copies(c)
    requires c.tree[c.log[c.pos].oid].offset + c.tree[c.log[c.pos].oid].size <= |c.data|
    ensures Inv(log0, WalkOne(c))
  {
    hide Replay, ValidStart, TreeOk, LiveAt, Tombed, Pending, TailOk, Check;
    var c', r := WalkOne(c), c.log[c.pos];
    var x := r.oid;
    CanWalk(log0, c);
    CopyFacts(log0, c);
    TombStep(c.log, c.pos);
    assert LogInv(log0, c') by {
      forall q | |log0| <= q < |c'.log|
        ensures TailOk(log0, c', c'.log[q])
      {
        CopyTailOk(log0, c, c.log[q]);
      }
    }
    forall y | y in c'.tree ensures TreeOk(log0, c', y) { CopyTreeOk(log0, c, y); }
    forall y, p: nat | y in c'.moved && LiveAt(log0, y, p)
      ensures p < c'.mark
    {
      if y == x { LiveUnique(log0, x, p, c.pos); }
    }
    forall y, p: nat | y in c'.tree && y !in c'.moved && LiveAt(log0, y, p)
      ensures c'.pos <= p
    {
      CopyAhead(log0, c, y, p);
    }
    forall y | y in Replay(c'.newIdx) ensures y in c'.moved && (y !in c'.tree ==> Pending(log0, c', y)) {
      if y !in c'.tree { CopyPending(log0, c, y); }
    }
  }

  /** The copied object is unmoved, its record is in the old log, and the new index gains it. */
  lemma CopyFacts(log0: seq<Object>, c: Chunk)
    requires Inv(log0, c) && c.pos < |c.log| && Copies(c) && c.log[c.pos].oid !in c.moved
    requires c.tree[c.log[c.pos].oid].offset + c.tree[c.log[c.pos].oid].size <= |c.data|
    ensures var x, c' := c.log[c.pos].oid, WalkOne(c);
      && c.pos < |log0| && x in Replay(log0) && c.tree[x] == Replay(log0)[x] && c.tree[x].oid == x && x > 0 &&
         !Tomb(c.tree[x])
      && Replay(c'.newIdx) == Replay(c.newIdx)[x := c'.tree[x]] && !Tomb(c'.tree[x])
      && !(Tomb(c.log[c.pos]) && x !in c.deleted) && c'.newIdx != []
      && (Tomb(c.log[c.pos]) ==> Tombed(c.log[..c.pos], x))
  {
    hide Replay, ValidStart, WalkInv, Tombed, Pending;
    var x := c.log[c.pos].oid;
    NotInTail(log0, c, c.pos);
    assert TreeOk(log0, c, x);
    ReplayKeys(log0);
    ReplaySnoc(c.newIdx, c.tree[x].(offset := |c.newData|));
  }

  lemma CopyTailOk(log0: seq<Object>, c: Chunk, r: Object)
    requires c.pos < |c.log| && Copies(c) && TailOk(log0, c, r)
    requires c.tree[c.log[c.pos].oid].offset + c.tree[c.log[c.pos].oid].size <= |c.data|
    ensures TailOk(log0, WalkOne(c), r)
  {
    hide Replay;
  }

  lemma CopyTreeOk(log0: seq<Object>, c: Chunk, y: nat)
    requires Inv(log0, c) && c.pos < |c.log| && Copies(c) && y in c.tree && c.log[c.pos].oid !in c.moved
    requires c.tree[c.log[c.pos].oid].offset + c.tree[c.log[c.pos].oid].size <= |c.data|
    ensures TreeOk(log0, WalkOne(c), y)
  {
    hide Replay, WalkInv, NewInv, LogInv, SkipInv, SetsApart, NoneBuried;
    var c', x := WalkOne(c), c.log[c.pos].oid;
    CopyFacts(log0, c);
    assert TreeOk(log0, c, y) && TreeOk(log0, c, x);
    if y == x {
      assert Slice(c'.newData, c'.tree[x]) == Slice(c.data, c.tree[x]);
    } else if y in c.moved {
      assert Slice(c'.newData, c.tree[y]) == Slice(c.newData, c.tree[y]);
    }
  }

  lemma CopyAhead(log0: seq<Object>, c: Chunk, y: nat, p: nat)
    requires LogInv(log0, c) && WalkInv(log0, c) && c.pos < |log0| && y in c.tree && y !in c.moved &&
      y != c.log[c.pos].oid && LiveAt(log0, y, p)
    ensures c.pos < p
  {
    hide Replay, TailOk;
    assert c.pos <= p;
    assert log0[c.pos] == c.log[..|log0|][c.pos];
  }

  lemma CopyPending(log0: seq<Object>, c: Chunk, y: nat)
    requires c.pos < |c.log| && Copies(c) && Pending(log0, c, y) && c.pos < |log0|
    requires c.tree[c.log[c.pos].oid].offset + c.tree[c.log[c.pos].oid].size <= |c.data|
    ensures Pending(log0, WalkOne(c), y)
  {
    var q :| |log0| <= q < |c.log| && c.mark <= q && c.log[q].oid == y;
    assert WalkOne(c).log[q].oid == y;
  }

  lemma InvFacts(log0: seq<Object>, c: Chunk)
    requires Inv(log0, c)
    ensures c.mark <= c.pos <= c.read <= |c.log| && (Walked(c) ==> |log0| <= c.pos)
  {
  }

  lemma WalkKeeps(log0: seq<Object>, c: Chunk)
    requires Inv(log0, c) && c.pos < c.read
    ensures Copies(c) ==> c.tree[c.log[c.pos].oid].offset + c.tree[c.log[c.pos].oid].size <= |c.data|
    ensures Inv(log0, WalkOne(c))
  {
    hide Inv, Check, WalkOne;
    InvFacts(log0, c);
    CanWalk(log0, c);
    if Tomb(c.log[c.pos]) && c.log[c.pos].oid !in c.deleted {
      WalkTomb(log0, c);
    } else if Copies(c) {
      WalkCopy(log0, c);
    } else {
      WalkSkip(log0, c);
    }
  }

  // ----- commit -----

  /** Where catchupDeleteIndex stops, reading the old index backwards: after the last record that
      is no tombstone or is the last entry of the new index. */
  function CutFrom(log: seq<Object>, last: Object): (k: nat)
    ensures k <= |log|
  {
    if log == [] then 0
    else if !Tomb(log[|log| - 1]) || log[|log| - 1] == last then |log|
    else CutFrom(log[..|log| - 1], last)
  }

  /** The index file after a commit; without any entry in the new index the commit fails. */
  function Committed(c: Chunk): seq<Object>
    requires c.newIdx != []
  {
    c.newIdx + c.log[CutFrom(c.log, c.newIdx[|c.newIdx| - 1])..]
  }

  /** catchupDeleteIndex. */
  method CatchupDeleteIndex(oldIdx: seq<Object>, newIdx: seq<Object>) returns (ok: bool, idx: seq<Object>)
    ensures ok <==> newIdx != []
    ensures ok ==> idx == newIdx + oldIdx[CutFrom(oldIdx, newIdx[|newIdx| - 1])..]
    ensures !ok ==> idx == newIdx
  {
    if |newIdx| == 0 { return false, newIdx; }
    var last := newIdx[|newIdx| - 1];
    var catchup := [];
    var n: nat := |oldIdx|;
    assert oldIdx[..n] == oldIdx;
    while n > 0
      invariant n <= |oldIdx| && catchup == oldIdx[n..]
      invariant CutFrom(oldIdx, last) == CutFrom(oldIdx[..n], last)
    {
      var r := oldIdx[n - 1];
      assert oldIdx[..n][..n - 1] == oldIdx[..n - 1];
      if r.size != TOMBSTONE || r == last { break; }
      catchup := [r] + catchup;
      n := n - 1;
    }
    assert CutFrom(oldIdx, last) == n;
    return true, newIdx + catchup;
  }

  lemma {:induction false} CutTombs(log: seq<Object>, last: Object)
    ensures forall q :: CutFrom(log, last) <= q < |log| ==> Tomb(log[q])
    decreases |log|
  {
    if log != [] {
      var n := |log| - 1;
      CutTombs(log[..n], last);
      forall q | CutFrom(log, last) <= q < |log| ensures Tomb(log[q]) { if q < n { assert log[..n][q] == log[q]; } }
    }
  }

  lemma {:induction false} CutBound(log: seq<Object>, last: Object, m: nat)
    requires m <= |log| && forall q :: m <= q < |log| ==> Tomb(log[q]) && log[q] != last
    ensures CutFrom(log, last) <= m
    decreases |log|
  {
    if m < |log| { CutBound(log[..|log| - 1], last, m); }
  }

  /** The catch-up does not stop short of a tombstone that the new index still needs. */
  lemma NotLast(log0: seq<Object>, c: Chunk, q: nat)
    requires Inv(log0, c) && c.newIdx != [] && |log0| <= q < |c.log| && c.mark <= q
    ensures Tomb(c.log[q]) && c.log[q] != c.newIdx[|c.newIdx| - 1]
  {
    hide Replay, TreeOk, Pending, SkipInv, SetsApart, InFile;
    var last, z := c.newIdx[|c.newIdx| - 1], c.log[q].oid;
    assert TailOk(log0, c, c.log[q]);
    var m := c.mark - 1;
    assert m >= |log0| ==> c.log[m].oid != c.log[q].oid;
    var p := LiveRecord(log0, z);
    if m < |log0| {
      assert c.log[..|log0|][m] == log0[m] == c.log[m];
      assert Tomb(log0[m]) && log0[m].oid == z ==> Tombed(log0, z);
    }
  }

  function OidsOf(rs: seq<Object>): set<nat> {
    set o | o in rs :: o.oid
  }

  lemma {:induction false} ReplayTombs(a: seq<Object>, tail: seq<Object>)
    requires forall q :: 0 <= q < |tail| ==> Tomb(tail[q])
    ensures Replay(a + tail) == Replay(a) - OidsOf(tail)
    decreases |tail|
  {
    if tail == [] {
      assert a + tail == a;
    } else {
      var n := |tail| - 1;
      assert a + tail == (a + tail[..n]) + [tail[n]];
      ReplaySnoc(a + tail[..n], tail[n]);
      ReplayTombs(a, tail[..n]);
      assert OidsOf(tail) == OidsOf(tail[..n]) + {tail[n].oid} by { assert tail == tail[..n] + [tail[n]]; }
    }
  }

  /** After the walk has passed the old log, the committed index replays to the tree in memory. */
  lemma CommitAgrees(log0: seq<Object>, c: Chunk)
    requires Inv(log0, c) && |log0| <= c.pos && c.newIdx != []
    ensures Replay(Committed(c)) == c.tree
    ensures forall x :: x in c.tree ==> x in c.moved && x in Replay(c.newIdx)
  {
    hide Replay, TailOk, Tombed, ValidStart, SkipInv, CutFrom;
    var last := c.newIdx[|c.newIdx| - 1];
    var k := CutFrom(c.log, last);
    var m := if c.mark < |log0| then |log0| else c.mark;
    forall q | m <= q < |c.log| ensures Tomb(c.log[q]) && c.log[q] != last { NotLast(log0, c, q); }
    CutBound(c.log, last, m);
    CutTombs(c.log, last);
    var tail := c.log[k..];
    assert forall q :: 0 <= q < |tail| ==> tail[q] == c.log[k + q];
    ReplayTombs(c.newIdx, tail);
    forall x | x in c.tree
      ensures x in c.moved && x in Replay(c.newIdx) && Replay(c.newIdx)[x] == c.tree[x] && x !in OidsOf(tail)
    {
      LiveCommitted(log0, c, x, k);
    }
    forall x | x in Replay(c.newIdx) && x !in c.tree ensures x in OidsOf(tail) {
      assert Pending(log0, c, x);
      var q :| |log0| <= q < |c.log| && c.mark <= q && c.log[q].oid == x;
      assert tail[q - k] == c.log[q];
    }
  }

  lemma LiveCommitted(log0: seq<Object>, c: Chunk, x: nat, k: nat)
    requires Inv(log0, c) && |log0| <= c.pos && x in c.tree && k <= |c.log| && forall q :: k <= q < |c.log| ==>
      Tomb(c.log[q])
    ensures x in c.moved && x in Replay(c.newIdx) && Replay(c.newIdx)[x] == c.tree[x] && x !in OidsOf(c.log[k..])
  {
    hide Replay, Tombed, ValidStart, SkipInv, NewInv;
    assert TreeOk(log0, c, x);
    var p := LiveRecord(log0, x);
    assert c.log[..|log0|][p] == log0[p] == c.log[p];
    forall o | o in c.log[k..] ensures o.oid != x {
      var q :| 0 <= q < |c.log[k..]| && c.log[k..][q] == o;
      assert c.log[k + q] == o;
      if k + q < |log0| {
        assert c.log[..|log0|][k + q] == log0[k + q];
      } else {
        assert TailOk(log0, c, c.log[k + q]);
      }
    }
  }

  // ----- object ids -----

  /** What keeps the set of object ids, and with it the largest one, unchanged. */
  ghost predicate OidInv(log0: seq<Object>, c: Chunk) {
    && |log0| <= |c.log|
    && c.deleted <= OidsOf(c.newIdx) <= OidsOf(c.log)
    && (forall x :: x in Replay(log0) && x !in c.tree ==> x in OidsOf(c.log[|log0|..]))
  }

  lemma OidsSnoc(rs: seq<Object>, o: Object)
    ensures OidsOf(rs + [o]) == OidsOf(rs) + {o.oid}
  {
  }

  lemma OidWalk(log0: seq<Object>, c: Chunk)
    requires Inv(log0, c) && OidInv(log0, c) && c.pos < |c.log|
    requires Copies(c) ==> c.tree[c.log[c.pos].oid].offset + c.tree[c.log[c.pos].oid].size <= |c.data|
    ensures OidInv(log0, WalkOne(c))
  {
    hide Replay, Inv, OidsOf;
    var c', r := WalkOne(c), c.log[c.pos];
    if Tomb(r) && r.oid !in c.deleted {
      OidsSnoc(c.newIdx, r);
      OidMember(c.log, c.pos);
    } else if Copies(c) {
      OidsSnoc(c.newIdx, c'.tree[r.oid]);
      CanWalk(log0, c);
      CopyFacts(log0, c);
      OidMember(c.log, c.pos);
    }
  }

  lemma OidMember(rs: seq<Object>, i: nat)
    requires i < |rs|
    ensures rs[i].oid in OidsOf(rs)
  {
  }

  lemma OidDelete(log0: seq<Object>, c: Chunk, oid: nat)
    requires Inv(log0, c) && OidInv(log0, c)
    ensures OidInv(log0, DeleteOne(c, oid))
  {
    hide Replay, Inv;
    if oid in c.tree {
      var t := c.tree[oid].(size := TOMBSTONE);
      assert t.oid == oid by { assert TreeOk(log0, c, oid) by { TreeOkOf(log0, c, oid); } ReplayKeys(log0); }
      OidsSnoc(c.log, t);
      assert (c.log + [t])[|log0|..] == c.log[|log0|..] + [t];
      OidsSnoc(c.log[|log0|..], t);
    }
  }

  lemma TreeOkOf(log0: seq<Object>, c: Chunk, x: nat)
    requires Inv(log0, c) && x in c.tree
    ensures TreeOk(log0, c, x)
  {
  }

  /** An object id of the old log that replay does not know has a tombstone there. */
  lemma {:induction false} GoneIsTombed(log: seq<Object>, x: nat)
    requires x > 0 && x in OidsOf(log) && x !in Replay(log)
    ensures Tombed(log, x)
    decreases |log|
  {
    var n := |log| - 1;
    if log[n].oid != x {
      assert log == log[..n] + [log[n]];
      GoneIsTombed(log[..n], x);
      var p :| 0 <= p < n && Tomb(log[..n][p]) && log[..n][p].oid == x;
      assert Tomb(log[p]) && log[p].oid == x;
    } else {
      assert Tomb(log[n]);
    }
  }

  lemma CommitOids(log0: seq<Object>, c: Chunk, x: nat)
    requires Inv(log0, c) && OidInv(log0, c) && |log0| <= c.pos && c.newIdx != [] && x > 0
    ensures x in OidsOf(Committed(c)) <==> x in OidsOf(c.log)
  {
    hide Replay, CutFrom, TreeOk, LiveAt, Tombed, Pending, TailOk, ValidStart, SkipInv;
    CommitAgrees(log0, c);
    var k := CutFrom(c.log, c.newIdx[|c.newIdx| - 1]);
    var tail := c.log[k..];
    assert OidsOf(Committed(c)) == OidsOf(c.newIdx) + OidsOf(tail);
    assert c.log == c.log[..k] + tail;
    if x in OidsOf(c.log) && x !in OidsOf(c.newIdx) {
      if x in c.tree {
        InReplay(c.newIdx, x);
      } else {
        TombInTail(log0, c, x, k);
      }
    }
  }

  lemma {:induction false} InReplay(log: seq<Object>, x: nat)
    requires x in Replay(log)
    ensures x in OidsOf(log)
  {
    var p := LiveRecord(log, x);
    OidMember(log, p);
  }

  lemma OidsSplit(a: seq<Object>, b: seq<Object>)
    ensures OidsOf(a + b) == OidsOf(a) + OidsOf(b)
  {
  }

  /** A dead object id that the new index does not have was deleted during the compaction. */
  lemma DeletedSince(log0: seq<Object>, c: Chunk, x: nat)
    requires Inv(log0, c) && OidInv(log0, c) && |log0| <= c.pos && x > 0
    requires x in OidsOf(c.log) && x !in OidsOf(c.newIdx) && x !in c.tree
    ensures x in OidsOf(c.log[|log0|..])
  {
    hide Replay, TreeOk, LiveAt, Pending, ValidStart, SkipInv, OidsOf, Tombed, TailOk;
    assert c.log == log0 + c.log[|log0|..];
    OidsSplit(log0, c.log[|log0|..]);
    WalkedIn(log0, c, x);
    if x in OidsOf(log0) && x !in Replay(log0) { GoneIsTombed(log0, x); }
  }

  /** A dead object id whose tombstone was not written to the new index has it in the tail. */
  lemma TombInTail(log0: seq<Object>, c: Chunk, x: nat, k: nat)
    requires Inv(log0, c) && OidInv(log0, c) && |log0| <= c.pos && c.newIdx != [] && x > 0
    requires x in OidsOf(c.log) && x !in OidsOf(c.newIdx) && x !in c.tree
    requires k == CutFrom(c.log, c.newIdx[|c.newIdx| - 1])
    ensures x in OidsOf(c.log[k..])
  {
    hide Replay, CutFrom, TreeOk, LiveAt, Pending, ValidStart, SkipInv, Tombed;
    DeletedSince(log0, c, x);
    var q :| 0 <= q < |c.log[|log0|..]| && c.log[|log0|..][q].oid == x;
    var i := |log0| + q;
    assert c.log[i].oid == x && TailOk(log0, c, c.log[i]);
    if i < c.pos { PrefixTomb(c, i); }
    var last := c.newIdx[|c.newIdx| - 1];
    forall q | c.pos <= q < |c.log| ensures Tomb(c.log[q]) && c.log[q] != last { NotLast(log0, c, q); }
    CutBound(c.log, last, c.pos);
    OidMember(c.log[k..], i - k);
  }

  lemma PrefixTomb(c: Chunk, i: nat)
    requires i < c.pos <= |c.log| && Tomb(c.log[i])
    ensures Tombed(c.log[..c.pos], c.log[i].oid)
  {
    assert c.log[..c.pos][i] == c.log[i];
  }

  lemma {:induction false} MaxOidIs(rs: seq<Object>)
    ensures forall x :: x in OidsOf(rs) ==> x <= MaxOid(rs)
    ensures MaxOid(rs) == 0 || MaxOid(rs) in OidsOf(rs)
    decreases |rs|
  {
    if rs != [] {
      var n := |rs| - 1;
      MaxOidIs(rs[..n]);
      assert rs == rs[..n] + [rs[n]];
      OidsSnoc(rs[..n], rs[n]);
    }
  }

  lemma CommitMaxOid(log0: seq<Object>, c: Chunk)
    requires Inv(log0, c) && OidInv(log0, c) && |log0| <= c.pos && c.newIdx != []
    ensures MaxOid(Committed(c)) == MaxOid(c.log)
  {
    hide Inv, OidInv, MaxOid, Committed, OidsOf;
    var a, b := Committed(c), c.log;
    MaxOidIs(a);
    MaxOidIs(b);
    if MaxOid(a) > 0 { CommitOids(log0, c, MaxOid(a)); }
    if MaxOid(b) > 0 { CommitOids(log0, c, MaxOid(b)); }
  }

  // ----- every schedule -----

  datatype Event = Walk | Read | Del(oid: nat)

  predicate Possible(c: Chunk, e: Event) {
    match e
    case Del(_) => true
    case Read => c.pos == c.read <= |c.log| && !c.eof
    case Walk =>
      && c.pos < c.read <= |c.log|
      && (Copies(c) ==> c.tree[c.log[c.pos].oid].offset + c.tree[c.log[c.pos].oid].size <= |c.data|)
  }

  function Do(c: Chunk, e: Event): Chunk
    requires Possible(c, e)
  {
    match e
    case Del(oid) => DeleteOne(c, oid)
    case Read => ReadMore(c)
    case Walk => WalkOne(c)
  }

  lemma ReadKeeps(log0: seq<Object>, c: Chunk)
    requires Inv(log0, c)
    ensures Inv(log0, ReadMore(c))
  {
    hide Replay, ValidStart, LiveAt, Tombed;
    var c' := ReadMore(c);
    forall q | |log0| <= q < |c'.log| ensures TailOk(log0, c', c'.log[q]) { assert TailOk(log0, c, c.log[q]); }
    forall x | x in c'.tree ensures TreeOk(log0, c', x) { assert TreeOk(log0, c, x); }
    forall x | x in Replay(c'.newIdx) && x !in c'.tree ensures Pending(log0, c', x) { assert Pending(log0, c, x); }
  }

  lemma StartOids(log0: seq<Object>, data: seq<Byte>)
    ensures OidInv(log0, Start(log0, data))
  {
  }

  /** Every step keeps the invariant, and the walk can always go on until it is over. */
  lemma DoKeeps(log0: seq<Object>, c: Chunk, e: Event)
    requires Inv(log0, c) && OidInv(log0, c) && Possible(c, e)
    ensures Inv(log0, Do(c, e)) && OidInv(log0, Do(c, e))
    ensures Walked(c) || Possible(c, Read) || Possible(c, Walk)
  {
    hide Replay, ValidStart, TreeOk, LiveAt, Tombed, Pending, TailOk, OidsOf, WalkOne, Check, NewInv, WalkInv, SkipInv;
    if c.pos < c.read { WalkKeeps(log0, c); }
    match e {
      case Del(oid) =>
        DeleteKeeps(log0, c, oid);
        OidDelete(log0, c, oid);
      case Read => ReadKeeps(log0, c);
      case Walk => OidWalk(log0, c);
    }
  }

  ghost predicate SameObject(o: Object, d: seq<Byte>, o': Object, d': seq<Byte>) {
    && o.oid == o'.oid && o.size == o'.size && o.crc == o'.crc
    && o.offset + o.size <= |d| && o'.offset + o'.size <= |d'| && Slice(d, o) == Slice(d', o')
  }

  // ----- the compaction as the source runs it -----

  class Compactor {
    var log: seq<Object>
    var tree: map<nat, Object>
    var data: seq<Byte>
    var read: nat
    var eof: bool
    var pos: nat
    var newIdx: seq<Object>
    var newData: seq<Byte>
    var deleted: set<nat>
    ghost var moved: set<nat>
    ghost var mark: nat

    constructor (log: seq<Object>, tree: map<nat, Object>, data: seq<Byte>)
      requires tree == Replay(log)
      ensures View() == Start(log, data)
    {
      this.log, this.tree, this.data := log, tree, data;
      read, eof := if |log| < BATCH then |log| else BATCH, |log| < BATCH;
      pos, newIdx, newData, deleted, moved, mark := 0, [], [], {}, {}, 0;
    }

    ghost function View(): Chunk
      reads this
    {
      Chunk(log, tree, data, read, eof, pos, newIdx, newData, deleted, moved, mark)
    }

    /** The next read of WalkIndexFile. */
    method ReadBatch()
      requires Possible(View(), Read)
      modifies this`read, this`eof
      ensures View() == Do(old(View()), Read)
    {
      var left := |log| - read;
      var count := if left < BATCH then left else BATCH;
      read, eof := read + count, count < BATCH;
    }

    /** One record of the walk. Fails only if the object's bytes cannot be read. */
    method Step() returns (ok: bool)
      requires pos < read <= |log|
      modifies this
      ensures ok <==> old(Copies(View()) ==> tree[log[pos].oid].offset + tree[log[pos].oid].size <= |data|)
      ensures ok ==> View() == WalkOne(old(View()))
      ensures !ok ==> View() == old(View())
    {
      var r := log[pos];
      if Tomb(r) && r.oid !in deleted {
        newIdx := newIdx + [r];
        deleted := deleted + {r.oid};
        pos, mark := pos + 1, pos + 1;
        return true;
      }
      if r.oid !in tree || !Check(tree[r.oid], r) {
        pos := pos + 1;
        return true;
      }
      var o := tree[r.oid];
      if o.offset + o.size > |data| { return false; }
      var newOffset := |newData|;
      newData := newData + data[o.offset..o.offset + o.size];
      o := o.(offset := newOffset);
      tree := tree[r.oid := o];
      newIdx := newIdx + [o];
      pos, mark, moved := pos + 1, pos + 1, moved + {r.oid};
      return true;
    }

    /** MarkDelete while the compaction runs. */
    method Delete(oid: nat)
      modifies this
      ensures View() == DeleteOne(old(View()), oid)
    {
      if oid in tree {
        log := log + [tree[oid].(size := TOMBSTONE)];
        tree := tree - {oid};
      }
    }

    /** doCommit: catch up, then rebuild the tree from the new index. */
    method Commit(ghost log0: seq<Object>) returns (ok: bool, idx: seq<Object>)
      requires Inv(log0, View()) && OidInv(log0, View()) && Walked(View())
      ensures ok <==> newIdx != []
      ensures ok ==> idx == Committed(View()) && Replay(idx) == tree && MaxOid(idx) == MaxOid(log)
    {
      hide Inv, OidInv, Replay, MaxOid;
      ok, idx := CatchupDeleteIndex(log, newIdx);
      if ok {
        InvFacts(log0, View());
        CommitAgrees(log0, View());
        CommitMaxOid(log0, View());
      }
    }
  }
}
