/** The index of a tiny-object chunk (storage/object_tree.go): an append-only log of 20-byte
    records, the tree rebuilt from it, and the size counters. */
module TinyIndex {
  import opened BigEndian

  const HEADER := 20
  const BATCH := 1024
  const TOMBSTONE := 0xFFFF_FFFF

  datatype Object = Object(oid: nat, offset: nat, size: nat, crc: nat)

  predicate Tomb(o: Object) { o.size == TOMBSTONE }

  // ----- the record codec -----

  predicate Fits(o: Object) {
    o.oid < 0x1_0000_0000_0000_0000 && o.offset < 0x1_0000_0000 && o.size < 0x1_0000_0000 && o.crc < 0x1_0000_0000
  }

  function Marshal(o: Object): (s: seq<Byte>)
    ensures |s| == HEADER
  {
    Be(o.oid, 8) + Be(o.offset, 4) + Be(o.size, 4) + Be(o.crc, 4)
  }

  function Unmarshal(s: seq<Byte>): Object
    requires |s| == HEADER
  {
    Object(Val(s[0..8]), Val(s[8..12]), Val(s[12..16]), Val(s[16..20]))
  }

  lemma RecordRoundTrip(o: Object)
    requires Fits(o)
    ensures Unmarshal(Marshal(o)) == o
  {
    hide Be, Val;
    Widths();
    ValOfBe(o.oid, 8); ValOfBe(o.offset, 4); ValOfBe(o.size, 4); ValOfBe(o.crc, 4);
    var s := Marshal(o);
    assert s[0..8] == Be(o.oid, 8) && s[8..12] == Be(o.offset, 4) && s[12..16] == Be(o.size, 4) &&
      s[16..20] == Be(o.crc, 4);
  }

  /** The layout on disk: id, offset, size and checksum, each with its most significant byte first. */
  lemma RecordLayout(o: Object)
    requires Fits(o)
    ensures var s := Marshal(o);
      |s| == 20 && Val(s[..8]) == o.oid && Val(s[8..12]) == o.offset && Val(s[12..16]) == o.size &&
        Val(s[16..]) == o.crc
  {
    hide Be, Val;
    Widths();
    ValOfBe(o.oid, 8); ValOfBe(o.offset, 4); ValOfBe(o.size, 4); ValOfBe(o.crc, 4);
    var s := Marshal(o);
    assert s[..8] == Be(o.oid, 8) && s[8..12] == Be(o.offset, 4) && s[12..16] == Be(o.size, 4) &&
      s[16..] == Be(o.crc, 4);
  }

  lemma RecordBytesRoundTrip(s: seq<Byte>)
    requires |s| == HEADER
    ensures Fits(Unmarshal(s)) && Marshal(Unmarshal(s)) == s
  {
    hide Be, Val;
    Widths();
    BeOfVal(s[0..8]); BeOfVal(s[8..12]); BeOfVal(s[12..16]); BeOfVal(s[16..20]);
    assert s == s[0..8] + s[8..12] + s[12..16] + s[16..20];
  }

  // ----- the file as records -----

  /** The whole records of a file, in order; bytes after the last whole record do not count. */
  function Records(f: seq<Byte>): (rs: seq<Object>)
    ensures |rs| == |f| / HEADER
  {
    seq(|f| / HEADER, k requires 0 <= k < |f| / HEADER => RecordAt(f, k))
  }

  function RecordAt(f: seq<Byte>, k: nat): Object
    requires k < |f| / HEADER
  {
    Unmarshal(f[k * HEADER..(k + 1) * HEADER])
  }

  function Bytes(rs: seq<Object>): (f: seq<Byte>)
    ensures |f| == |rs| * HEADER
  {
    if rs == [] then [] else Bytes(rs[..|rs| - 1]) + Marshal(rs[|rs| - 1])
  }

  /** A log with a torn tail reads back as its whole records. */
  lemma {:induction false} TornTailIgnored(rs: seq<Object>, torn: seq<Byte>)
    requires (forall i :: 0 <= i < |rs| ==> Fits(rs[i])) && |torn| < HEADER
    ensures Records(Bytes(rs) + torn) == rs
    decreases |rs|
  {
    hide Marshal, Unmarshal;
    var f, n := Bytes(rs) + torn, |rs|;
    assert |f| / HEADER == n;
    forall k | 0 <= k < n ensures RecordAt(f, k) == rs[k] { RecordInPlace(rs, torn, k); }
  }

  lemma {:induction false} RecordInPlace(rs: seq<Object>, tail: seq<Byte>, k: nat)
    requires k < |rs| && Fits(rs[k])
    ensures (k + 1) * HEADER <= |Bytes(rs) + tail| &&
      Unmarshal((Bytes(rs) + tail)[k * HEADER..(k + 1) * HEADER]) == rs[k]
    decreases |rs|
  {
    hide Marshal, Unmarshal, Fits;
    var n := |rs| - 1;
    var f := Bytes(rs) + tail;
    if k == n {
      assert f[n * HEADER..(n + 1) * HEADER] == Marshal(rs[n]);
      RecordRoundTrip(rs[n]);
    } else {
      assert f == Bytes(rs[..n]) + (Marshal(rs[n]) + tail);
      RecordInPlace(rs[..n], Marshal(rs[n]) + tail, k);
    }
  }

  function MaxOid(rs: seq<Object>): nat {
    if rs == [] then 0 else
      var m := MaxOid(rs[..|rs| - 1]);
      if m < rs[|rs| - 1].oid then rs[|rs| - 1].oid else m
  }

  /** The inner loop of WalkIndexFile: the whole records of one batch of count bytes. n records
      were visited before. */
  method WalkBatch(f: seq<Byte>, off: nat, count: nat, before: seq<Object>, max: nat, ghost n: nat)
      returns (visited: seq<Object>, maxOid: nat)
    requires off == n * HEADER && off + count <= |f| && before == Records(f)[..n] && max == MaxOid(before)
    ensures n + count / HEADER <= |Records(f)| && visited == Records(f)[..n + count / HEADER] &&
      maxOid == MaxOid(visited)
  {
    hide Unmarshal;
    visited, maxOid := before, max;
    var iter := 0;
    ghost var k := n;
    ghost var all := Records(f);
    while iter + HEADER <= count
      invariant n <= k <= |all| && off + iter == k * HEADER && iter <= count
      invariant visited == all[..k] && maxOid == MaxOid(visited)
    {
      var o := Unmarshal(f[off + iter..off + iter + HEADER]);
      assert (k + 1) * HEADER <= |f|;
      assert o == all[k];
      if maxOid < o.oid { maxOid := o.oid; }
      visited := visited + [o];
      assert visited[..|visited| - 1] == all[..k];
      iter, k := iter + HEADER, k + 1;
    }
    assert k == n + count / HEADER;
  }

  /** WalkIndexFile: batches of 1024 records, a short read being the last. */
  method WalkIndexFile(f: seq<Byte>) returns (visited: seq<Object>, maxOid: nat)
    ensures visited == Records(f) && maxOid == MaxOid(Records(f))
  {
    hide Records, MaxOid;
    visited, maxOid := [], 0;
    var size := HEADER * BATCH;
    var off: nat := 0;
    var count: nat := if |f| < size then |f| else size;
    var eof := count < size;
    ghost var n: nat := 0;
    assert maxOid == MaxOid(visited) by { NoMax(); }
    while true
      invariant off <= |f| && off == n * HEADER && count == (if |f| - off < size then |f| - off else size) &&
        eof == (count < size)
      invariant n <= |Records(f)| && visited == Records(f)[..n] && maxOid == MaxOid(visited)
      decreases |f| - off, !eof
    {
      visited, maxOid := WalkBatch(f, off, count, visited, maxOid, n);
      if eof {
        assert n + count / HEADER == |f| / HEADER;
        assert Records(f)[..|Records(f)|] == Records(f);
        return;
      }
      off, n := off + count, n + BATCH;
      count := if |f| - off < size then |f| - off else size;
      eof := count < size;
    }
  }

  lemma NoMax()
    ensures MaxOid([]) == 0
  {
  }

  // ----- what a log stands for -----

  function Replayed(t: map<nat, Object>, o: Object): map<nat, Object> {
    if o.oid > 0 && !Tomb(o) then t[o.oid := o] else t - {o.oid}
  }

  function Replay(log: seq<Object>): map<nat, Object> {
    if log == [] then map[] else Replayed(Replay(log[..|log| - 1]), log[|log| - 1])
  }

  lemma NoReplay()
    ensures Replay([]) == map[]
  {
  }

  lemma ReplaySnoc(log: seq<Object>, o: Object)
    ensures Replay(log + [o]) == Replayed(Replay(log), o)
  {
    assert (log + [o])[..|log|] == log;
  }

  ghost function Total(t: map<nat, Object>): nat {
    if t == map[] then 0 else
      var k :| k in t;
      t[k].size + Total(t - {k})
  }

  lemma {:induction false} TotalWithout(t: map<nat, Object>, k: nat)
    requires k in t
    ensures Total(t) == t[k].size + Total(t - {k})
    decreases |t|
  {
    var j :| j in t && Total(t) == t[j].size + Total(t - {j});
    if j != k {
      TotalWithout(t - {j}, k);
      TotalWithout(t - {k}, j);
      assert t - {j} - {k} == t - {k} - {j};
    }
  }

  lemma CountWithout(t: map<nat, Object>, k: nat)
    requires k in t
    ensures |t| == 1 + |t - {k}|
  {
    var ks := (t - {k}).Keys;
    assert t.Keys == ks + {k} && k !in ks;
    assert |t.Keys| == |t| && |ks| == |t - {k}|;
  }

  lemma TotalWith(t: map<nat, Object>, k: nat, o: Object)
    ensures Total(t[k := o]) == o.size + Total(t - {k})
    ensures |t[k := o]| == 1 + |t - {k}|
    ensures k in t ==> |t| == 1 + |t - {k}|
  {
    hide Total;
    TotalWithout(t[k := o], k);
    CountWithout(t[k := o], k);
    assert t[k := o] - {k} == t - {k};
    if k in t { CountWithout(t, k); }
  }

  // ----- the tree object -----

  class ObjectTree {
    var idx: seq<Object>            // the index file
    var tree: map<nat, Object>
    var fileCount: nat
    var deleteCount: nat
    var fileBytes: nat
    var deleteBytes: nat

    constructor ()
      ensures idx == [] && tree == map[] && Counted()
    {
      idx, tree, fileCount, deleteCount, fileBytes, deleteBytes := [], map[], 0, 0, 0, 0;
    }

    /** The counters are the live objects: their number and their total size. */
    ghost predicate Counted()
      reads this
    {
      fileCount - deleteCount == |tree| && fileBytes - deleteBytes == Total(tree)
    }

    method IncreaseSize(size: nat)
      modifies this`fileCount, this`fileBytes
      ensures fileCount == old(fileCount) + 1 && fileBytes == old(fileBytes) + size
    {
      fileCount, fileBytes := fileCount + 1, fileBytes + size;
    }

    method DecreaseSize(size: nat)
      modifies this`deleteCount, this`deleteBytes
      ensures deleteCount == old(deleteCount) + 1 && deleteBytes == old(deleteBytes) + size
    {
      deleteCount, deleteBytes := deleteCount + 1, deleteBytes + size;
    }

    /** ReplaceOrInsert with its accounting. */
    method Put(o: Object) returns (oldOff: nat, oldSize: nat)
      requires Counted()
      modifies this`tree, this`fileCount, this`fileBytes, this`deleteCount, this`deleteBytes
      ensures Counted() && tree == old(tree)[o.oid := o]
      ensures fileCount == old(fileCount) + 1 && fileBytes == old(fileBytes) + o.size
      ensures if o.oid in old(tree) then oldOff == old(tree)[o.oid].offset &&
        oldSize == old(tree)[o.oid].size else oldOff == oldSize == 0
    {
      hide Total;
      oldOff, oldSize := 0, 0;
      TotalWith(tree, o.oid, o);
      if o.oid in tree {
        TotalWithout(tree, o.oid);
        oldOff, oldSize := tree[o.oid].offset, tree[o.oid].size;
        DecreaseSize(oldSize);
      } else {
        assert tree - {o.oid} == tree;
      }
      tree := tree[o.oid := o];
      IncreaseSize(o.size);
    }

    method Drop(oid: nat) returns (found: bool, o: Object)
      requires Counted()
      modifies this`tree, this`deleteCount, this`deleteBytes
      ensures Counted() && tree == old(tree) - {oid}
      ensures found == (oid in old(tree)) && (found ==> o == old(tree)[oid])
      ensures deleteCount == old(deleteCount) + if found then 1 else 0
    {
      hide Total;
      found, o := oid in tree, Object(oid, 0, 0, 0);
      if found {
        TotalWithout(tree, oid);
        TotalWith(tree, oid, o);
        o := tree[oid];
        tree := tree - {oid};
        DecreaseSize(o.size);
      } else {
        assert tree - {oid} == tree;
      }
    }

    /** set: tree and log change together. */
    method Set(oid: nat, offset: nat, size: nat, crc: nat) returns (oldOff: nat, oldSize: nat)
      requires Counted()
      modifies this
      ensures Counted() && idx == old(idx) + [Object(oid, offset, size, crc)] &&
        tree == old(tree)[oid := Object(oid, offset, size, crc)]
      ensures old(tree == Replay(idx)) && oid > 0 && size != TOMBSTONE ==> tree == Replay(idx)
      ensures fileCount == old(fileCount) + 1 && fileBytes == old(fileBytes) + size
      ensures if oid in old(tree) then oldOff == old(tree)[oid].offset && oldSize == old(tree)[oid].size
              else oldOff == oldSize == 0
    {
      hide Total, Replay;
      var o := Object(oid, offset, size, crc);
      oldOff, oldSize := Put(o);
      ReplaySnoc(idx, o);
      idx := idx + [o];
    }

    /** delete: a tombstone is written only for an object that was there. */
    method Delete(oid: nat)
      requires Counted()
      modifies this
      ensures Counted() && tree == old(tree) - {oid}
      ensures idx == old(idx) + if oid in old(tree) then [old(tree)[oid].(size := TOMBSTONE)] else []
      ensures old(tree == Replay(idx) && KeysAreOids(tree)) ==> tree == Replay(idx)
      ensures fileCount == old(fileCount) && fileBytes == old(fileBytes)
    {
      hide Total, Replay;
      var found, o := Drop(oid);
      if !found {
        assert old(tree) - {oid} == old(tree);
        return;
      }
      ReplaySnoc(idx, o.(size := TOMBSTONE));
      idx := idx + [o.(size := TOMBSTONE)];
    }

    /** What Load does with one record. */
    method LoadOne(o: Object)
      requires Counted()
      modifies this`tree, this`fileCount, this`fileBytes, this`deleteCount, this`deleteBytes
      ensures Counted() && tree == Replayed(old(tree), o)
    {
      hide Total;
      if o.oid > 0 && o.size != TOMBSTONE {
        var oldOff, oldSize := Put(o);
      } else {
        var found, was := Drop(o.oid);
      }
    }

    /** Load, on a new tree over an existing index file. */
    method Load(file: seq<Byte>) returns (maxOid: nat)
      requires idx == [] && tree == map[] && Counted()
      modifies this
      ensures Counted() && idx == Records(file) && tree == Replay(idx) && maxOid == MaxOid(idx)
    {
      hide Total, Replay, Replayed, Records, MaxOid;
      assert Replay([]) == map[] by { NoReplay(); }
      var log;
      log, maxOid := WalkIndexFile(file);
      var i := 0;
      while i < |log|
        invariant i <= |log| && Counted() && tree == Replay(log[..i])
      {
        var o := log[i];
        assert log[..i + 1] == log[..i] + [o];
        ReplaySnoc(log[..i], o);
        LoadOne(o);
        i := i + 1;
      }
      assert log[..i] == log;
      idx := log;
    }
  }

  ghost predicate KeysAreOids(t: map<nat, Object>) {
    forall k :: k in t ==> t[k].oid == k
  }

  lemma {:induction false} ReplayKeys(log: seq<Object>)
    ensures KeysAreOids(Replay(log)) && forall k :: k in Replay(log) ==> k > 0 && !Tomb(Replay(log)[k])
    decreases |log|
  {
    if log != [] { ReplayKeys(log[..|log| - 1]); }
  }

  /** A set is remembered by the log exactly when the object id is positive and the size is not the
      tombstone's. */
  lemma SetRemembered(log: seq<Object>, o: Object)
    ensures Replay(log + [o]) == Replay(log)[o.oid := o] <==> o.oid > 0 && !Tomb(o)
  {
    ReplaySnoc(log, o);
    assert o.oid in Replay(log)[o.oid := o];
  }
}
