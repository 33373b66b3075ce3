/** A chunk of the tiny-object store (storage/store_tiny.go): objects are appended to a data file
    and indexed by id. */
module TinyStore {
  import opened BigEndian
  import opened TinyIndex
  import opened TinyCompaction

  const UINT32 := 0x1_0000_0000

  datatype Error = NoError | ObjectSmaller | FileNotFound | ObjNotFound | ParamMismatch

  datatype Content = Content(bytes: seq<Byte>, crc: nat)

  /** Sets of one object are at different offsets, below the end of the data; no id is above
      lastOid; live objects lie within the data. Tombstones keep offsets of older data files. */
  ghost predicate ChunkOk(log: seq<Object>, data: seq<Byte>, lastOid: nat) {
    && SetsApart(log) && InFile(log, data)
    && (forall i :: 0 <= i < |log| ==> log[i].oid <= lastOid && (!Tomb(log[i]) ==> log[i].offset < |data|))
  }

  /** What a reader sees. */
  ghost function ViewOf(tree: map<nat, Object>, data: seq<Byte>): map<nat, Content>
    requires forall x :: x in tree ==> tree[x].offset + tree[x].size <= |data|
  {
    map x | x in tree :: Content(Slice(data, tree[x]), tree[x].crc)
  }

  class TinyChunk {
    var log: seq<Object>
    var tree: map<nat, Object>
    var data: seq<Byte>
    var lastOid: nat

    constructor ()
      ensures Valid() && View() == map[] && NoneBuried(log) && log == [] && data == [] && lastOid == 0
    {
      log, tree, data, lastOid := [], map[], [], 0;
      new;
      NoReplay();
    }

    /** Index and tree agree. */
    ghost predicate Valid()
      reads this
    {
      tree == Replay(log) && ChunkOk(log, data, lastOid)
    }

    ghost function View(): map<nat, Content>
      reads this
      requires Valid()
    {
      ViewOf(tree, data)
    }

    /** Write. The offset is cut to 32 bits; an empty object, an object of the tombstone's size or
        id 0 would not be told apart later. */
    method Write(oid: nat, size: nat, bytes: seq<Byte>, crc: nat) returns (err: Error)
      requires Valid() && size <= |bytes|
      modifies this
      ensures oid < old(lastOid) ==> err == ObjectSmaller && Valid() && View() == old(View())
      ensures err != NoError ==> unchanged(this)
      ensures oid >= old(lastOid) ==> err == NoError && lastOid == oid && data == old(data) + bytes[..size]
      ensures err == NoError ==> log == old(log) + [Object(oid, old(|data|) % UINT32, size, crc)]
      ensures err == NoError && 0 < size && size != TOMBSTONE && oid > 0 && old(|data|) < UINT32 ==>
        Valid() && View() == old(View())[oid := Content(bytes[..size], crc)]
      ensures err == NoError && 0 < size && size != TOMBSTONE && oid > 0 && old(|data|) < UINT32 ==>
        (NoneBuried(old(log)) ==> (NoneBuried(log) <==> !Tombed(old(log), oid)))
    {
      hide Replay, Tombed, SetsApart, InFile, NoneBuried;
      if oid < lastOid { return ObjectSmaller; }
      var newOffset := |data|;
      data := data + bytes[..size];
      var o := Object(oid, newOffset % UINT32, size, crc);
      tree := tree[oid := o];
      log := log + [o];
      if lastOid < oid { lastOid := oid; }
      if 0 < size && size != TOMBSTONE && oid > 0 && newOffset < UINT32 {
        Written(old(log), old(data), old(lastOid), o, bytes[..size]);
      }
      return NoError;
    }

    /** Read: the bytes and checksum of the live object, if the size matches. */
    method Read(oid: nat, size: nat) returns (err: Error, bytes: seq<Byte>, crc: nat)
      requires Valid()
      ensures err == NoError <==> oid in tree && size == tree[oid].size
      ensures err == NoError ==> Content(bytes, crc) == View()[oid]
      ensures err != NoError ==> bytes == [] && crc == 0
      ensures err == FileNotFound <==> lastOid < oid
      ensures err == ObjNotFound <==> oid <= lastOid && oid !in tree
      ensures err == ParamMismatch <==> oid in tree && size != tree[oid].size
    {
      bytes, crc := [], 0;
      if lastOid < oid {
        if oid in tree { Known(log, lastOid, oid); }
        return FileNotFound, bytes, crc;
      }
      if oid !in tree { return ObjNotFound, bytes, crc; }
      var o := tree[oid];
      if o.size != size || o.offset + size > |data| { return ParamMismatch, bytes, crc; }
      return NoError, data[o.offset..o.offset + size], o.crc;
    }

    /** MarkDelete: the data stay, the id goes. */
    method MarkDelete(oid: nat)
      requires Valid()
      modifies this
      ensures Valid() && View() == old(View()) - {oid} && (NoneBuried(old(log)) ==> NoneBuried(log))
      ensures data == old(data) && lastOid == old(lastOid)
    {
      hide Replay, Tombed, SetsApart, InFile, NoneBuried;
      if oid !in tree {
        assert View() - {oid} == View();
        return;
      }
      Deleted(log, data, lastOid, oid);
      var o := tree[oid].(size := TOMBSTONE);
      log := log + [o];
      tree := tree - {oid};
      assert View() == old(View()) - {oid};
    }
  }

  lemma TombedSnoc(log: seq<Object>, o: Object)
    ensures forall x :: Tombed(log + [o], x) <==> Tombed(log, x) || (Tomb(o) && o.oid == x)
  {
    var n := |log|;
    assert (log + [o])[..n + 1] == log + [o] && (log + [o])[..n] == log;
    TombStep(log + [o], n);
  }

  /** Appending an object after the end of the data. It buries a tombstone exactly when its id has
      one. */
  lemma Written(log: seq<Object>, data: seq<Byte>, lastOid: nat, o: Object, bytes: seq<Byte>)
    requires ChunkOk(log, data, lastOid) && o.offset == |data| && o.size == |bytes| > 0 && !Tomb(o) && o.oid > 0 &&
      o.oid >= lastOid
    ensures Replay(log + [o]) == Replay(log)[o.oid := o] && ChunkOk(log + [o], data + bytes, o.oid)
    ensures (forall x :: x in Replay(log) ==> Replay(log)[x].offset + Replay(log)[x].size <= |data|)
    ensures ViewOf(Replay(log + [o]), data + bytes) == ViewOf(Replay(log), data)[o.oid := Content(bytes, o.crc)]
    ensures NoneBuried(log) ==> (NoneBuried(log + [o]) <==> !Tombed(log, o.oid))
  {
    hide Replay, Tombed, SetsApart, ViewOf;
    ReplaySnoc(log, o);
    TombedSnoc(log, o);
    SetsSnoc(log, o);
    ViewWritten(Replay(log), data, o, bytes);
  }

  lemma ViewWritten(tree: map<nat, Object>, data: seq<Byte>, o: Object, bytes: seq<Byte>)
    requires (forall x :: x in tree ==> tree[x].offset + tree[x].size <= |data|) && o.offset == |data| &&
      o.size == |bytes|
    ensures ViewOf(tree[o.oid := o], data + bytes) == ViewOf(tree, data)[o.oid := Content(bytes, o.crc)]
  {
    assert forall x :: x in tree ==> Slice(data + bytes, tree[x]) == Slice(data, tree[x]);
    assert Slice(data + bytes, o) == bytes;
  }

  lemma SetsSnoc(log: seq<Object>, o: Object)
    requires SetsApart(log) && forall i :: 0 <= i < |log| && !Tomb(log[i]) ==> log[i].offset != o.offset
    ensures SetsApart(log + [o])
  {
  }

  lemma Deleted(log: seq<Object>, data: seq<Byte>, lastOid: nat, oid: nat)
    requires ChunkOk(log, data, lastOid) && oid in Replay(log)
    ensures var t := Replay(log)[oid].(size := TOMBSTONE);
      && t.oid == oid && Replay(log + [t]) == Replay(log) - {oid} && ChunkOk(log + [t], data, lastOid)
      && (NoneBuried(log) ==> NoneBuried(log + [t]))
  {
    hide Replay, Tombed;
    ReplayKeys(log);
    var t := Replay(log)[oid].(size := TOMBSTONE);
    var p := LiveRecord(log, oid);
    ReplaySnoc(log, t);
    TombedSnoc(log, t);
  }

  lemma NeverSeen(log: seq<Object>, lastOid: nat, oid: nat)
    requires (forall i :: 0 <= i < |log| ==> log[i].oid <= lastOid) && oid > lastOid
    ensures !Tombed(log, oid)
  {
  }

  lemma Known(log: seq<Object>, lastOid: nat, x: nat)
    requires x in Replay(log) && forall i :: 0 <= i < |log| ==> log[i].oid <= lastOid
    ensures x <= lastOid
  {
    var p := LiveRecord(log, x);
  }
}
