/** A tiny-object chunk over whole runs: writes, deletes, and any number of compactions with deletes
    going on. What a reader sees is compared with a plain map of the objects written and not
    deleted since. */
module TinyRuns {
  import opened BigEndian
  import opened TinyIndex
  import opened TinyCompaction
  import opened TinyStore

  /** want is the plain map; log0 only records the index as of the compaction's start. A compaction
      that cannot read an object is given up, with the offsets it has already changed; a commit
      that fails leaves the chunk with its files closed. */
  datatype Store =
    | Open(log: seq<Object>, tree: map<nat, Object>, data: seq<Byte>, lastOid: nat, want: map<nat, Content>)
    | Compacting(c: Chunk, log0: seq<Object>, lastOid: nat, want: map<nat, Content>)
    | Closed

  datatype Act =
    | Write(oid: nat, bytes: seq<Byte>, crc: nat)
    | Delete(oid: nat)
    | Begin
    | Step(e: Event)
    | Abort
    | Commit
    | CommitFails

  function NewStore(): Store { Open([], map[], [], 0, map[]) }

  /** Writes wait while the chunk is compacted; an id below the last one is refused. The offset of a
      new object fits in 32 bits. */
  predicate Enabled(s: Store, a: Act) {
    match a
    case Write(oid, bytes, _) => s.Open? && oid >= s.lastOid && oid > 0 && 0 < |bytes| < TOMBSTONE && |s.data| < UINT32
    case Delete(_) => s.Open?
    case Begin => s.Open?
    case Step(e) => s.Compacting? && Possible(s.c, e)
    case Abort => s.Compacting? && s.c.pos < s.c.read <= |s.c.log| && !Possible(s.c, Walk)
    case Commit => s.Compacting? && Walked(s.c) && s.c.newIdx != []
    case CommitFails => s.Compacting? && Walked(s.c) && s.c.newIdx == []
  }

  function Next(s: Store, a: Act): Store
    requires Enabled(s, a)
  {
    match a
    case Write(oid, bytes, crc) =>
      var o := Object(oid, |s.data|, |bytes|, crc);
      Open(s.log + [o], s.tree[oid := o], s.data + bytes, oid, s.want[oid := Content(bytes, crc)])
    case Delete(oid) =>
      if oid in s.tree then s.(log := s.log + [s.tree[oid].(size := TOMBSTONE)], tree := s.tree - {oid},
        want := s.want - {oid}) else s
    case Begin => Compacting(Start(s.log, s.data).(tree := s.tree), s.log, s.lastOid, s.want)
    case Step(e) => s.(c := Do(s.c, e), want := if e.Del? then s.want - {e.oid} else s.want)
    case Abort => Open(s.c.log, s.c.tree, s.c.data, s.lastOid, s.want)
    case Commit =>
      var idx := Committed(s.c);
      Open(idx, Replay(idx), s.c.newData, if s.lastOid < MaxOid(idx) then MaxOid(idx) else s.lastOid, s.want)
    case CommitFails => Closed
  }

  /** The write takes an id that has been deleted: only the last id can be. */
  ghost predicate Reuses(s: Store, a: Act) {
    s.Open? && a.Write? && Tombed(s.log, a.oid)
  }

  /** An open chunk shows its readers the plain map. */
  ghost predicate Right(s: Store) {
    s.Open? ==> s.tree == Replay(s.log) && InFile(s.log, s.data) && ViewOf(s.tree, s.data) == s.want
  }

  ghost predicate OpenOk(s: Store)
    requires s.Open?
  {
    Right(s) && ChunkOk(s.log, s.data, s.lastOid)
  }

  // ----- what a commit leaves -----

  /** Tombstones of the new index come from the old one; an object is set in it once, within the new
      data. */
  ghost predicate NewIdxOk(c: Chunk) {
    && (forall i :: 0 <= i < |c.newIdx| && Tomb(c.newIdx[i]) ==> c.newIdx[i] in c.log)
    && (forall i :: 0 <= i < |c.newIdx| && !Tomb(c.newIdx[i]) ==>
       c.newIdx[i].oid in c.moved && c.newIdx[i].offset < |c.newData|)
    && (forall i, j :: 0 <= i < j < |c.newIdx| && !Tomb(c.newIdx[i]) && !Tomb(c.newIdx[j]) ==>
       c.newIdx[i].oid != c.newIdx[j].oid)
  }

  ghost predicate Sized(log0: seq<Object>) {
    forall x :: x in Replay(log0) ==> Replay(log0)[x].size > 0
  }

  lemma NewIdxStep(log0: seq<Object>, c: Chunk, e: Event)
    requires Inv(log0, c) && Sized(log0) && NewIdxOk(c) && Possible(c, e)
    ensures NewIdxOk(Do(c, e))
  {
    hide Replay, ValidStart, TreeOk, LiveAt, Tombed, Pending, TailOk, Check, NewInv, WalkInv, SkipInv;
    if e.Walk? && Copies(c) {
      CanWalk(log0, c);
      CopyFacts(log0, c);
    } else if e.Del? && e.oid in c.tree {
      var t := c.tree[e.oid].(size := TOMBSTONE);
      forall i | 0 <= i < |c.newIdx| && Tomb(c.newIdx[i]) ensures c.newIdx[i] in c.log + [t] { }
    }
  }

  /** A live object has no tombstone in the index that a commit writes. */
  lemma CommitUnburied(log0: seq<Object>, c: Chunk)
    requires Inv(log0, c) && NewIdxOk(c) && Walked(c) && c.newIdx != []
    ensures NoneBuried(Committed(c))
  {
    hide Replay, TreeOk, LiveAt, Pending, Check, NewInv, WalkInv, SkipInv, CutFrom, SetsApart, InFile;
    InvFacts(log0, c);
    CommitAgrees(log0, c);
    var idx := Committed(c);
    forall x | x in Replay(idx) ensures !Tombed(idx, x) {
      LiveUntombed(log0, c, x);
      forall i | 0 <= i < |idx| && Tomb(idx[i]) ensures idx[i].oid != x {
        FromOldIndex(c, idx, i);
        var q :| 0 <= q < |c.log| && c.log[q] == idx[i];
        assert Tomb(c.log[q]);
      }
    }
  }

  lemma FromOldIndex(c: Chunk, idx: seq<Object>, i: nat)
    requires NewIdxOk(c) && c.newIdx != [] && idx == Committed(c) && i < |idx| && Tomb(idx[i])
    ensures idx[i] in c.log
  {
    hide CutFrom;
    var k := CutFrom(c.log, c.newIdx[|c.newIdx| - 1]);
    if i >= |c.newIdx| { assert idx[i] == c.log[k..][i - |c.newIdx|] == c.log[k + i - |c.newIdx|]; }
  }

  lemma LiveUntombed(log0: seq<Object>, c: Chunk, x: nat)
    requires Inv(log0, c) && x in c.tree
    ensures !Tombed(c.log, x)
  {
    hide Replay, LiveAt, Pending, NewInv, WalkInv, SkipInv, SetsApart, InFile;
    TreeOkOf(log0, c, x);
    assert x in Replay(log0) && !Tombed(log0, x);
    forall q | 0 <= q < |c.log| && Tomb(c.log[q]) ensures c.log[q].oid != x {
      if q < |log0| { assert c.log[..|log0|][q] == log0[q] == c.log[q]; } else { assert TailOk(log0, c, c.log[q]); }
    }
  }

  lemma CommitSets(log0: seq<Object>, c: Chunk)
    requires Inv(log0, c) && NewIdxOk(c) && Walked(c) && c.newIdx != []
    ensures var idx := Committed(c);
      && SetsApart(idx) && (forall i :: 0 <= i < |idx| && !Tomb(idx[i]) ==> idx[i].offset < |c.newData|)
  {
    hide Replay, Inv, CutFrom;
    var last := c.newIdx[|c.newIdx| - 1];
    CutTombs(c.log, last);
    var idx, k := Committed(c), CutFrom(c.log, last);
    forall i | |c.newIdx| <= i < |idx|
      ensures Tomb(idx[i])
    {
      assert idx[i] == c.log[k..][i - |c.newIdx|] == c.log[k + i - |c.newIdx|];
    }
  }

  lemma CommitFile(log0: seq<Object>, c: Chunk)
    requires Inv(log0, c) && Walked(c) && c.newIdx != []
    ensures Replay(Committed(c)) == c.tree && InFile(Committed(c), c.newData)
    ensures forall x :: x in c.tree ==> x in Replay(log0) && SameObject(c.tree[x], c.newData, Replay(log0)[x], c.data)
  {
    hide Inv, Replay, Committed;
    InvFacts(log0, c);
    CommitAgrees(log0, c);
    forall x | x in c.tree
      ensures x in Replay(log0) && SameObject(c.tree[x], c.newData, Replay(log0)[x], c.data)
    {
      TreeOkOf(log0, c, x);
    }
  }

  // ----- every run without reused ids -----

  ghost predicate Wanted(log0: seq<Object>, c: Chunk, want: map<nat, Content>)
    requires InFile(log0, c.data)
  {
    && want.Keys == c.tree.Keys && c.tree.Keys <= Replay(log0).Keys
    && forall x :: x in want ==> want[x] == Content(Slice(c.data, Replay(log0)[x]), Replay(log0)[x].crc)
  }

  ghost predicate StoreInv(s: Store) {
    match s
    case Open(log, tree, data, lastOid, want) => OpenOk(s) && NoneBuried(log) && Sized(log)
    case Compacting(c, log0, lastOid, want) =>
      && Inv(log0, c) && OidInv(log0, c) && NewIdxOk(c) && Sized(log0)
      && (forall x :: x in OidsOf(c.log) ==> x <= lastOid)
      && InFile(log0, c.data) && Wanted(log0, c, want)
    case Closed => true
  }

  lemma NewOk()
    ensures StoreInv(NewStore())
  {
    NoReplay();
  }

  lemma WriteKeeps(s: Store, a: Act)
    requires StoreInv(s) && a.Write? && Enabled(s, a) && !Reuses(s, a)
    ensures StoreInv(Next(s, a))
  {
    hide Replay, Tombed, ChunkOk, NoneBuried;
    var o := Object(a.oid, |s.data|, |a.bytes|, a.crc);
    Written(s.log, s.data, s.lastOid, o, a.bytes);
    assert InFile(s.log + [o], s.data + a.bytes) by { ChunkFacts(s.log + [o], s.data + a.bytes, a.oid); }
  }

  lemma ChunkFacts(log: seq<Object>, data: seq<Byte>, lastOid: nat)
    requires ChunkOk(log, data, lastOid)
    ensures InFile(log, data) && SetsApart(log) && forall x :: x in OidsOf(log) ==> x <= lastOid
  {
  }

  lemma DeleteKeepsStore(s: Store, oid: nat)
    requires StoreInv(s) && s.Open?
    ensures StoreInv(Next(s, Delete(oid)))
  {
    hide Replay, Tombed, ChunkOk, NoneBuried;
    if oid in s.tree {
      Deleted(s.log, s.data, s.lastOid, oid);
      var t := s.tree[oid].(size := TOMBSTONE);
      ChunkFacts(s.log + [t], s.data, s.lastOid);
      assert ViewOf(s.tree - {oid}, s.data) == s.want - {oid};
    }
  }

  lemma BeginKeeps(s: Store)
    requires StoreInv(s) && s.Open?
    ensures StoreInv(Next(s, Begin))
  {
    hide Replay, Tombed, Inv, OidInv, NoneBuried, SetsApart;
    ChunkFacts(s.log, s.data, s.lastOid);
    StartOk(s.log, s.data);
    StartOids(s.log, s.data);
  }

  lemma StepKeepsStore(s: Store, e: Event)
    requires StoreInv(s) && s.Compacting? && Possible(s.c, e)
    ensures StoreInv(Next(s, Step(e)))
  {
    hide Replay, Inv, OidInv, NewIdxOk, Sized, Possible, Do, OidsOf, InFile;
    DoKeeps(s.log0, s.c, e);
    NewIdxStep(s.log0, s.c, e);
    DoFacts(s.log0, s.c, e);
  }

  lemma DoFacts(log0: seq<Object>, c: Chunk, e: Event)
    requires Inv(log0, c) && Possible(c, e)
    ensures Do(c, e).data == c.data
    ensures Do(c, e).tree.Keys == c.tree.Keys - if e.Del? then {e.oid} else {}
    ensures OidsOf(Do(c, e).log) == OidsOf(c.log)
  {
    hide Replay, ValidStart, LiveAt, Tombed, Pending, TailOk, Check, NewInv, WalkInv, SkipInv;
    if e.Del? && e.oid in c.tree {
      assert TreeOk(log0, c, e.oid);
      ReplayKeys(log0);
      InReplay(log0, e.oid);
      assert c.log == log0 + c.log[|log0|..];
      OidsSplit(log0, c.log[|log0|..]);
      OidsSnoc(c.log, c.tree[e.oid].(size := TOMBSTONE));
    }
  }

  lemma CommitKeeps(s: Store)
    requires StoreInv(s) && Enabled(s, Commit)
    ensures StoreInv(Next(s, Commit)) && Next(s, Commit).lastOid == s.lastOid
  {
    hide Replay, Inv, OidInv, NewIdxOk, Committed, OidsOf, MaxOid, Tombed, SetsApart, NoneBuried;
    var c, idx := s.c, Committed(s.c);
    InvFacts(s.log0, c);
    CommitUnburied(s.log0, c);
    CommitSets(s.log0, c);
    CommitFile(s.log0, c);
    CommitMaxOid(s.log0, c);
    MaxOidIs(idx);
    MaxOidIs(c.log);
    forall i | 0 <= i < |idx| ensures idx[i].oid <= s.lastOid { OidMember(idx, i); }
    assert ViewOf(Replay(idx), c.newData) == s.want;
  }

  /** One step of any kind keeps the chunk right, as long as no deleted id is written again. */
  lemma NextKeeps(s: Store, a: Act)
    requires StoreInv(s) && Enabled(s, a) && !Reuses(s, a)
    ensures StoreInv(Next(s, a))
  {
    hide StoreInv, Reuses, Next, Possible;
    match a {
      case Write(_, _, _) => WriteKeeps(s, a);
      case Delete(oid) => DeleteKeepsStore(s, oid);
      case Begin => BeginKeeps(s);
      case Step(e) => StepKeepsStore(s, e);
      case Abort => NoAbort(s);
      case Commit => CommitKeeps(s);
      case CommitFails => assert StoreInv(Next(s, a)) by { ClosedOk(s, a); }
    }
  }

  lemma NoAbort(s: Store)
    requires StoreInv(s)
    ensures !Enabled(s, Abort)
  {
    hide Replay, Inv, OidInv, NewIdxOk, Sized, OidsOf, InFile, Wanted;
    if s.Compacting? && s.c.pos < s.c.read { WalkKeeps(s.log0, s.c); }
  }

  lemma ClosedOk(s: Store, a: Act)
    requires Enabled(s, a) && a.CommitFails?
    ensures StoreInv(Next(s, a))
  {
  }

  ghost predicate Runs(s: Store, acts: seq<Act>, t: Store)
    decreases |acts|
  {
    if acts == [] then s == t else
      var n := |acts| - 1;
      exists m :: Runs(s, acts[..n], m) && Enabled(m, acts[n]) && !Reuses(m, acts[n]) && t == Next(m, acts[n])
  }

  /** In every run that reuses no deleted id, with deletes at any point of any compaction, the chunk
      shows its readers exactly what was written and not deleted. */
  lemma {:induction false} EveryRunIsRight(s: Store, acts: seq<Act>, t: Store)
    requires StoreInv(s) && Runs(s, acts, t)
    ensures StoreInv(t) && Right(t)
    decreases |acts|
  {
    hide Enabled, Reuses, Next, StoreInv;
    if acts != [] {
      var n := |acts| - 1;
      var m :| Runs(s, acts[..n], m) && Enabled(m, acts[n]) && !Reuses(m, acts[n]) && t == Next(m, acts[n]);
      EveryRunIsRight(s, acts[..n], m);
      NextKeeps(m, acts[n]);
    }
    InvIsRight(t);
  }

  lemma InvIsRight(s: Store)
    requires StoreInv(s)
    ensures Right(s)
  {
  }

  // ----- a live object with an old tombstone is enough to go wrong -----

  lemma RunsSnoc(s: Store, acts: seq<Act>, m: Store, a: Act)
    requires Runs(s, acts, m) && Enabled(m, a) && !Reuses(m, a)
    ensures Runs(s, acts + [a], Next(m, a))
  {
    hide Enabled, Reuses, Next;
    assert (acts + [a])[..|acts|] == acts;
  }

  /** The chunk after k one-byte objects under new ids. */
  ghost predicate GrownBy(s: Store, k: nat, t: Store) {
    && s.Open? && t.Open? && OpenOk(s) && OpenOk(t)
    && t.lastOid == s.lastOid + k && |t.log| == |s.log| + k && t.log[..|s.log|] == s.log && |t.data| == |s.data| + k
    && (forall i :: |s.log| <= i < |t.log| ==>
       t.log[i] == Object(s.lastOid + 1 + i - |s.log|, |s.data| + i - |s.log|, 1, 0))
    && (forall x :: x in Replay(s.log) ==> x in Replay(t.log) && Replay(t.log)[x] == Replay(s.log)[x])
    && (k > 0 ==> t.lastOid in Replay(t.log))
    && (forall x :: x in Replay(t.log) && x !in Replay(s.log) ==> x > s.lastOid && Replay(t.log)[x].size == 1)
  }

  lemma {:induction false} WriteMany(s: Store, k: nat) returns (acts: seq<Act>, t: Store)
    requires s.Open? && OpenOk(s) && |s.data| + k <= UINT32
    ensures Runs(s, acts, t) && GrownBy(s, k, t)
    decreases k
  {
    hide Runs;
    if k == 0 {
      acts, t := [], s;
      assert Runs(s, [], s) by { NoActs(s); }
      assert s.log[..|s.log|] == s.log;
    } else {
      var m;
      acts, m := WriteMany(s, k - 1);
      var a := Write(m.lastOid + 1, [0], 0);
      NeverSeen(m.log, m.lastOid, a.oid);
      RunsSnoc(s, acts, m, a);
      acts, t := acts + [a], Next(m, a);
      OneMore(s, k - 1, m, a);
    }
  }

  lemma NoActs(s: Store)
    ensures Runs(s, [], s)
  {
  }

  lemma OneMore(s: Store, k: nat, m: Store, a: Act)
    requires GrownBy(s, k, m) && a == Write(m.lastOid + 1, [0], 0) && |m.data| < UINT32
    ensures GrownBy(s, k + 1, Next(m, a))
  {
    hide Replay, Tombed, InFile, SetsApart;
    var o := Object(a.oid, |m.data|, 1, 0);
    Written(m.log, m.data, m.lastOid, o, [0]);
    var t := Next(m, a);
    ChunkFacts(t.log, t.data, t.lastOid);
    ChunkFacts(m.log, m.data, m.lastOid);
    assert t.log[..|s.log|] == m.log[..|s.log|];
    assert OpenOk(t);
    forall x | x in Replay(s.log) ensures x != a.oid { InReplay(s.log, x); ChunkFacts(s.log, s.data, s.lastOid); }
  }

  /** Every record could be read as its live object. */
  ghost predicate Roomy(log: seq<Object>, data: seq<Byte>) {
    forall i :: 0 <= i < |log| && log[i].oid in Replay(log) ==> log[i].offset + Replay(log)[log[i].oid].size <= |data|
  }

  function Farthest(log: seq<Object>, tree: map<nat, Object>): (n: nat)
    ensures forall i :: 0 <= i < |log| && log[i].oid in tree ==> log[i].offset + tree[log[i].oid].size <= n
  {
    if log == [] then 0 else
      var m, r := Farthest(log[..|log| - 1], tree), log[|log| - 1];
      if r.oid in tree && m < r.offset + tree[r.oid].size then r.offset + tree[r.oid].size else m
  }

  /** How many one-byte objects fill the last batch of the index and, if an old record points past the
      data, the data up to there. */
  function Filling(s: Store): (k: nat)
    requires s.Open?
    ensures k > 0 && (|s.log| + k) % BATCH == 0 && Farthest(s.log, s.tree) <= |s.data| + k
    ensures |s.data| + k <= BATCH + if Farthest(s.log, s.tree) > |s.data| then Farthest(s.log, s.tree) else |s.data|
  {
    var far := Farthest(s.log, s.tree);
    var need := if far > |s.data| then far - |s.data| else 0;
    need + (BATCH - (|s.log| + need) % BATCH)
  }

  /** There is room for them below 4 GiB. */
  predicate HasRoom(s: Store) {
    s.Open? && |s.data| + Filling(s) <= UINT32
  }

  lemma GrownRoomy(s: Store, k: nat, t: Store)
    requires GrownBy(s, k, t) && |s.data| + k >= Farthest(s.log, s.tree)
    ensures Roomy(t.log, t.data)
  {
    hide Replay, ChunkOk, InFile;
    ChunkFacts(s.log, s.data, s.lastOid);
    forall i | 0 <= i < |t.log| && t.log[i].oid in Replay(t.log)
      ensures t.log[i].offset + Replay(t.log)[t.log[i].oid].size <= |t.data|
    {
      if i < |s.log| {
        assert t.log[..|s.log|][i] == s.log[i];
        OidMember(s.log, i);
      } else {
        assert t.log[i].oid > s.lastOid;
        NewSize(s, k, t, t.log[i].oid);
      }
    }
  }

  lemma NewSize(s: Store, k: nat, t: Store, x: nat)
    requires GrownBy(s, k, t) && x in Replay(t.log) && x > s.lastOid
    ensures Replay(t.log)[x].size == 1
  {
    hide Replay, InFile;
    if x in Replay(s.log) { InReplay(s.log, x); ChunkFacts(s.log, s.data, s.lastOid); }
  }

  /** A walk without deletes of a log of whole batches, with an eye on x: it is as it was, or it is
      in the new index and its tombstones are behind. */
  ghost predicate Quiet(log: seq<Object>, data: seq<Byte>, x: nat, c: Chunk) {
    && c.log == log && c.data == data && !c.eof && c.pos <= c.read <= |log| && c.read % BATCH == 0
    && c.tree.Keys == Replay(log).Keys
    && (forall z :: z in c.tree ==> c.tree[z].oid == z && c.tree[z].size == Replay(log)[z].size)
    && (forall z :: z in c.deleted <==> Tombed(log[..c.pos], z))
    && x in c.tree && (c.tree[x] == Replay(log)[x] || (x in Replay(c.newIdx) && x in c.deleted))
    && (forall p: nat :: LiveAt(log, x, p) && p < c.pos ==> x in Replay(c.newIdx) && x in c.deleted)
  }

  lemma QuietStart(log: seq<Object>, data: seq<Byte>, x: nat)
    requires x in Replay(log) && |log| > 0 && |log| % BATCH == 0
    ensures Quiet(log, data, x, Start(log, data))
  {
    hide Replay, LiveAt;
    ReplayKeys(log);
  }

  lemma QuietRead(log: seq<Object>, data: seq<Byte>, x: nat, c: Chunk)
    requires Quiet(log, data, x, c) && c.pos == c.read < |log| && |log| % BATCH == 0
    ensures Possible(c, Read) && Quiet(log, data, x, Do(c, Read)) && Do(c, Read).read > c.pos &&
      Do(c, Read).pos == c.pos
  {
    hide Replay, LiveAt, Tombed;
    assert |log| - c.read >= BATCH;
  }

  lemma QuietPossible(log: seq<Object>, data: seq<Byte>, x: nat, c: Chunk)
    requires Quiet(log, data, x, c) && Roomy(log, data) && c.pos < c.read
    ensures Possible(c, Walk)
  {
    hide Replay, LiveAt, Tombed;
  }

  /** A record of x that is copied comes after all tombstones of x. */
  lemma CopiedLate(log: seq<Object>, data: seq<Byte>, x: nat, c: Chunk)
    requires Quiet(log, data, x, c) && SetsApart(log) && Tombed(log, x) && c.pos < c.read && Copies(c) &&
      log[c.pos].oid == x
    ensures x in c.deleted
  {
    hide Replay;
    var p := LiveRecord(log, x);
    if !Tomb(log[c.pos]) && c.tree[x] == Replay(log)[x] {
      assert c.pos == p;
      TombsBefore(log, x, p);
    }
  }

  lemma TombsBefore(log: seq<Object>, x: nat, p: nat)
    requires LiveAt(log, x, p) && Tombed(log, x)
    ensures Tombed(log[..p], x)
  {
    var q :| 0 <= q < |log| && Tomb(log[q]) && log[q].oid == x;
    assert log[..p][q] == log[q];
  }

  lemma QuietWalk(log: seq<Object>, data: seq<Byte>, x: nat, c: Chunk)
    requires Quiet(log, data, x, c) && SetsApart(log) && Tombed(log, x) && c.pos < c.read && Possible(c, Walk)
    ensures Quiet(log, data, x, Do(c, Walk)) && Do(c, Walk).pos == c.pos + 1
  {
    hide Replay, LiveAt, Tombed, SetsApart, Check;
    var c', r := Do(c, Walk), log[c.pos];
    TombStep(log, c.pos);
    assert x in c'.tree && (c'.tree[x] == Replay(log)[x] || (x in Replay(c'.newIdx) && x in c'.deleted)) by {
      WalkedX(log, data, x, c);
    }
    forall p: nat | LiveAt(log, x, p) && p < c'.pos
      ensures x in Replay(c'.newIdx) && x in c'.deleted
    {
      WalkedLive(log, data, x, c, p);
    }
  }

  lemma WalkedX(log: seq<Object>, data: seq<Byte>, x: nat, c: Chunk)
    requires Quiet(log, data, x, c) && SetsApart(log) && Tombed(log, x) && c.pos < c.read && Possible(c, Walk)
    ensures var c' := Do(c, Walk);
      x in c'.tree && (c'.tree[x] == Replay(log)[x] || (x in Replay(c'.newIdx) && x in c'.deleted))
    ensures x in Replay(c.newIdx) && x in c.deleted ==> x in Replay(Do(c, Walk).newIdx) && x in Do(c, Walk).deleted
  {
    hide Replay, LiveAt, Tombed, SetsApart, Check;
    var c', r := Do(c, Walk), log[c.pos];
    ReplayKeys(log);
    if Tomb(r) && r.oid !in c.deleted {
      ReplaySnoc(c.newIdx, r);
    } else if Copies(c) {
      ReplaySnoc(c.newIdx, c'.tree[r.oid]);
      NotTomb(log, r.oid);
      if r.oid == x { CopiedLate(log, data, x, c); }
    }
  }

  lemma NotTomb(log: seq<Object>, z: nat)
    requires z in Replay(log)
    ensures z > 0 && Replay(log)[z].oid == z && Replay(log)[z].size != TOMBSTONE
  {
    ReplayKeys(log);
  }

  lemma WalkedLive(log: seq<Object>, data: seq<Byte>, x: nat, c: Chunk, p: nat)
    requires Quiet(log, data, x, c) && SetsApart(log) && Tombed(log, x) && c.pos < c.read && Possible(c, Walk)
    requires LiveAt(log, x, p) && p <= c.pos
    ensures x in Replay(Do(c, Walk).newIdx) && x in Do(c, Walk).deleted
  {
    hide Replay, Tombed, SetsApart;
    WalkedX(log, data, x, c);
    if p == c.pos {
      var q := LiveRecord(log, x);
      LiveUnique(log, x, p, q);
      NotTomb(log, x);
      TombsBefore(log, x, p);
      if c.tree[x] == Replay(log)[x] {
        assert Copies(c);
        ReplaySnoc(c.newIdx, Do(c, Walk).tree[x]);
      }
    }
  }

  lemma {:induction false} WalkQuietly(s: Store, x: nat, n: nat) returns (acts: seq<Act>, t: Store)
    requires s.Open? && OpenOk(s) && x in s.tree && Tombed(s.log, x) && Roomy(s.log, s.data)
    requires |s.log| > 0 && |s.log| % BATCH == 0 && n <= |s.log|
    ensures Runs(s, acts, t) && t.Compacting? && t.want == s.want && t.lastOid == s.lastOid
    ensures Quiet(s.log, s.data, x, t.c) && t.c.pos == n
    decreases n
  {
    hide Runs, Replay, Tombed, SetsApart, InFile, Roomy, Quiet, Copies;
    ChunkFacts(s.log, s.data, s.lastOid);
    if n == 0 {
      NoActs(s);
      RunsSnoc(s, [], s, Begin);
      acts, t := [] + [Begin], Next(s, Begin);
      QuietStart(s.log, s.data, x);
    } else {
      acts, t := WalkQuietly(s, x, n - 1);
      QuietBounds(s.log, s.data, x, t.c);
      if t.c.pos == t.c.read {
        QuietRead(s.log, s.data, x, t.c);
        RunsSnoc(s, acts, t, Step(Read));
        acts, t := acts + [Step(Read)], Next(t, Step(Read));
      }
      QuietPossible(s.log, s.data, x, t.c);
      QuietWalk(s.log, s.data, x, t.c);
      RunsSnoc(s, acts, t, Step(Walk));
      acts, t := acts + [Step(Walk)], Next(t, Step(Walk));
    }
  }

  lemma QuietBounds(log: seq<Object>, data: seq<Byte>, x: nat, c: Chunk)
    requires Quiet(log, data, x, c)
    ensures c.pos <= c.read <= |log| && c.log == log
  {
  }

  /** The whole log is walked. Delete x, which has an old tombstone, then y, which has none. The next
      read gets both new tombstones; x's is passed over, y's is written, the catch-up stops at y's,
      and x is back. */
  lemma Resurrected(s: Store, x: nat, y: nat, m: Store) returns (acts: seq<Act>, t: Store)
    requires s.Open? && m.Compacting? && Quiet(s.log, s.data, x, m.c) && m.c.pos == |s.log|
    requires Tombed(s.log, x) && y in m.c.tree && !Tombed(s.log, y) && x != y
    ensures Runs(m, acts, t) && t.Open? && t.want == m.want - {x} - {y} && x in t.tree
  {
    hide Runs, Replay, Tombed, Quiet, MaxOid, Committed;
    QuietEnd(s.log, s.data, x, y, m.c);
    var c := m.c;
    var e1, e2, e3, e4, e5 := Step(Del(x)), Step(Del(y)), Step(Read), Step(Walk), Step(Walk);
    TwoDeletes(c, x, y);
    var m1 := Next(m, e1);
    var m2 := Next(m1, e2);
    var m3 := Next(m2, e3);
    var m4 := Next(m3, e4);
    var m5 := Next(m4, e5);
    NoActs(m);
    RunsSnoc(m, [], m, e1);
    RunsSnoc(m, [] + [e1], m1, e2);
    RunsSnoc(m, [] + [e1] + [e2], m2, e3);
    RunsSnoc(m, [] + [e1] + [e2] + [e3], m3, e4);
    RunsSnoc(m, [] + [e1] + [e2] + [e3] + [e4], m4, e5);
    RunsSnoc(m, [] + [e1] + [e2] + [e3] + [e4] + [e5], m5, Commit);
    acts, t := [] + [e1] + [e2] + [e3] + [e4] + [e5] + [Commit], Next(m5, Commit);
  }

  lemma QuietEnd(log: seq<Object>, data: seq<Byte>, x: nat, y: nat, c: Chunk)
    requires Quiet(log, data, x, c) && c.pos == |log| && Tombed(log, x) && !Tombed(log, y) && y in c.tree
    ensures c.pos == c.read == |c.log| && !c.eof && x in c.tree && c.tree[x].oid == x && c.tree[y].oid == y
    ensures x in c.deleted && y !in c.deleted && x in Replay(c.newIdx)
  {
    hide Replay, Tombed;
    assert log[..c.pos] == log;
    var p := LiveRecord(log, x);
  }

  lemma TwoDeletes(c: Chunk, x: nat, y: nat)
    requires c.pos == c.read == |c.log| && !c.eof && x in c.tree && y in c.tree && c.tree[x].oid == x &&
      c.tree[y].oid == y && x != y
    requires x in c.deleted && y !in c.deleted && x in Replay(c.newIdx)
    ensures var d := Do(Do(c, Del(x)), Del(y));
      && Possible(d, Read) && Possible(Do(d, Read), Walk) && Possible(Do(Do(d, Read), Walk), Walk)
      && var e := Do(Do(Do(d, Read), Walk), Walk);
         Walked(e) && e.newIdx != [] && x in Replay(Committed(e))
  {
    hide Replay;
    var tx, ty := c.tree[x].(size := TOMBSTONE), c.tree[y].(size := TOMBSTONE);
    var d := Do(Do(c, Del(x)), Del(y));
    assert d.log == c.log + [tx] + [ty] && d.log[|c.log|] == tx && d.log[|c.log| + 1] == ty;
    var d1 := Do(d, Read);
    var d2 := Do(d1, Walk);
    assert d2 == d1.(pos := c.pos + 1);
    var e := Do(d2, Walk);
    assert e.newIdx == c.newIdx + [ty];
    assert CutFrom(e.log, ty) == |e.log| && e.log[|e.log|..] == [];
    assert Committed(e) == c.newIdx + [ty];
    ReplaySnoc(c.newIdx, ty);
  }

  lemma {:induction false} RunsConcat(s: Store, a: seq<Act>, m: Store, b: seq<Act>, t: Store)
    requires Runs(s, a, m) && Runs(m, b, t)
    ensures Runs(s, a + b, t)
    decreases |b|
  {
    hide Enabled, Reuses, Next;
    if b == [] {
      assert a + b == a;
    } else {
      var n := |b| - 1;
      var u :| Runs(m, b[..n], u) && Enabled(u, b[n]) && !Reuses(u, b[n]) && t == Next(u, b[n]);
      RunsConcat(s, a, m, b[..n], u);
      assert (a + b)[..|a + b| - 1] == a + b[..n];
    }
  }

  /** From any sound chunk with a live object that has an old tombstone, and with that much room, there
      is a run of writes under new ids, deletes and one compaction that brings a deleted object back. */
  lemma BuriedGoesWrong(s: Store, x: nat) returns (acts: seq<Act>, t: Store)
    requires HasRoom(s) && OpenOk(s) && x in s.tree && Tombed(s.log, x)
    ensures Runs(s, acts, t) && !Right(t)
  {
    hide Runs, Replay, Tombed, Quiet, InFile, SetsApart, Roomy, Farthest;
    var k := Filling(s);
    var a, u := WriteMany(s, k);
    GrownRoomy(s, k, u);
    GrownTombs(s, k, u, x);
    var y := u.lastOid;
    InReplay(s.log, x);
    ChunkFacts(s.log, s.data, s.lastOid);
    var b, m := WalkQuietly(u, x, |u.log|);
    QuietKeys(u.log, u.data, x, m.c);
    var c;
    c, t := Resurrected(u, x, y, m);
    RunsConcat(s, a, u, b, m);
    RunsConcat(s, a + b, m, c, t);
    acts := a + b + c;
    WrongWhen(t, x);
  }

  lemma WrongWhen(t: Store, x: nat)
    requires t.Open? && x in t.tree && x !in t.want
    ensures !Right(t)
  {
    hide Replay;
  }

  lemma QuietKeys(log: seq<Object>, data: seq<Byte>, x: nat, c: Chunk)
    requires Quiet(log, data, x, c)
    ensures c.tree.Keys == Replay(log).Keys
  {
  }

  lemma GrownTombs(s: Store, k: nat, t: Store, x: nat)
    requires GrownBy(s, k, t) && k > 0 && Tombed(s.log, x)
    ensures Tombed(t.log, x) && !Tombed(t.log, t.lastOid)
  {
    hide Replay, InFile, SetsApart;
    var q :| 0 <= q < |s.log| && Tomb(s.log[q]) && s.log[q].oid == x;
    assert t.log[..|s.log|][q] == t.log[q];
    forall i | 0 <= i < |t.log| && Tomb(t.log[i]) ensures t.log[i].oid != t.lastOid {
      if i < |s.log| { assert t.log[..|s.log|][i] == s.log[i]; }
    }
  }

  /** The exact condition. For a sound open chunk: whatever is written under ids not deleted before,
      deleted and compacted from now on, readers see the right objects, if no live object has an older
      tombstone in the index; and, unless the data or an old record come within 1024 bytes of 4 GiB,
      only if. */
  lemma SafeExactly(s: Store)
    requires s.Open? && OpenOk(s) && Sized(s.log)
    ensures NoneBuried(s.log) ==> forall acts, t :: Runs(s, acts, t) ==> Right(t)
    ensures HasRoom(s) && (forall acts, t :: Runs(s, acts, t) ==> Right(t)) ==> NoneBuried(s.log)
  {
    hide Runs, Replay, Tombed, Right, ChunkOk, Sized, Filling;
    if NoneBuried(s.log) {
      forall acts, t | Runs(s, acts, t) ensures Right(t) { EveryRunIsRight(s, acts, t); }
    } else if HasRoom(s) {
      var x :| x in Replay(s.log) && Tombed(s.log, x);
      assert x in s.tree by { RightTree(s); }
      var acts, t := BuriedGoesWrong(s, x);
    }
  }

  lemma RightTree(s: Store)
    requires s.Open? && Right(s)
    ensures s.tree == Replay(s.log)
  {
  }

  /** So a write is harmless for good if, and with that much room only if, it does not take a deleted
      id. */
  lemma WriteSafeExactly(s: Store, a: Act)
    requires StoreInv(s) && a.Write? && Enabled(s, a)
    ensures !Reuses(s, a) ==> forall acts, t :: Runs(Next(s, a), acts, t) ==> Right(t)
    ensures Reuses(s, a) && HasRoom(Next(s, a)) ==> exists acts, t :: Runs(Next(s, a), acts, t) && !Right(t)
  {
    hide Runs, Replay, Tombed, Right, ChunkOk, InFile, Filling;
    var n := Next(s, a);
    if Reuses(s, a) {
      if HasRoom(n) {
        assert OpenOk(n) && a.oid in n.tree && Tombed(n.log, a.oid) by { ReusedIsBuried(s, a); }
        var acts, t := BuriedGoesWrong(n, a.oid);
      }
    } else {
      WriteKeeps(s, a);
      forall acts, t | Runs(n, acts, t) ensures Right(t) { EveryRunIsRight(n, acts, t); }
    }
  }

  lemma ReusedIsBuried(s: Store, a: Act)
    requires StoreInv(s) && a.Write? && Enabled(s, a) && Reuses(s, a)
    ensures var n := Next(s, a);
      OpenOk(n) && a.oid in n.tree && Tombed(n.log, a.oid)
  {
    hide Replay, Tombed, ChunkOk, NoneBuried;
    var o := Object(a.oid, |s.data|, |a.bytes|, a.crc);
    Written(s.log, s.data, s.lastOid, o, a.bytes);
    ChunkFacts(s.log + [o], s.data + a.bytes, a.oid);
    TombedSnoc(s.log, o);
  }
}
