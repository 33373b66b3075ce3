/** The metanode partition as a fold over its raft log: inode and dentry tables (the ordered maps
    of util/btree), the allocation cursor and the range end. */
module MetaFsm {
  import opened BigEndian
  import opened Orders
  import opened StreamKeys

  datatype Inode = Inode(mode: nat, size: nat, gen: nat, ctime: int, atime: int, mtime: int, extents: seq<ExtentKey>)
  datatype DentryKey = DentryKey(parent: nat, name: seq<Byte>)
  datatype Dentry = Dentry(inode: nat, mode: nat)

  /** One committed log entry. Garbled stands for a command or value that does not unmarshal. */
  datatype Cmd =
    | CreateInode(id: nat, ino: Inode)
    | DeleteInode(id: nat)
    | OpenInode(id: nat, atime: int)
    | AppendExtents(id: nat, exts: seq<ExtentKey>, mtime: int)
    | CreateDentry(dk: DentryKey, den: Dentry)
    | DeleteDentry(dk: DentryKey)
    | UpdatePartition(end: nat, stored: bool)
    | StoreTick
    | Garbled

  datatype Status = Ok | ExistErr | NotExistErr | DiskErr | NoStatus

  datatype State = State(inodes: map<nat, Inode>, dentries: map<DentryKey, Dentry>, cursor: nat, end: nat)

  /** appendExtents on a stored inode. */
  function Appended(v: Inode, exts: seq<ExtentKey>, mtime: int): Inode {
    var es := MergedAll(v.extents, exts);
    v.(extents := es, size := if exts == [] then v.size else Sum(es) % UINT64, mtime := mtime, gen := v.gen + 1)
  }

  function ApplyCmd(st: State, c: Cmd): State {
    match c
    case CreateInode(id, v) =>
      var st' := st.(cursor := if st.cursor < id then id else st.cursor);
      if id in st.inodes then st' else st'.(inodes := st.inodes[id := v])
    case DeleteInode(id) => st.(inodes := st.inodes - {id})
    case OpenInode(id, t) => if id in st.inodes then st.(inodes := st.inodes[id := st.inodes[id].(atime := t)]) else st
    case AppendExtents(id, exts, t) =>
      if id in st.inodes then st.(inodes := st.inodes[id := Appended(st.inodes[id], exts, t)]) else st
    case CreateDentry(k, d) => if k in st.dentries then st else st.(dentries := st.dentries[k := d])
    case DeleteDentry(k) => st.(dentries := st.dentries - {k})
    case UpdatePartition(end, stored) => if stored then st.(end := end) else st
    case StoreTick => st
    case Garbled => st
  }

  function StatusOf(st: State, c: Cmd): Status {
    match c
    case CreateInode(id, _) => if id in st.inodes then ExistErr else Ok
    case DeleteInode(id) => if id in st.inodes then Ok else NotExistErr
    case OpenInode(id, _) => if id in st.inodes then Ok else NotExistErr
    case AppendExtents(id, _, _) => if id in st.inodes then Ok else NotExistErr
    case CreateDentry(k, _) => if k in st.dentries then ExistErr else Ok
    case DeleteDentry(k) => if k in st.dentries then Ok else NotExistErr
    case UpdatePartition(_, stored) => if stored then Ok else DiskErr
    case StoreTick => NoStatus
    case Garbled => NoStatus
  }

  function Run(st: State, log: seq<Cmd>): State
    decreases |log|
  {
    if log == [] then st else ApplyCmd(Run(st, log[..|log| - 1]), log[|log| - 1])
  }

  lemma {:induction false} RunConcat(st: State, a: seq<Cmd>, b: seq<Cmd>)
    ensures Run(st, a + b) == Run(Run(st, a), b)
    decreases |b|
  {
    if b == [] {
      assert a + b == a;
    } else {
      assert (a + b)[..|a + b| - 1] == a + b[..|b| - 1];
      RunConcat(st, a, b[..|b| - 1]);
    }
  }

  /** The partition object: Apply and the operations under it update its fields in place. */
  class MetaPartition {
    var inodes: map<nat, Inode>
    var dentries: map<DentryKey, Dentry>
    var cursor: nat
    var end: nat
    var applyId: nat

    constructor (end: nat)
      ensures View() == State(map[], map[], 0, end) && applyId == 0
    {
      inodes, dentries, cursor, applyId := map[], map[], 0, 0;
      this.end := end;
    }

    ghost function View(): State
      reads this
    {
      State(inodes, dentries, cursor, end)
    }

    /** Apply: the state moves by ApplyCmd and the apply index is always taken over. */
    method Apply(c: Cmd, index: nat) returns (status: Status)
      modifies this
      ensures View() == ApplyCmd(old(View()), c) && status == StatusOf(old(View()), c)
      ensures applyId == index
    {
      status := NoStatus;
      match c {
        case CreateInode(id, v) =>
          if cursor < id { cursor := id; }
          status := Create(id, v);
        case DeleteInode(id) =>
          status := if id in inodes then Ok else NotExistErr;
          inodes := inodes - {id};
        case OpenInode(id, t) =>
          if id in inodes {
            inodes := inodes[id := inodes[id].(atime := t)];
            status := Ok;
          } else {
            status := NotExistErr;
          }
        case AppendExtents(id, exts, t) => status := Append(id, exts, t);
        case CreateDentry(k, d) =>
          if k in dentries {
            status := ExistErr;
          } else {
            dentries := dentries[k := d];
            status := Ok;
          }
        case DeleteDentry(k) =>
          status := if k in dentries then Ok else NotExistErr;
          dentries := dentries - {k};
        case UpdatePartition(e, stored) =>
          var oldEnd := end;
          end := e;
          status := Ok;
          if !stored {
            end := oldEnd;
            status := DiskErr;
          }
        case StoreTick =>
        case Garbled =>
      }
      applyId := index;
    }

    method Create(id: nat, v: Inode) returns (status: Status)
      modifies this`inodes
      ensures inodes == if id in old(inodes) then old(inodes) else old(inodes)[id := v]
      ensures status == if id in old(inodes) then ExistErr else Ok
    {
      if id in inodes { return ExistErr; }
      inodes := inodes[id := v];
      return Ok;
    }

    /** loadInode: each frame is created and pushes the cursor up. */
    method LoadInodes(frames: seq<Frame>)
      modifies this`inodes, this`cursor
      ensures View() == Run(old(View()), Creates(frames))
    {
      var i := 0;
      while i < |frames|
        invariant i <= |frames| && View() == Run(old(View()), Creates(frames[..i]))
      {
        var status := Create(frames[i].id, frames[i].ino);
        if cursor < frames[i].id { cursor := frames[i].id; }
        assert Creates(frames[..i + 1])[..i] == Creates(frames[..i]);
        i := i + 1;
      }
      assert frames[..i] == frames;
    }

    /** appendExtents: each extent goes through AppendExtents of the stored inode. */
    method Append(id: nat, exts: seq<ExtentKey>, t: int) returns (status: Status)
      modifies this`inodes
      ensures id in old(inodes) ==> inodes == old(inodes)[id := Appended(old(inodes)[id], exts, t)] && status == Ok
      ensures id !in old(inodes) ==> inodes == old(inodes) && status == NotExistErr
    {
      if id !in inodes { return NotExistErr; }
      var v := inodes[id];
      var i := 0;
      while i < |exts|
        invariant i <= |exts| && inodes == old(inodes)
        invariant v == inodes[id].(extents := MergedAll(inodes[id].extents, exts[..i]),
                                   size := if i == 0 then inodes[id].size
                                     else Sum(MergedAll(inodes[id].extents, exts[..i])) % UINT64)
      {
        var es := Merged(v.extents, exts[i]);
        assert exts[..i + 1][..i] == exts[..i];
        v := v.(extents := es, size := Sum(es) % UINT64);
        i := i + 1;
      }
      assert exts[..i] == exts;
      inodes := inodes[id := v.(mtime := t, gen := v.gen + 1)];
      return Ok;
    }
  }

  // ----- what the answers mean -----

  /** For an inode: a create is answered ok exactly if the id was free, and leaves the given inode or the
      one that was there; a delete, an open or an append is answered ok exactly if it was there. No
      other inode, no dentry and no range end changes, and the cursor only by a create. */
  lemma InodeAnswers(st: State, id: nat, v: Inode, t: int, exts: seq<ExtentKey>)
    ensures var s, c := ApplyCmd(st, CreateInode(id, v)), CreateInode(id, v);
      && StatusOf(st, c) == (if Lookup(st.inodes, id).None? then Ok else ExistErr)
      && Lookup(s.inodes, id) == Some(if StatusOf(st, c) == Ok then v else st.inodes[id])
      && OnlyInode(st, s, id) && s.cursor >= id && (s.cursor == id || s.cursor == st.cursor) && s.cursor >= st.cursor
    ensures var s := ApplyCmd(st, DeleteInode(id));
      && StatusOf(st, DeleteInode(id)) == Found(st.inodes, id)
      && Lookup(s.inodes, id) == None && OnlyInode(st, s, id) && s.cursor == st.cursor
    ensures var s := ApplyCmd(st, OpenInode(id, t));
      && StatusOf(st, OpenInode(id, t)) == Found(st.inodes, id)
      && (id !in st.inodes ==> s == st)
      && (id in st.inodes ==> Lookup(s.inodes, id) == Some(st.inodes[id].(atime := t)))
      && OnlyInode(st, s, id) && s.cursor == st.cursor
    ensures var s := ApplyCmd(st, AppendExtents(id, exts, t));
      && StatusOf(st, AppendExtents(id, exts, t)) == Found(st.inodes, id)
      && (id !in st.inodes ==> s == st)
      && OnlyInode(st, s, id) && s.cursor == st.cursor
  {
  }

  function Found<K, V>(m: map<K, V>, k: K): Status { if Lookup(m, k).Some? then Ok else NotExistErr }

  /** Nothing but inode id and the cursor may differ. */
  ghost predicate OnlyInode(st: State, s: State, id: nat) {
    && s.dentries == st.dentries && s.end == st.end
    && forall i :: i != id ==> Lookup(s.inodes, i) == Lookup(st.inodes, i)
  }

  /** The same for a dentry. */
  lemma DentryAnswers(st: State, k: DentryKey, d: Dentry)
    ensures var s, c := ApplyCmd(st, CreateDentry(k, d)), CreateDentry(k, d);
      && StatusOf(st, c) == (if Lookup(st.dentries, k).None? then Ok else ExistErr)
      && Lookup(s.dentries, k) == Some(if StatusOf(st, c) == Ok then d else st.dentries[k]) && OnlyDentry(st, s, k)
    ensures var s := ApplyCmd(st, DeleteDentry(k));
      StatusOf(st, DeleteDentry(k)) == Found(st.dentries, k) && Lookup(s.dentries, k) == None && OnlyDentry(st, s, k)
  {
  }

  ghost predicate OnlyDentry(st: State, s: State, k: DentryKey) {
    && s.inodes == st.inodes && s.cursor == st.cursor && s.end == st.end
    && forall l :: l != k ==> Lookup(s.dentries, l) == Lookup(st.dentries, l)
  }

  /** In every log, two creates of one name are both answered ok only with a delete answered ok between
      them: of several clients that create the same name, one wins. */
  lemma OneWins(st: State, log: seq<Cmd>, i: nat, j: nat, k: DentryKey)
    requires i < j < |log| && log[i].CreateDentry? && log[j].CreateDentry? && log[i].dk == log[j].dk == k
    requires StatusOf(Run(st, log[..i]), log[i]) == Ok && StatusOf(Run(st, log[..j]), log[j]) == Ok
    ensures exists m :: i < m < j && log[m] == DeleteDentry(k) && StatusOf(Run(st, log[..m]), log[m]) == Ok
  {
    if forall m :: i < m < j && log[m] == DeleteDentry(k) ==> StatusOf(Run(st, log[..m]), log[m]) != Ok {
      StaysThere(st, log, i, j, k);
      assert false;
    }
  }

  lemma {:induction false} StaysThere(st: State, log: seq<Cmd>, i: nat, j: nat, k: DentryKey)
    requires i < j <= |log| && log[i].CreateDentry? && log[i].dk == k
    requires forall m :: i < m < j && log[m] == DeleteDentry(k) ==> StatusOf(Run(st, log[..m]), log[m]) != Ok
    ensures k in Run(st, log[..j]).dentries
    decreases j
  {
    assert log[..j][..j - 1] == log[..j - 1];
    if i < j - 1 { StaysThere(st, log, i, j - 1, k); }
  }

  /** The range end after a log is the one of the last update that could be stored. */
  function LastEnd(end: nat, log: seq<Cmd>): nat {
    if log == [] then end else
      var c := log[|log| - 1];
      if c.UpdatePartition? && c.stored then c.end else LastEnd(end, log[..|log| - 1])
  }

  lemma {:induction false} EndIsLastStored(st: State, log: seq<Cmd>)
    ensures Run(st, log).end == LastEnd(st.end, log)
    ensures forall i :: 0 <= i < |log| && log[i].UpdatePartition? ==>
      (StatusOf(Run(st, log[..i]), log[i]) == if log[i].stored then Ok else DiskErr)
    decreases |log|
  {
    if log != [] {
      EndIsLastStored(st, log[..|log| - 1]);
    }
  }

  // ----- loading the inode file -----

  datatype Frame = Frame(id: nat, ino: Inode)

  function Creates(frames: seq<Frame>): seq<Cmd> {
    seq(|frames|, i requires 0 <= i < |frames| => CreateInode(frames[i].id, frames[i].ino))
  }

  ghost function MaxOf(ids: set<nat>): (m: nat)
    ensures forall id :: id in ids ==> id <= m
    ensures m in ids || (ids == {} && m == 0)
  {
    if ids == {} then 0 else
      var x :| x in ids;
      assert ids == ids - {x} + {x};
      var m := MaxOf(ids - {x});
      if m < x then x else m
  }

  /** The frames list the table, each inode once. */
  ghost predicate Lists(frames: seq<Frame>, table: map<nat, Inode>) {
    && (forall i, j :: 0 <= i < j < |frames| ==> frames[i].id != frames[j].id)
    && (forall i :: 0 <= i < |frames| ==> Lookup(table, frames[i].id) == Some(frames[i].ino))
    && (forall id :: id in table ==> exists i :: 0 <= i < |frames| && frames[i].id == id)
  }

  lemma ListsFront(frames: seq<Frame>, table: map<nat, Inode>)
    requires Lists(frames, table) && frames != []
    ensures Lists(frames[..|frames| - 1], table - {frames[|frames| - 1].id})
    ensures Lookup(table, frames[|frames| - 1].id) == Some(frames[|frames| - 1].ino)
  {
    var n, rest := |frames| - 1, table - {frames[|frames| - 1].id};
    forall id | id in rest ensures exists i :: 0 <= i < n && frames[..n][i].id == id {
      var i :| 0 <= i < |frames| && frames[i].id == id;
      assert frames[..n][i].id == id;
    }
  }

  lemma MaxWith(ids: set<nat>, x: nat)
    ensures MaxOf(ids + {x}) == if MaxOf(ids) < x then x else MaxOf(ids)
  {
    hide MaxOf;
    assert x in ids + {x};
  }

  /** The frames of a file rebuild the table they list, and the cursor is its largest id. */
  lemma {:induction false} FramesRebuild(end: nat, table: map<nat, Inode>, frames: seq<Frame>)
    requires Lists(frames, table)
    ensures Run(State(map[], map[], 0, end), Creates(frames)) == State(table, map[], MaxOf(table.Keys), end)
    decreases |frames|
  {
    hide MaxOf, Lists, ApplyCmd;
    if frames == [] {
      NothingListed(table);
    } else {
      var f, n := frames[|frames| - 1], |frames| - 1;
      assert Creates(frames)[..n] == Creates(frames[..n]);
      ListsFront(frames, table);
      FramesRebuild(end, table - {f.id}, frames[..n]);
      LastFrame(end, table, f);
    }
  }

  lemma NothingListed(table: map<nat, Inode>)
    requires Lists([], table)
    ensures table == map[] && MaxOf(table.Keys) == 0
  {
    hide MaxOf;
    assert table.Keys == {};
  }

  lemma LastFrame(end: nat, table: map<nat, Inode>, f: Frame)
    requires Lookup(table, f.id) == Some(f.ino)
    ensures var rest := table - {f.id};
      ApplyCmd(State(rest, map[], MaxOf(rest.Keys), end), CreateInode(f.id, f.ino)) ==
        State(table, map[], MaxOf(table.Keys), end)
  {
    hide MaxOf;
    var rest := table - {f.id};
    assert rest[f.id := f.ino] == table;
    assert table.Keys == rest.Keys + {f.id};
    MaxWith(rest.Keys, f.id);
  }

  /** The cursor never falls below an inode that exists. */
  ghost predicate CursorCovers(st: State) {
    forall id :: id in st.inodes ==> id <= st.cursor
  }

  lemma {:induction false} CursorStaysAhead(st: State, log: seq<Cmd>)
    requires CursorCovers(st)
    ensures CursorCovers(Run(st, log)) && Run(st, log).cursor >= st.cursor
    decreases |log|
  {
    if log != [] { CursorStaysAhead(st, log[..|log| - 1]); }
  }

  // ----- one inode at a time -----

  function Lookup<K, V>(m: map<K, V>, k: K): Option<V> {
    if k in m then Some(m[k]) else None
  }

  datatype KeyOp = Create(ino: Inode) | Delete | Open(atime: int) | Append(exts: seq<ExtentKey>, mtime: int)

  function StepKey(s: Option<Inode>, op: KeyOp): Option<Inode> {
    match op
    case Create(v) => if s.Some? then s else Some(v)
    case Delete => None
    case Open(t) => if s.Some? then Some(s.value.(atime := t)) else s
    case Append(exts, t) => if s.Some? then Some(Appended(s.value, exts, t)) else s
  }

  function RunKey(s: Option<Inode>, ops: seq<KeyOp>): Option<Inode>
    decreases |ops|
  {
    if ops == [] then s else StepKey(RunKey(s, ops[..|ops| - 1]), ops[|ops| - 1])
  }

  /** The entries of the log that touch inode id. */
  function OpOf(c: Cmd, id: nat): seq<KeyOp> {
    match c
    case CreateInode(i, v) => if i == id then [Create(v)] else []
    case DeleteInode(i) => if i == id then [Delete] else []
    case OpenInode(i, t) => if i == id then [Open(t)] else []
    case AppendExtents(i, exts, t) => if i == id then [Append(exts, t)] else []
    case _ => []
  }

  function Project(log: seq<Cmd>, id: nat): seq<KeyOp>
    decreases |log|
  {
    if log == [] then [] else Project(log[..|log| - 1], id) + OpOf(log[|log| - 1], id)
  }

  lemma {:induction false} ProjectConcat(a: seq<Cmd>, b: seq<Cmd>, id: nat)
    ensures Project(a + b, id) == Project(a, id) + Project(b, id)
    decreases |b|
  {
    hide OpOf;
    if b == [] {
      assert a + b == a;
    } else {
      assert (a + b)[..|a + b| - 1] == a + b[..|b| - 1];
      ProjectConcat(a, b[..|b| - 1], id);
    }
  }

  lemma {:induction false} RunKeyConcat(s: Option<Inode>, a: seq<KeyOp>, b: seq<KeyOp>)
    ensures RunKey(s, a + b) == RunKey(RunKey(s, a), b)
    decreases |b|
  {
    if b == [] {
      assert a + b == a;
    } else {
      assert (a + b)[..|a + b| - 1] == a + b[..|b| - 1];
      RunKeyConcat(s, a, b[..|b| - 1]);
    }
  }

  lemma InodeStepsAlone(st: State, c: Cmd, id: nat)
    ensures Lookup(ApplyCmd(st, c).inodes, id) == RunKey(Lookup(st.inodes, id), OpOf(c, id))
  {
    hide Appended;
    var ops := OpOf(c, id);
    if ops != [] { assert ops[..0] == [] && RunKey(Lookup(st.inodes, id), ops[..0]) == Lookup(st.inodes, id); }
  }

  /** Inodes evolve independently: the log acts on each through its own entries. */
  lemma {:induction false} InodeRunsAlone(st: State, log: seq<Cmd>, id: nat)
    ensures Lookup(Run(st, log).inodes, id) == RunKey(Lookup(st.inodes, id), Project(log, id))
    decreases |log|
  {
    hide OpOf, ApplyCmd, StepKey;
    if log != [] {
      var log0, c := log[..|log| - 1], log[|log| - 1];
      InodeRunsAlone(st, log0, id);
      InodeStepsAlone(Run(st, log0), c, id);
      RunKeyConcat(Lookup(st.inodes, id), Project(log0, id), OpOf(c, id));
    }
  }

  datatype DentryOp = Link(den: Dentry) | Unlink

  function StepDentry(s: Option<Dentry>, op: DentryOp): Option<Dentry> {
    match op
    case Link(d) => if s.Some? then s else Some(d)
    case Unlink => None
  }

  function RunDentry(s: Option<Dentry>, ops: seq<DentryOp>): Option<Dentry>
    decreases |ops|
  {
    if ops == [] then s else StepDentry(RunDentry(s, ops[..|ops| - 1]), ops[|ops| - 1])
  }

  function DentryOpOf(c: Cmd, k: DentryKey): seq<DentryOp> {
    match c
    case CreateDentry(l, d) => if l == k then [Link(d)] else []
    case DeleteDentry(l) => if l == k then [Unlink] else []
    case _ => []
  }

  function ProjectDentry(log: seq<Cmd>, k: DentryKey): seq<DentryOp>
    decreases |log|
  {
    if log == [] then [] else ProjectDentry(log[..|log| - 1], k) + DentryOpOf(log[|log| - 1], k)
  }

  lemma {:induction false} ProjectDentryConcat(a: seq<Cmd>, b: seq<Cmd>, k: DentryKey)
    ensures ProjectDentry(a + b, k) == ProjectDentry(a, k) + ProjectDentry(b, k)
    decreases |b|
  {
    if b == [] {
      assert a + b == a;
    } else {
      assert (a + b)[..|a + b| - 1] == a + b[..|b| - 1];
      ProjectDentryConcat(a, b[..|b| - 1], k);
    }
  }

  lemma {:induction false} RunDentryConcat(s: Option<Dentry>, a: seq<DentryOp>, b: seq<DentryOp>)
    ensures RunDentry(s, a + b) == RunDentry(RunDentry(s, a), b)
    decreases |b|
  {
    if b == [] {
      assert a + b == a;
    } else {
      assert (a + b)[..|a + b| - 1] == a + b[..|b| - 1];
      RunDentryConcat(s, a, b[..|b| - 1]);
    }
  }

  lemma DentryStepsAlone(st: State, c: Cmd, k: DentryKey)
    ensures Lookup(ApplyCmd(st, c).dentries, k) == RunDentry(Lookup(st.dentries, k), DentryOpOf(c, k))
  {
    hide Appended;
    var ops := DentryOpOf(c, k);
    if ops != [] { assert ops[..0] == [] && RunDentry(Lookup(st.dentries, k), ops[..0]) == Lookup(st.dentries, k); }
  }

  lemma {:induction false} DentryRunsAlone(st: State, log: seq<Cmd>, k: DentryKey)
    ensures Lookup(Run(st, log).dentries, k) == RunDentry(Lookup(st.dentries, k), ProjectDentry(log, k))
    decreases |log|
  {
    hide DentryOpOf, ApplyCmd, StepDentry;
    if log != [] {
      var log0, c := log[..|log| - 1], log[|log| - 1];
      DentryRunsAlone(st, log0, k);
      DentryStepsAlone(Run(st, log0), c, k);
      RunDentryConcat(Lookup(st.dentries, k), ProjectDentry(log0, k), DentryOpOf(c, k));
    }
  }
}
