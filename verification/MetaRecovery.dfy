/** Crash recovery from a fuzzy checkpoint. The inode and dentry files are written from live trees,
    so each key stands in them as of some moment between the stored apply index and the crash;
    replaying the log from the apply index brings every key to its final state. */
module MetaRecovery {
  import opened Orders
  import opened StreamKeys
  import opened MetaFsm

  // ----- closed forms for one inode -----

  function LastOpen(ops: seq<KeyOp>, t: int): int {
    if ops == [] then t else
      var op := ops[|ops| - 1];
      if op.Open? then op.atime else LastOpen(ops[..|ops| - 1], t)
  }

  function LastAppend(ops: seq<KeyOp>, t: int): int {
    if ops == [] then t else
      var op := ops[|ops| - 1];
      if op.Append? then op.mtime else LastAppend(ops[..|ops| - 1], t)
  }

  function AllExts(ops: seq<KeyOp>): seq<ExtentKey> {
    if ops == [] then [] else
      var op := ops[|ops| - 1];
      AllExts(ops[..|ops| - 1]) + (if op.Append? then op.exts else [])
  }

  function Appends(ops: seq<KeyOp>): nat {
    if ops == [] then 0 else Appends(ops[..|ops| - 1]) + (if ops[|ops| - 1].Append? then 1 else 0)
  }

  function Worked(v: Inode, ops: seq<KeyOp>): Inode {
    var es := MergedAll(v.extents, AllExts(ops));
    Inode(v.mode, if AllExts(ops) == [] then v.size else Sum(es) % UINT64, v.gen + Appends(ops), v.ctime,
          LastOpen(ops, v.atime), LastAppend(ops, v.mtime), es)
  }

  /** Without a delete, what the entries do to a present inode. */
  lemma {:induction false} RunPresent(v: Inode, ops: seq<KeyOp>)
    requires Delete !in ops
    ensures RunKey(Some(v), ops) == Some(Worked(v, ops))
    decreases |ops|
  {
    hide Worked, StepKey;
    if ops != [] {
      var ops0, op := ops[..|ops| - 1], ops[|ops| - 1];
      assert ops == ops0 + [op];
      RunPresent(v, ops0);
      WorkedStep(v, ops0, op);
    } else {
      assert Worked(v, []) == v by { NoWork(v); }
    }
  }

  lemma NoWork(v: Inode)
    ensures Worked(v, []) == v
  {
  }

  lemma RunOne(s: Option<Inode>, op: KeyOp)
    ensures RunKey(s, [op]) == StepKey(s, op)
  {
    hide StepKey;
    assert [op][..0] == [];
  }

  lemma WorkedStep(v: Inode, ops: seq<KeyOp>, op: KeyOp)
    requires op != Delete
    ensures StepKey(Some(Worked(v, ops)), op) == Some(Worked(v, ops + [op]))
  {
    assert (ops + [op])[..|ops|] == ops;
    if op.Append? {
      PutAllConcat(v.extents, AllExts(ops), op.exts);
      assert AllExts(ops + [op]) == AllExts(ops) + op.exts;
    } else {
      assert AllExts(ops + [op]) == AllExts(ops);
    }
  }

  function FirstCreate(ops: seq<KeyOp>): (c: nat)
    ensures c <= |ops| && (c < |ops| ==> ops[c].Create?)
    ensures forall i :: 0 <= i < c ==> !ops[i].Create?
  {
    if ops == [] || ops[0].Create? then 0 else 1 + FirstCreate(ops[1..])
  }

  lemma {:induction false} RunAbsent(ops: seq<KeyOp>)
    requires forall i :: 0 <= i < |ops| ==> !ops[i].Create?
    ensures RunKey(None, ops) == None
    decreases |ops|
  {
    if ops != [] { RunAbsent(ops[..|ops| - 1]); }
  }

  /** A delete wipes out whatever was there before. */
  lemma {:induction false} DeleteForgets(s: Option<Inode>, s': Option<Inode>, ops: seq<KeyOp>)
    requires Delete in ops
    ensures RunKey(s, ops) == RunKey(s', ops)
    decreases |ops|
  {
    var ops0, op := ops[..|ops| - 1], ops[|ops| - 1];
    assert ops == ops0 + [op];
    if op != Delete { DeleteForgets(s, s', ops0); }
  }

  /** Starting absent, with no delete and a create at c: only the entries after c count. */
  lemma RunFromCreate(ops: seq<KeyOp>, c: nat)
    requires Delete !in ops && c == FirstCreate(ops) < |ops|
    ensures RunKey(None, ops) == RunKey(Some(ops[c].ino), ops[c + 1..])
  {
    hide RunKey, Appended, FirstCreate;
    assert ops == ops[..c] + ([ops[c]] + ops[c + 1..]);
    RunAbsent(ops[..c]);
    RunKeyConcat(None, ops[..c], [ops[c]] + ops[c + 1..]);
    RunKeyConcat(None, [ops[c]], ops[c + 1..]);
    RunOne(None, ops[c]);
  }

  // ----- when replaying is safe -----

  predicate HasOpen(ops: seq<KeyOp>) {
    ops != [] && (ops[|ops| - 1].Open? || HasOpen(ops[..|ops| - 1]))
  }

  predicate HasAppend(ops: seq<KeyOp>) {
    ops != [] && (ops[|ops| - 1].Append? || HasAppend(ops[..|ops| - 1]))
  }

  /** s is the inode at the stored apply index, ops its entries after that. Replaying can go wrong
      only for an inode absent at that index, created and not deleted since, that was opened or
      appended to before its create: such an entry did nothing, but on replay may find the inode. */
  ghost predicate Safe(s: Option<Inode>, ops: seq<KeyOp>) {
    var c := FirstCreate(ops);
    s.Some? || Delete in ops || c == |ops| ||
    (!HasAppend(ops[..c]) && (HasOpen(ops[..c]) ==> HasOpen(ops[c + 1..])))
  }

  ghost predicate SameButGen(a: Option<Inode>, b: Option<Inode>) {
    (a.None? && b.None?) || (a.Some? && b.Some? && a.value.(gen := 0) == b.value.(gen := 0))
  }

  ghost predicate GoodExtents(s: Option<Inode>, ops: seq<KeyOp>) {
    (s.Some? ==> Distinct(s.value.extents)) && forall i :: 0 <= i < |ops| && ops[i].Create? ==>
      Distinct(ops[i].ino.extents)
  }

  lemma {:induction false} LastSplit(a: seq<KeyOp>, b: seq<KeyOp>, t: int)
    ensures LastOpen(a + b, t) == LastOpen(b, LastOpen(a, t))
    ensures LastAppend(a + b, t) == LastAppend(b, LastAppend(a, t))
    decreases |b|
  {
    if b == [] {
      assert a + b == a;
    } else {
      assert (a + b)[..|a + b| - 1] == a + b[..|b| - 1];
      LastSplit(a, b[..|b| - 1], t);
    }
  }

  lemma {:induction false} ExtsSplit(a: seq<KeyOp>, b: seq<KeyOp>)
    ensures AllExts(a + b) == AllExts(a) + AllExts(b) && Appends(a + b) == Appends(a) + Appends(b)
    decreases |b|
  {
    if b == [] {
      assert a + b == a;
    } else {
      assert (a + b)[..|a + b| - 1] == a + b[..|b| - 1];
      ExtsSplit(a, b[..|b| - 1]);
    }
  }

  lemma {:induction false} HasSplit(a: seq<KeyOp>, b: seq<KeyOp>)
    ensures HasOpen(a + b) == (HasOpen(a) || HasOpen(b)) && HasAppend(a + b) == (HasAppend(a) || HasAppend(b))
    decreases |b|
  {
    if b == [] {
      assert a + b == a;
    } else {
      assert (a + b)[..|a + b| - 1] == a + b[..|b| - 1];
      HasSplit(a, b[..|b| - 1]);
    }
  }

  lemma LastOpenSplit(a: seq<KeyOp>, b: seq<KeyOp>, t: int)
    ensures LastOpen(a + b, t) == LastOpen(b, LastOpen(a, t))
    ensures LastAppend(a + b, t) == LastAppend(b, LastAppend(a, t))
    ensures AllExts(a + b) == AllExts(a) + AllExts(b) && Appends(a + b) == Appends(a) + Appends(b)
    ensures HasOpen(a + b) == (HasOpen(a) || HasOpen(b)) && HasAppend(a + b) == (HasAppend(a) || HasAppend(b))
  {
    hide LastOpen, LastAppend, AllExts, Appends, HasOpen, HasAppend;
    LastSplit(a, b, t);
    ExtsSplit(a, b);
    HasSplit(a, b);
  }

  lemma {:induction false} LastOpenAny(ops: seq<KeyOp>, t: int, u: int)
    ensures HasOpen(ops) ==> LastOpen(ops, t) == LastOpen(ops, u)
    ensures !HasOpen(ops) ==> LastOpen(ops, t) == t
    ensures HasAppend(ops) ==> LastAppend(ops, t) == LastAppend(ops, u)
    ensures !HasAppend(ops) ==> LastAppend(ops, t) == t && AllExts(ops) == [] && Appends(ops) == 0
    decreases |ops|
  {
    if ops != [] { LastOpenAny(ops[..|ops| - 1], t, u); }
  }

  /** Working a prefix of the entries and then all of them again differs from working them once
      only in the generation. */
  lemma WorkedAgain(v: Inode, ops: seq<KeyOp>, j: nat)
    requires Distinct(v.extents) && j <= |ops|
    ensures Worked(Worked(v, ops[..j]), ops) == Worked(v, ops).(gen := v.gen + Appends(ops) + Appends(ops[..j]))
  {
    var a, b := ops[..j], ops[j..];
    assert ops == a + b;
    LastOpenSplit(a, b, v.atime);
    LastOpenSplit(a, b, v.mtime);
    LastOpenAny(ops, v.atime, LastOpen(a, v.atime));
    LastOpenAny(ops, v.mtime, LastAppend(a, v.mtime));
    LastOpenAny(a, v.atime, v.atime);
    LastOpenAny(a, v.mtime, v.mtime);
    var ea, eb := AllExts(a), AllExts(b);
    PutAgain(v.extents, ea, ea);
    PutAllConcat(MergedAll(v.extents, ea), ea, eb);
    PutAllConcat(v.extents, ea, eb);
  }

  /** Recovery of one inode from any fuzzy version: right in every field but the generation, which
      counts the replayed appends twice unless a delete came between. */
  lemma InodeRecovers(s: Option<Inode>, ops: seq<KeyOp>, j: nat)
    requires j <= |ops| && Safe(s, ops) && GoodExtents(s, ops)
    ensures var r, t := RunKey(RunKey(s, ops[..j]), ops), RunKey(s, ops);
      && SameButGen(r, t)
      && (t.Some? ==>
          r.value.gen == t.value.gen + if Delete in ops || RunKey(s, ops[..j]).None? then 0 else Appends(ops[..j]))
  {
    hide Worked;
    if Delete in ops {
      DeleteForgets(RunKey(s, ops[..j]), s, ops);
    } else if s.Some? {
      RunPresent(s.value, ops[..j]);
      RunPresent(s.value, ops);
      RunPresent(Worked(s.value, ops[..j]), ops);
      WorkedAgain(s.value, ops, j);
      WorkedGen(s.value, ops);
    } else if FirstCreate(ops) >= j {
      RunAbsent(ops[..j]);
    } else {
      CreatedRecovers(ops, j);
    }
  }

  lemma WorkedGen(v: Inode, ops: seq<KeyOp>)
    ensures Worked(v, ops).gen == v.gen + Appends(ops)
  {
  }

  /** An inode that its log creates and never deletes: the first create, then the work after it. */
  lemma CreatedRuns(ops: seq<KeyOp>, c: nat)
    requires Delete !in ops && c == FirstCreate(ops) < |ops|
    ensures RunKey(None, ops) == Some(Worked(ops[c].ino, ops[c + 1..]))
  {
    hide *;
    RunFromCreate(ops, c);
    RunPresent(ops[c].ino, ops[c + 1..]);
  }

  /** The case of an inode created after the stored index and present in the fuzzy version. */
  lemma CreatedRecovers(ops: seq<KeyOp>, j: nat)
    requires Delete !in ops && FirstCreate(ops) < j <= |ops| && Safe(None, ops) && GoodExtents(None, ops)
    ensures var r, t := RunKey(RunKey(None, ops[..j]), ops), RunKey(None, ops);
      && SameButGen(r, t) && t.Some? && RunKey(None, ops[..j]).Some?
      && r.value.gen == t.value.gen + Appends(ops[..j])
  {
    hide Worked, RunKey, Appends, HasOpen, HasAppend, FirstCreate;
    var c := FirstCreate(ops);
    var v, post, p := ops[c].ino, ops[c + 1..], j - c - 1;
    FirstCreatePrefix(ops, j);
    assert ops[..j][c + 1..] == post[..p];
    CreatedRuns(ops, c);
    CreatedRuns(ops[..j], c);
    var w := Worked(v, post[..p]);
    RunPresent(w, ops);
    PreHarmless(w, ops, c);
    WorkedAgain(v, post, p);
    WorkedGen(v, post);
    AppendsAfter(ops, c, j);
  }

  lemma FirstCreatePrefix(ops: seq<KeyOp>, j: nat)
    requires FirstCreate(ops) < j <= |ops|
    ensures FirstCreate(ops[..j]) == FirstCreate(ops)
  {
    var c, d := FirstCreate(ops), FirstCreate(ops[..j]);
    assert ops[..j][c].Create?;
    forall i | 0 <= i < c ensures !ops[..j][i].Create? { assert ops[..j][i] == ops[i]; }
  }

  lemma AppendsAfter(ops: seq<KeyOp>, c: nat, j: nat)
    requires c < j <= |ops| && ops[c].Create? && !HasAppend(ops[..c])
    ensures Appends(ops[..j]) == Appends(ops[c + 1..][..j - c - 1])
  {
    var post := ops[c + 1..][..j - c - 1];
    assert ops[..j] == ops[..c] + ([ops[c]] + post);
    LastOpenSplit(ops[..c], [ops[c]] + post, 0);
    LastOpenSplit([ops[c]], post, 0);
    LastOpenAny(ops[..c], 0, 0);
    assert [ops[c]][..0] == [];
  }

  /** The entries before the create leave no trace beside the ones after it. */
  lemma PreHarmless(w: Inode, ops: seq<KeyOp>, c: nat)
    requires c < |ops| && ops[c].Create? && !HasAppend(ops[..c]) && (HasOpen(ops[..c]) ==> HasOpen(ops[c + 1..]))
    ensures Worked(w, ops) == Worked(w, ops[c + 1..])
  {
    hide MergedAll, Sum;
    var pre, post := ops[..c], ops[c + 1..];
    assert ops == pre + ([ops[c]] + post);
    LastOpenSplit(pre, [ops[c]] + post, w.atime);
    LastOpenSplit([ops[c]], post, LastOpen(pre, w.atime));
    LastOpenSplit(pre, [ops[c]] + post, w.mtime);
    LastOpenSplit([ops[c]], post, w.mtime);
    LastOpenAny(pre, w.atime, w.atime);
    LastOpenAny(pre, w.mtime, w.mtime);
    LastOpenAny(post, w.atime, LastOpen(pre, w.atime));
    LastOpenAny([ops[c]], LastOpen(pre, w.atime), w.atime);
    LastOpenAny([ops[c]], w.mtime, w.mtime);
    assert [ops[c]][..0] == [] && !HasOpen([]) && !HasAppend([]);
    assert AllExts(ops) == AllExts(post);
  }

  // ----- and when it is not -----

  function Kind(op: KeyOp): int {
    match op case Create(_) => 0 case Delete => 1 case Open(_) => 2 case Append(_, _) => 3
  }

  ghost predicate SameKinds(a: seq<KeyOp>, b: seq<KeyOp>) {
    |a| == |b| && forall i :: 0 <= i < |a| ==> Kind(a[i]) == Kind(b[i])
  }

  lemma {:induction false} KindsHave(a: seq<KeyOp>, b: seq<KeyOp>)
    requires SameKinds(a, b)
    ensures HasOpen(a) == HasOpen(b) && HasAppend(a) == HasAppend(b)
    decreases |a|
  {
    if a != [] { KindsHave(a[..|a| - 1], b[..|b| - 1]); }
  }

  lemma KindsCreate(a: seq<KeyOp>, b: seq<KeyOp>)
    requires SameKinds(a, b)
    ensures FirstCreate(a) == FirstCreate(b) && (Delete in a <==> Delete in b)
  {
    hide FirstCreate;
    var c, d := FirstCreate(a), FirstCreate(b);
    assert c < |a| ==> Kind(b[c]) == 0;
    assert d < |b| ==> Kind(a[d]) == 0;
    forall i | 0 <= i < |a| ensures a[i] == Delete <==> b[i] == Delete { assert Kind(a[i]) == Kind(b[i]); }
  }

  lemma KindsSafe(s: Option<Inode>, a: seq<KeyOp>, b: seq<KeyOp>)
    requires SameKinds(a, b)
    ensures Safe(s, a) == Safe(s, b)
  {
    hide FirstCreate, HasOpen, HasAppend;
    KindsCreate(a, b);
    var c := FirstCreate(a);
    if c < |a| {
      KindsHave(a[..c], b[..c]);
      KindsHave(a[c + 1..], b[c + 1..]);
    }
  }

  const PLAIN := Inode(0, 0, 1, 0, 0, 0, [])

  /** Entries of the same kinds with telling values: opens set time 1, appends before the create
      bring an extent, those after it bring none. */
  function Telling(op: KeyOp, early: bool): KeyOp {
    match op
    case Create(_) => Create(PLAIN)
    case Delete => Delete
    case Open(_) => Open(1)
    case Append(_, _) => Append(if early then [ExtentKey(0, 0, 1, 0)] else [], 0)
  }

  function TellingOps(ops: seq<KeyOp>, c: nat): (r: seq<KeyOp>)
    ensures SameKinds(ops, r)
  {
    seq(|ops|, i requires 0 <= i < |ops| => Telling(ops[i], i < c))
  }

  lemma {:induction false} TellingValues(ops: seq<KeyOp>, early: bool, t: int)
    requires forall i :: 0 <= i < |ops| ==> ops[i] == Telling(ops[i], early)
    ensures LastOpen(ops, t) == if HasOpen(ops) then 1 else t
    ensures !early ==> AllExts(ops) == []
    ensures early ==> (HasAppend(ops) <==> AllExts(ops) != [])
    decreases |ops|
  {
    if ops != [] { TellingValues(ops[..|ops| - 1], early, t); }
  }

  lemma {:induction false} NotEmptied(es: seq<ExtentKey>, ks: seq<ExtentKey>)
    ensures |MergedAll(es, ks)| >= |es| && (ks != [] ==> MergedAll(es, ks) != [])
    decreases |ks|
  {
    if ks != [] { NotEmptied(es, ks[..|ks| - 1]); }
  }

  /** Telling entries with their first create at c, as they run on nothing and on what they leave up to
      the create. */
  lemma TellingRuns(bad: seq<KeyOp>, c: nat)
    requires Delete !in bad && c == FirstCreate(bad) < |bad| && bad[c].Create? && bad[c].ino == PLAIN
    ensures RunKey(None, bad) == Some(Worked(PLAIN, bad[c + 1..]))
    ensures RunKey(RunKey(None, bad[..c + 1]), bad) == Some(Worked(PLAIN, bad))
  {
    hide FirstCreate, RunKey, Worked;
    RunFromCreate(bad, c);
    FirstCreatePrefix(bad, c + 1);
    RunFromCreate(bad[..c + 1], c);
    assert bad[..c + 1][c + 1..] == [];
    NoRun(Some(PLAIN));
    RunPresent(PLAIN, bad[c + 1..]);
    RunPresent(PLAIN, bad);
  }

  /** An append before the create leaves an extent, an open before it and none after it an access time. */
  lemma TellingDiffers(bad: seq<KeyOp>, c: nat)
    requires c < |bad| && bad[c].Create?
    requires forall i :: 0 <= i < |bad| ==> bad[i] == Telling(bad[i], i < c)
    requires HasAppend(bad[..c]) || (HasOpen(bad[..c]) && !HasOpen(bad[c + 1..]))
    ensures var a, b := Worked(PLAIN, bad), Worked(PLAIN, bad[c + 1..]); a.extents != b.extents || a.atime != b.atime
  {
    hide HasOpen, HasAppend, MergedAll, LastOpen, AllExts, LastAppend, Appends, Sum;
    var pre, post := bad[..c], bad[c + 1..];
    assert bad == pre + ([bad[c]] + post);
    TellingValues(pre, true, 0);
    TellingValues(post, false, 0);
    TellingValues(post, false, LastOpen([bad[c]], LastOpen(pre, 0)));
    TellingValues([bad[c]], false, LastOpen(pre, 0));
    LastOpenSplit(pre, [bad[c]] + post, 0);
    LastOpenSplit([bad[c]], post, LastOpen(pre, 0));
    OneHasNone(bad[c]);
    NotEmptied([], AllExts(bad));
    NoMerge([]);
  }

  /** Every unsafe pattern of entries goes wrong for some values: the recovered inode has an
      extent, or an access time, that the partition never had. */
  lemma UnsafeFails(ops: seq<KeyOp>) returns (bad: seq<KeyOp>, j: nat)
    requires !Safe(None, ops)
    ensures SameKinds(ops, bad) && GoodExtents(None, bad) && j <= |bad|
    ensures !SameButGen(RunKey(RunKey(None, bad[..j]), bad), RunKey(None, bad))
  {
    hide FirstCreate, HasOpen, HasAppend, RunKey, Worked;
    var c := FirstCreate(ops);
    bad, j := TellingOps(ops, c), c + 1;
    KindsCreate(ops, bad);
    KindsSafe(None, ops, bad);
    TellingRuns(bad, c);
    TellingDiffers(bad, c);
  }

  lemma NoRun(s: Option<Inode>)
    ensures RunKey(s, []) == s
  {
  }

  lemma NoMerge(es: seq<ExtentKey>)
    ensures MergedAll(es, []) == es
  {
  }

  lemma OneHasNone(op: KeyOp)
    requires op.Create?
    ensures !HasOpen([op]) && !HasAppend([op]) && AllExts([op]) == []
  {
    assert [op][..0] == [];
  }

  ghost predicate AlwaysRecovers(s: Option<Inode>, ops: seq<KeyOp>) {
    forall ops': seq<KeyOp>, j: nat :: SameKinds(ops, ops') && GoodExtents(s, ops') && j <= |ops'| ==>
      SameButGen(RunKey(RunKey(s, ops'[..j]), ops'), RunKey(s, ops'))
  }

  /** For an inode's state at the stored index and the kinds of its later entries, recovery is
      right for all values and all fuzzy versions if and only if the pattern is safe. */
  lemma RecoversExactlyWhenSafe(s: Option<Inode>, ops: seq<KeyOp>)
    requires s.Some? ==> Distinct(s.value.extents)
    ensures AlwaysRecovers(s, ops) <==> Safe(s, ops)
  {
    hide RunKey, FirstCreate, SameButGen, GoodExtents;
    if Safe(s, ops) {
      forall ops': seq<KeyOp>, j: nat | SameKinds(ops, ops') && GoodExtents(s, ops') && j <= |ops'|
        ensures SameButGen(RunKey(RunKey(s, ops'[..j]), ops'), RunKey(s, ops'))
      {
        KindsSafe(s, ops, ops');
        InodeRecovers(s, ops', j);
      }
    } else {
      var bad, j := UnsafeFails(ops);
    }
  }

  // ----- dentries recover unconditionally -----

  lemma {:induction false} UnlinkForgets(s: Option<Dentry>, s': Option<Dentry>, ops: seq<DentryOp>)
    requires Unlink in ops
    ensures RunDentry(s, ops) == RunDentry(s', ops)
    decreases |ops|
  {
    var ops0, op := ops[..|ops| - 1], ops[|ops| - 1];
    assert ops == ops0 + [op];
    if op != Unlink { UnlinkForgets(s, s', ops0); }
  }

  lemma {:induction false} LinkedStays(d: Dentry, ops: seq<DentryOp>)
    requires Unlink !in ops
    ensures RunDentry(Some(d), ops) == Some(d)
    decreases |ops|
  {
    if ops != [] {
      assert ops[|ops| - 1] in ops;
      LinkedStays(d, ops[..|ops| - 1]);
    }
  }

  lemma DentryRecovers(s: Option<Dentry>, ops: seq<DentryOp>, j: nat)
    requires j <= |ops|
    ensures RunDentry(RunDentry(s, ops[..j]), ops) == RunDentry(s, ops)
  {
    hide RunDentry;
    var r := RunDentry(s, ops[..j]);
    if Unlink in ops {
      UnlinkForgets(r, s, ops);
    } else if r.Some? {
      assert ops == ops[..j] + ops[j..];
      RunDentryConcat(s, ops[..j], ops[j..]);
      LinkedStays(r.value, ops[j..]);
      LinkedStays(r.value, ops);
    } else if s.Some? {
      LinkedStays(s.value, ops[..j]);
    }
  }

  // ----- the whole partition -----

  lemma {:induction false} RunKeyAlike(a: Option<Inode>, b: Option<Inode>, ops: seq<KeyOp>)
    requires SameButGen(a, b)
    ensures SameButGen(RunKey(a, ops), RunKey(b, ops))
    decreases |ops|
  {
    if ops != [] { RunKeyAlike(a, b, ops[..|ops| - 1]); }
  }

  /** Equal in everything but inode generations, the cursor and the range end. */
  ghost predicate Alike(a: State, b: State) {
    a.dentries == b.dentries && a.inodes.Keys == b.inodes.Keys
    && forall id: nat :: SameButGen(Lookup(a.inodes, id), Lookup(b.inodes, id))
  }

  /** Inode id stands in the file as of some moment not before lo. */
  ghost predicate InodeFrom(st: State, log: seq<Cmd>, lo: nat, file: map<nat, Inode>, id: nat) {
    exists j: nat :: lo <= j <= |log| && SameButGen(Lookup(file, id), Lookup(Run(st, log[..j]).inodes, id))
  }

  ghost predicate DentryFrom(st: State, log: seq<Cmd>, lo: nat, file: map<DentryKey, Dentry>, k: DentryKey) {
    exists j: nat :: lo <= j <= |log| && Lookup(file, k) == Lookup(Run(st, log[..j]).dentries, k)
  }

  ghost predicate InodesFrom(st: State, log: seq<Cmd>, lo: nat, file: map<nat, Inode>) {
    forall id: nat :: InodeFrom(st, log, lo, file, id)
  }

  ghost predicate DentriesFrom(st: State, log: seq<Cmd>, lo: nat, file: map<DentryKey, Dentry>) {
    forall k: DentryKey :: DentryFrom(st, log, lo, file, k)
  }

  ghost predicate SafeLog(st: State, log: seq<Cmd>) {
    forall id: nat :: Safe(Lookup(st.inodes, id), Project(log, id)) &&
      GoodExtents(Lookup(st.inodes, id), Project(log, id))
  }

  /** The files hold every key as of its own moment between the stored index lo and the end of the
      log. Replaying the log from lo over them gives the final dentries, and the final inodes but
      for their generations. */
  lemma PartitionRecovers(st: State, log: seq<Cmd>, lo: nat, files: State)
    requires lo <= |log|
    requires InodesFrom(st, log, lo, files.inodes) && DentriesFrom(st, log, lo, files.dentries)
    ensures Run(files, log[lo..]).dentries == Run(st, log).dentries
    ensures SafeLog(Run(st, log[..lo]), log[lo..]) ==> Alike(Run(files, log[lo..]), Run(st, log))
  {
    hide Run, Safe, GoodExtents, ApplyCmd, SameButGen, InodeFrom, DentryFrom;
    var r, t := Run(files, log[lo..]), Run(st, log);
    forall k: DentryKey
      ensures Lookup(r.dentries, k) == Lookup(t.dentries, k)
    {
      DentryFromVersion(st, log, lo, files, k);
    }
    SameMap(r.dentries, t.dentries);
    if SafeLog(Run(st, log[..lo]), log[lo..]) {
      forall id: nat
        ensures SameButGen(Lookup(r.inodes, id), Lookup(t.inodes, id))
      {
        InodeFromVersion(st, log, lo, files, id);
      }
      SameKeys(r.inodes, t.inodes);
    }
  }

  lemma SameMap<K(!new), V(!new)>(a: map<K, V>, b: map<K, V>)
    requires forall k :: Lookup(a, k) == Lookup(b, k)
    ensures a == b
  {
    forall k | k in a ensures k in b && a[k] == b[k] { assert Lookup(a, k) == Lookup(b, k); }
    forall k | k in b ensures k in a { assert Lookup(a, k) == Lookup(b, k); }
  }

  lemma SameKeys(a: map<nat, Inode>, b: map<nat, Inode>)
    requires forall id: nat :: SameButGen(Lookup(a, id), Lookup(b, id))
    ensures a.Keys == b.Keys
  {
    forall id | id in a ensures id in b { assert SameButGen(Lookup(a, id), Lookup(b, id)); }
    forall id | id in b ensures id in a { assert SameButGen(Lookup(a, id), Lookup(b, id)); }
  }

  /** Cut the log at lo and at j. */
  lemma RunCut(st: State, log: seq<Cmd>, lo: nat, j: nat)
    requires lo <= j <= |log|
    ensures Run(st, log[..j]) == Run(Run(st, log[..lo]), log[lo..][..j - lo])
    ensures Run(st, log) == Run(Run(st, log[..lo]), log[lo..])
  {
    assert log[..j] == log[..lo] + log[lo..][..j - lo] && log == log[..lo] + log[lo..];
    RunConcat(st, log[..lo], log[lo..][..j - lo]);
    RunConcat(st, log[..lo], log[lo..]);
  }

  lemma DentryFromVersion(st: State, log: seq<Cmd>, lo: nat, files: State, k: DentryKey)
    requires lo <= |log| && DentryFrom(st, log, lo, files.dentries, k)
    ensures Lookup(Run(files, log[lo..]).dentries, k) == Lookup(Run(st, log).dentries, k)
  {
    hide Run, ProjectDentry, RunDentry;
    var j: nat :| lo <= j <= |log| && Lookup(files.dentries, k) == Lookup(Run(st, log[..j]).dentries, k);
    RunCut(st, log, lo, j);
    var s, rest, q := Run(st, log[..lo]), log[lo..], j - lo;
    assert rest == rest[..q] + rest[q..];
    ProjectDentryConcat(rest[..q], rest[q..], k);
    var ops, p := ProjectDentry(rest, k), |ProjectDentry(rest[..q], k)|;
    assert ops[..p] == ProjectDentry(rest[..q], k);
    DentryRunsAlone(s, rest[..q], k);
    DentryRunsAlone(s, rest, k);
    DentryRunsAlone(files, rest, k);
    DentryRecovers(Lookup(s.dentries, k), ops, p);
  }

  lemma InodeFromVersion(st: State, log: seq<Cmd>, lo: nat, files: State, id: nat)
    requires lo <= |log| && InodeFrom(st, log, lo, files.inodes, id)
    requires var s, ops := Lookup(Run(st, log[..lo]).inodes, id), Project(log[lo..], id);
      Safe(s, ops) && GoodExtents(s, ops)
    ensures SameButGen(Lookup(Run(files, log[lo..]).inodes, id), Lookup(Run(st, log).inodes, id))
  {
    hide Run, Project, RunKey, Safe, GoodExtents;
    var j: nat :| lo <= j <= |log| && SameButGen(Lookup(files.inodes, id), Lookup(Run(st, log[..j]).inodes, id));
    RunCut(st, log, lo, j);
    var s, rest, q := Run(st, log[..lo]), log[lo..], j - lo;
    assert rest == rest[..q] + rest[q..];
    ProjectConcat(rest[..q], rest[q..], id);
    var ops, p := Project(rest, id), |Project(rest[..q], id)|;
    assert ops[..p] == Project(rest[..q], id);
    InodeRunsAlone(s, rest[..q], id);
    InodeRunsAlone(s, rest, id);
    InodeRunsAlone(files, rest, id);
    InodeRecovers(Lookup(s.inodes, id), ops, p);
    RunKeyAlike(Lookup(files.inodes, id), Lookup(Run(st, log[..j]).inodes, id), ops);
  }

  // ----- a plain condition on the log -----

  /** Entry c opens or appends to an inode that is not there. */
  ghost predicate Stray(st: State, c: Cmd) {
    (c.OpenInode? || c.AppendExtents?) && c.id !in st.inodes
  }

  /** No open or append of the log failed with not-exist, and inodes come with distinct extents. */
  ghost predicate NoStray(st: State, log: seq<Cmd>) {
    forall i :: 0 <= i < |log| ==>
      !Stray(Run(st, log[..i]), log[i]) && (log[i].CreateInode? ==> Distinct(log[i].ino.extents))
  }

  ghost predicate OpsHit(s: Option<Inode>, ops: seq<KeyOp>) {
    && (forall i :: 0 <= i < |ops| && (ops[i].Open? || ops[i].Append?) ==> RunKey(s, ops[..i]).Some?)
    && (forall i :: 0 <= i < |ops| && ops[i].Create? ==> Distinct(ops[i].ino.extents))
  }

  lemma NoStrayFront(st: State, log: seq<Cmd>)
    requires NoStray(st, log) && log != []
    ensures NoStray(st, log[..|log| - 1])
    ensures var c := log[|log| - 1];
      !Stray(Run(st, log[..|log| - 1]), c) && (c.CreateInode? ==> Distinct(c.ino.extents))
  {
    hide Run, Stray;
    var log0 := log[..|log| - 1];
    forall i | 0 <= i < |log0|
      ensures !Stray(Run(st, log0[..i]), log0[i]) && (log0[i].CreateInode? ==> Distinct(log0[i].ino.extents))
    {
      assert log0[i] == log[i] && log0[..i] == log[..i];
    }
  }

  lemma {:induction false} NoStrayKey(st: State, log: seq<Cmd>, id: nat)
    requires NoStray(st, log)
    ensures OpsHit(Lookup(st.inodes, id), Project(log, id))
    decreases |log|
  {
    hide RunKey, ApplyCmd, NoStray, Run;
    if log != [] {
      var log0, c := log[..|log| - 1], log[|log| - 1];
      NoStrayFront(st, log);
      NoStrayKey(st, log0, id);
      var s, ops0, ops := Lookup(st.inodes, id), Project(log0, id), Project(log, id);
      InodeRunsAlone(st, log0, id);
      forall i | 0 <= i < |ops| && (ops[i].Open? || ops[i].Append?) ensures RunKey(s, ops[..i]).Some? {
        if i < |ops0| { assert ops[..i] == ops0[..i]; } else { assert ops[..i] == ops0; }
      }
    }
  }

  lemma {:induction false} NoneBefore(ops: seq<KeyOp>)
    requires forall i :: 0 <= i < |ops| ==> !ops[i].Open? && !ops[i].Append?
    ensures !HasOpen(ops) && !HasAppend(ops)
    decreases |ops|
  {
    if ops != [] { NoneBefore(ops[..|ops| - 1]); }
  }

  /** If no open or append ever failed, recovery from any stored index is safe. */
  lemma NoStrayIsSafe(st: State, log: seq<Cmd>)
    requires NoStray(st, log)
    requires forall id: nat :: id in st.inodes ==> Distinct(st.inodes[id].extents)
    ensures SafeLog(st, log)
  {
    hide Run, ApplyCmd, NoStray, Safe, Project;
    forall id: nat
      ensures Safe(Lookup(st.inodes, id), Project(log, id)) && GoodExtents(Lookup(st.inodes, id), Project(log, id))
    {
      NoStrayKey(st, log, id);
      HitIsSafe(Lookup(st.inodes, id), Project(log, id));
    }
  }

  lemma HitIsSafe(s: Option<Inode>, ops: seq<KeyOp>)
    requires OpsHit(s, ops)
    ensures Safe(s, ops)
  {
    hide HasOpen, HasAppend, FirstCreate, Distinct;
    if s == None {
      var c := FirstCreate(ops);
      forall i | 0 <= i < c ensures !ops[i].Open? && !ops[i].Append? { RunAbsent(ops[..i]); }
      NoneBefore(ops[..c]);
    }
  }
}
