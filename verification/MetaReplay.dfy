/** Checkpoints taken from a partition that is itself being recovered. While the log is replayed
    over a fuzzy checkpoint a key may pass through values that no prefix of the log gives it, so
    "as of some moment" is too strong for such a file. What a file must do is recover: replaying
    the log from the stored index over it leads to the committed state. */
module MetaReplay {
  import opened Orders
  import opened StreamKeys
  import opened MetaFsm
  import opened MetaRecovery

  // ----- one key -----

  /** x may stand for the inode that the log had as i: the entries still to be replayed lead both
      to the same inode. An inode that x misses is one that those entries delete. */
  ghost predicate Recovering(i: Option<Inode>, x: Option<Inode>, ops: seq<KeyOp>) {
    && SameButGen(RunKey(x, ops), RunKey(i, ops))
    && (x.None? && i.Some? ==> Delete in ops)
    && (x.Some? ==> Distinct(x.value.extents))
  }

  lemma {:induction false} StaysSome(s: Option<Inode>, ops: seq<KeyOp>)
    requires s.Some? && Delete !in ops
    ensures RunKey(s, ops).Some?
    decreases |ops|
  {
    if ops != [] {
      var ops0 := ops[..|ops| - 1];
      assert ops == ops0 + [ops[|ops| - 1]];
      StaysSome(s, ops0);
    }
  }

  lemma {:induction false} StaysDistinct(s: Option<Inode>, ops: seq<KeyOp>)
    requires GoodExtents(s, ops)
    ensures RunKey(s, ops).Some? ==> Distinct(RunKey(s, ops).value.extents)
    decreases |ops|
  {
    hide Distinct, MergedAll;
    if ops != [] {
      var ops0, op := ops[..|ops| - 1], ops[|ops| - 1];
      StaysDistinct(s, ops0);
      if op.Append? && RunKey(s, ops0).Some? { PutAllDistinct(RunKey(s, ops0).value.extents, op.exts); }
    }
  }

  /** Replaying the first entries, a, on both sides. */
  lemma RecoveringLater(i: Option<Inode>, x: Option<Inode>, a: seq<KeyOp>, b: seq<KeyOp>)
    requires Recovering(i, x, a + b) && GoodExtents(i, a + b)
    ensures Recovering(RunKey(i, a), RunKey(x, a), b)
  {
    hide Distinct, SameButGen;
    RunKeyConcat(i, a, b);
    RunKeyConcat(x, a, b);
    forall k | 0 <= k < |a| && a[k].Create? ensures Distinct(a[k].ino.extents) { assert (a + b)[k] == a[k]; }
    StaysDistinct(x, a);
    if Delete in a {
      DeleteForgets(i, x, a);
    } else if x.Some? {
      StaysSome(x, a);
    } else if Delete !in b {
      assert i.None?;
    }
  }

  /** A value saved after the entries a is as good, for replaying from before them. */
  lemma RecoveringAgain(i: Option<Inode>, x: Option<Inode>, a: seq<KeyOp>, b: seq<KeyOp>)
    requires Recovering(i, x, a + b) && Safe(i, a + b) && GoodExtents(i, a + b)
    ensures Recovering(i, RunKey(x, a), a + b)
  {
    hide Distinct;
    assert (a + b)[..|a|] == a;
    InodeRecovers(x, a + b, |a|);
    forall k | 0 <= k < |a| && a[k].Create? ensures Distinct(a[k].ino.extents) { assert (a + b)[k] == a[k]; }
    StaysDistinct(x, a);
    if x.Some? && Delete !in a + b { StaysSome(x, a); }
  }

  ghost predicate RecoveringDentry(i: Option<Dentry>, x: Option<Dentry>, ops: seq<DentryOp>) {
    RunDentry(x, ops) == RunDentry(i, ops)
  }

  // ----- tables -----

  /** Each inode of the file recovers when the log is replayed from lo. */
  ghost predicate InodesGood(base: State, log: seq<Cmd>, lo: nat, file: map<nat, Inode>)
    requires lo <= |log|
  {
    forall id: nat :: Recovering(Lookup(Run(base, log[..lo]).inodes, id), Lookup(file, id), Project(log[lo..], id))
  }

  ghost predicate DentriesGood(base: State, log: seq<Cmd>, lo: nat, file: map<DentryKey, Dentry>)
    requires lo <= |log|
  {
    forall k: DentryKey :: RecoveringDentry(Lookup(Run(base, log[..lo]).dentries, k), Lookup(file, k),
      ProjectDentry(log[lo..], k))
  }

  /** The state that the trees in memory had after replaying up to j from boot, loaded at start. */
  ghost function Replayed(boot: State, log: seq<Cmd>, start: nat, j: nat): State
    requires start <= j <= |log|
  {
    Run(boot, log[start..j])
  }

  lemma InodeSaved(base: State, log: seq<Cmd>, start: nat, lo: nat, j: nat, boot: State, id: nat)
    requires start <= lo <= j <= |log| && InodesGood(base, log, start, boot.inodes)
    requires SafeLog(Run(base, log[..start]), log[start..]) && SafeLog(Run(base, log[..lo]), log[lo..])
    ensures Recovering(Lookup(Run(base, log[..lo]).inodes, id), Lookup(Replayed(boot, log, start, j).inodes, id),
      Project(log[lo..], id))
  {
    hide Run, Recovering, Safe, GoodExtents, Project, RunKey;
    var a, b, c := log[start..lo], log[lo..j], log[j..];
    assert log[start..] == a + log[lo..] && log[lo..] == b + c && log[start..j] == a + b &&
      log[..lo] == log[..start] + a;
    ProjectConcat(a, log[lo..], id);
    ProjectConcat(b, c, id);
    ProjectConcat(a, b, id);
    var i, x := Lookup(Run(base, log[..start]).inodes, id), Lookup(boot.inodes, id);
    RecoveringLater(i, x, Project(a, id), Project(log[lo..], id));
    RunConcat(base, log[..start], a);
    InodeRunsAlone(Run(base, log[..start]), a, id);
    InodeRunsAlone(boot, log[start..j], id);
    RunKeyConcat(x, Project(a, id), Project(b, id));
    RecoveringAgain(Lookup(Run(base, log[..lo]).inodes, id), RunKey(x, Project(a, id)), Project(b, id), Project(c, id));
  }

  lemma DentrySaved(base: State, log: seq<Cmd>, start: nat, lo: nat, j: nat, boot: State, k: DentryKey)
    requires start <= lo <= j <= |log| && DentriesGood(base, log, start, boot.dentries)
    ensures RecoveringDentry(Lookup(Run(base, log[..lo]).dentries, k),
      Lookup(Replayed(boot, log, start, j).dentries, k), ProjectDentry(log[lo..], k))
  {
    hide Run, ProjectDentry, RunDentry;
    var a, b, c := log[start..lo], log[lo..j], log[j..];
    assert log[start..] == a + log[lo..] && log[lo..] == b + c && log[start..j] == a + b &&
      log[..lo] == log[..start] + a;
    ProjectDentryConcat(a, log[lo..], k);
    ProjectDentryConcat(b, c, k);
    ProjectDentryConcat(a, b, k);
    var i, x := Lookup(Run(base, log[..start]).dentries, k), Lookup(boot.dentries, k);
    var pa, pb, pc := ProjectDentry(a, k), ProjectDentry(b, k), ProjectDentry(c, k);
    RunDentryConcat(i, pa, pb + pc);
    RunDentryConcat(x, pa, pb + pc);
    RunConcat(base, log[..start], a);
    DentryRunsAlone(Run(base, log[..start]), a, k);
    DentryRunsAlone(boot, log[start..j], k);
    RunDentryConcat(x, pa, pb);
    assert (pb + pc)[..|pb|] == pb;
    DentryRecovers(RunDentry(x, pa), pb + pc, |pb|);
    assert RecoveringDentry(i, x, ProjectDentry(log[start..], k));
  }

  /** One more entry keeps a file good. */
  lemma InodesGrow(base: State, log: seq<Cmd>, c: Cmd, lo: nat, file: map<nat, Inode>)
    requires lo <= |log| && InodesGood(base, log, lo, file)
    ensures InodesGood(base, log + [c], lo, file)
  {
    hide Run, Project, Distinct, RunKey, SameButGen;
    var log' := log + [c];
    assert log'[..lo] == log[..lo] && log'[lo..] == log[lo..] + [c];
    forall id: nat
      ensures Recovering(Lookup(Run(base, log'[..lo]).inodes, id), Lookup(file, id), Project(log'[lo..], id))
    {
      var i, x, ops, op := Lookup(Run(base, log[..lo]).inodes, id), Lookup(file, id), Project(log[lo..], id),
        Project([c], id);
      ProjectConcat(log[lo..], [c], id);
      assert Recovering(i, x, ops);
      RunKeyConcat(i, ops, op);
      RunKeyConcat(x, ops, op);
      RunKeyAlike(RunKey(x, ops), RunKey(i, ops), op);
    }
  }

  lemma DentriesGrow(base: State, log: seq<Cmd>, c: Cmd, lo: nat, file: map<DentryKey, Dentry>)
    requires lo <= |log| && DentriesGood(base, log, lo, file)
    ensures DentriesGood(base, log + [c], lo, file)
  {
    hide Run, ProjectDentry, RunDentry;
    var log' := log + [c];
    assert log'[..lo] == log[..lo] && log'[lo..] == log[lo..] + [c];
    forall k: DentryKey
      ensures RecoveringDentry(Lookup(Run(base, log'[..lo]).dentries, k), Lookup(file, k), ProjectDentry(log'[lo..], k))
    {
      var i, x, ops, op := Lookup(Run(base, log[..lo]).dentries, k), Lookup(file, k), ProjectDentry(log[lo..], k),
        ProjectDentry([c], k);
      ProjectDentryConcat(log[lo..], [c], k);
      assert RecoveringDentry(i, x, ops);
      RunDentryConcat(i, ops, op);
      RunDentryConcat(x, ops, op);
    }
  }

  /** Replayed to the end, good files give the committed state. */
  lemma CaughtUp(base: State, log: seq<Cmd>, start: nat, boot: State)
    requires start <= |log|
    ensures DentriesGood(base, log, start, boot.dentries) ==>
      Run(boot, log[start..]).dentries == Run(base, log).dentries
    ensures DentriesGood(base, log, start, boot.dentries) && InodesGood(base, log, start, boot.inodes) ==>
      Alike(Run(boot, log[start..]), Run(base, log))
  {
    hide Run, Project, ProjectDentry, RunKey, RunDentry, Distinct, SameButGen;
    assert log == log[..start] + log[start..];
    RunConcat(base, log[..start], log[start..]);
    var mid := Run(base, log[..start]);
    if DentriesGood(base, log, start, boot.dentries) {
      forall k: DentryKey ensures Lookup(Run(boot, log[start..]).dentries, k) == Lookup(Run(base, log).dentries, k) {
        DentryRunsAlone(boot, log[start..], k);
        DentryRunsAlone(mid, log[start..], k);
        assert RecoveringDentry(Lookup(mid.dentries, k), Lookup(boot.dentries, k), ProjectDentry(log[start..], k));
      }
      SameMap(Run(boot, log[start..]).dentries, Run(base, log).dentries);
    }
    if InodesGood(base, log, start, boot.inodes) {
      forall id: nat ensures SameButGen(Lookup(Run(boot, log[start..]).inodes, id), Lookup(Run(base, log).inodes, id)) {
        InodeRunsAlone(boot, log[start..], id);
        InodeRunsAlone(mid, log[start..], id);
        assert Recovering(Lookup(mid.inodes, id), Lookup(boot.inodes, id), Project(log[start..], id));
      }
      SameKeys(Run(boot, log[start..]).inodes, Run(base, log).inodes);
    }
  }

  // ----- why "as of some moment" is too strong -----

  /** A dentry d0 is there; linking d fails; a later entry unlinks it. The checkpoint has the key
      already unlinked. Replaying the first entry over it links d, which the log never had, and a
      dump at that moment saves it. The next replay still ends right. */
  lemma SavedWhileReplaying(k: DentryKey, d0: Dentry, d: Dentry)
    requires d != d0
    ensures var base, log := State(map[], map[k := d0], 0, 0), [CreateDentry(k, d), StoreTick, DeleteDentry(k)];
      var seen := Replayed(base.(dentries := map[]), log, 0, 2).dentries;
      && DentryFrom(base, log, 0, map[], k) && Lookup(seen, k) == Some(d)
      && !DentryFrom(base, log, 0, seen, k) && DentriesGood(base, log, 2, seen)
  {
    var base, c0, c1, c2 := State(map[], map[k := d0], 0, 0), CreateDentry(k, d), StoreTick, DeleteDentry(k);
    var log := [c0, c1, c2];
    var boot := base.(dentries := map[]);
    assert log[..0] == [] && log[..1] == [c0] && log[..2] == [c0, c1] && log[..3] == log && log[0..2] == [c0, c1] &&
      log[2..] == [c2];
    RunTwo(base, c0, c1);
    RunTwo(boot, c0, c1);
    var s2 := Run(base, log[..2]);
    assert Run(base, log) == ApplyCmd(s2, c2);
    var seen := Replayed(boot, log, 0, 2).dentries;
    assert Lookup(map[], k) == Lookup(Run(base, log[..3]).dentries, k);
    forall j: nat | j <= |log| ensures Lookup(seen, k) != Lookup(Run(base, log[..j]).dentries, k) {
      assert j == 0 || j == 1 || j == 2 || j == 3;
    }
    assert [c2][..0] == [] && ProjectDentry([c2], k) == ProjectDentry([], k) + [Unlink] == [Unlink];
    forall l: DentryKey
      ensures RecoveringDentry(Lookup(Run(base, log[..2]).dentries, l), Lookup(seen, l), ProjectDentry(log[2..], l))
    {
    }
  }

  lemma RunTwo(st: State, a: Cmd, b: Cmd)
    ensures Run(st, [a]) == ApplyCmd(st, a) && Run(st, [a, b]) == ApplyCmd(ApplyCmd(st, a), b)
  {
    hide ApplyCmd;
    assert [a, b][..1] == [a] && [a][..0] == [];
    assert Run(st, []) == st;
  }
}
