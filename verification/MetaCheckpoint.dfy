/** The checkpoint scheduler (startSchedule and its dump) with crashes: what the files are good for,
    when raft log truncation stays behind durability, and what a restart brings back. */
module MetaCheckpoint {
  import opened Orders
  import opened StreamKeys
  import opened MetaFsm
  import opened MetaRecovery
  import opened MetaReplay

  /** A dump in progress: its message's apply index and the files renamed so far. */
  datatype Dump = NoDump | Dumping(index: nat, stage: nat)

  datatype Sys = Sys(
    log: seq<Cmd>,              // entries this node has ever applied
    hist: seq<State>,           // the trees in memory, one state per entry since the last load
    start: nat,                 // the index loaded
    inodeFile: map<nat, Inode>,
    dentryFile: map<DentryKey, Dentry>,
    applyFile: nat,             // the durable apply index
    truncated: nat,             // entries the raft log no longer has
    up: bool,                   // startSchedule has been called
    cur: nat,                   // curIndex
    running: bool,              // scheduleState
    ready: bool,                // a token in readyChan
    dump: Dump,
    msgs: seq<nat>,             // apply indexes of pending messages
    chan: seq<nat>)             // the same, still in storeChan

  /** onStart is three steps: Load, then raft replays entry by entry, and at some moment
      StartSchedule. Load also stands for the crash before it. */
  datatype Event =
    | Commit(c: Cmd)
    | Replay
    | StartSchedule
    | Receive
    | Notify
    | Ready
    | StoreInode(inodes: map<nat, Inode>)
    | StoreDentry(dentries: map<DentryKey, Dentry>)
    | StoreApply
    | Fail
    | Finish
    | Load

  /** A new partition, loaded from no files. */
  function Init(end: nat): Sys {
    Sys([], [State(map[], map[], 0, end)], 0, map[], map[], 0, 0, false, 0, false, false, NoDump, [], [])
  }

  /** mp.applyID. */
  function Applied(s: Sys): int { s.start + |s.hist| - 1 }

  function Live(s: Sys): State
    requires s.hist != []
  {
    s.hist[|s.hist| - 1]
  }

  /** The trees in memory when mp.applyID was j. */
  function At(s: Sys, j: nat): State
    requires s.start <= j <= Applied(s)
  {
    s.hist[j - s.start]
  }

  /** The last pending message newer than cur, as the loop over msgs picks it. */
  function Pick(msgs: seq<nat>, cur: nat): (i: int)
    ensures -1 <= i < |msgs| && (i >= 0 ==> msgs[i] > cur)
    ensures forall j :: i < j < |msgs| ==> msgs[j] <= cur
  {
    if msgs == [] then -1
    else if msgs[|msgs| - 1] > cur then |msgs| - 1
    else Pick(msgs[..|msgs| - 1], cur)
  }

  /** Loading the files: the cursor restarts from the largest inode id. */
  ghost function Loaded(s: Sys): State
    requires s.hist != []
  {
    State(s.inodeFile, s.dentryFile, MaxOf(s.inodeFile.Keys), Live(s).end)
  }

  /** The walk of the live tree could meet this inode, or its absence, at some moment since the
      message was made. */
  ghost predicate SeenInode(s: Sys, lo: nat, f: map<nat, Inode>, id: nat) {
    exists j: nat :: s.start <= j && lo <= j <= Applied(s) && Lookup(f, id) == Lookup(At(s, j).inodes, id)
  }

  ghost predicate SeenDentry(s: Sys, lo: nat, f: map<DentryKey, Dentry>, k: DentryKey) {
    exists j: nat :: s.start <= j && lo <= j <= Applied(s) && Lookup(f, k) == Lookup(At(s, j).dentries, k)
  }

  ghost predicate SeenInodes(s: Sys, lo: nat, f: map<nat, Inode>) {
    forall id: nat :: SeenInode(s, lo, f, id)
  }

  ghost predicate SeenDentries(s: Sys, lo: nat, f: map<DentryKey, Dentry>) {
    forall k: DentryKey :: SeenDentry(s, lo, f, k)
  }

  /** A replayed entry must still be in the raft log. */
  ghost predicate Enabled(s: Sys, e: Event) {
    && s.hist != []
    && match e
       case Commit(_) => Applied(s) == |s.log|
       case Replay => s.truncated <= Applied(s) < |s.log|
       case StartSchedule => !s.up
       case Receive => s.up && s.chan != []
       case Notify => s.up && s.msgs != [] && !s.running
       case Ready => s.up && s.ready
       case StoreInode(f) => s.dump.Dumping? && s.dump.stage == 0 && SeenInodes(s, s.dump.index, f)
       case StoreDentry(f) => s.dump.Dumping? && s.dump.stage == 1 && SeenDentries(s, s.dump.index, f)
       case StoreApply => s.dump.Dumping? && s.dump.stage == 2
       case Fail => s.dump.Dumping? && s.dump.stage < 3
       case Finish => s.dump.Dumping? && s.dump.stage == 3
       case Load => true
  }

  /** Apply of entry c, which is entry Applied(s) + 1 of the log. */
  function WithEntry(s: Sys, c: Cmd): Sys
    requires s.hist != []
  {
    s.(hist := s.hist + [ApplyCmd(Live(s), c)], chan := if c.StoreTick? then s.chan + [Applied(s) + 1] else s.chan)
  }

  function Cut(s: Sys): nat { if s.truncated < s.cur then s.cur else s.truncated }

  ghost function Step(s: Sys, e: Event): Sys
    requires Enabled(s, e)
  {
    match e
    case Commit(c) => WithEntry(s, c).(log := s.log + [c])
    case Replay => WithEntry(s, s.log[Applied(s)])
    case StartSchedule => s.(up := true, cur := Applied(s))
    case Receive => s.(msgs := s.msgs + [s.chan[0]], chan := s.chan[1..])
    case Notify => s.(running := true, ready := true)
    case Ready =>
      var i := Pick(s.msgs, s.cur);
      s.(ready := false, msgs := [], dump := if i >= 0 then Dumping(s.msgs[i], 0) else s.dump)
    case StoreInode(f) => s.(inodeFile := f, dump := Dumping(s.dump.index, 1))
    case StoreDentry(f) => s.(dentryFile := f, dump := Dumping(s.dump.index, 2))
    case StoreApply => s.(applyFile := s.dump.index, cur := s.dump.index, dump := Dumping(s.dump.index, 3))
    case Fail => s.(chan := s.chan + [s.dump.index], truncated := Cut(s), dump := NoDump, running := false)
    case Finish => s.(truncated := Cut(s), dump := NoDump, running := false)
    case Load =>
      s.(hist := [Loaded(s)], start := s.applyFile, up := false, running := false, ready := false, dump := NoDump,
        msgs := [], chan := [])
  }

  // ----- the scheduler's own order -----

  ghost predicate Between(lo: nat, xs: seq<nat>, hi: int) {
    forall i :: 0 <= i < |xs| ==> lo < xs[i] <= hi
  }

  /** One dump at a time; messages are of entries applied since the load; the durable index is
      behind the scheduler's, and that behind the dump in progress. */
  ghost predicate Ordered(s: Sys) {
    && s.hist != [] && s.start <= s.applyFile <= Applied(s) <= |s.log| && s.truncated <= |s.log|
    && (s.up ==> s.applyFile <= s.cur <= Applied(s))
    && (!s.up ==> s.msgs == [] && !s.running && s.dump.NoDump?)
    && Between(s.start, s.msgs, Applied(s)) && Between(s.start, s.chan, Applied(s))
    && (s.ready ==> s.running && s.dump.NoDump?)
    && (s.dump.Dumping? ==> s.running && s.dump.stage <= 3 && s.start < s.dump.index <= Applied(s))
    && (s.dump.Dumping? ==> if s.dump.stage == 3 then s.dump.index == s.cur == s.applyFile else s.cur < s.dump.index)
  }

  lemma OrderedStep(s: Sys, e: Event)
    requires Ordered(s) && Enabled(s, e)
    ensures Ordered(Step(s, e))
    ensures s.applyFile <= Step(s, e).applyFile && s.truncated <= Step(s, e).truncated
    ensures e.Ready? ==> s.dump.NoDump?
    ensures s.log <= Step(s, e).log
  {
    hide SeenInodes, SeenDentries, ApplyCmd, Lookup;
  }

  // ----- truncation -----

  /** The scheduler's index is ahead of the durable one exactly from a start after entries were
      replayed until the first dump that succeeds. */
  lemma AheadExactly(s: Sys, e: Event)
    requires Ordered(s) && Enabled(s, e)
    ensures var t := Step(s, e);
      t.up && t.cur > t.applyFile <==>
        if e.StartSchedule? then Applied(s) > s.applyFile else s.up && s.cur > s.applyFile && !e.StoreApply? && !e.Load?
  {
    hide SeenInodes, SeenDentries, ApplyCmd, Lookup;
  }

  /** Truncation passes the durable index exactly when a dump fails while the scheduler's index is
      ahead of it. */
  lemma TruncatesExactly(s: Sys, e: Event)
    requires Ordered(s) && Enabled(s, e) && s.truncated <= s.applyFile
    ensures var t := Step(s, e);
      t.truncated <= t.applyFile <==> !(e.Fail? && s.cur > s.applyFile)
  {
    hide SeenInodes, SeenDentries, ApplyCmd, Lookup;
  }

  ghost predicate Reaches(s: Sys, es: seq<Event>, t: Sys)
    decreases |es|
  {
    if es == [] then s == t else Enabled(s, es[0]) && Reaches(Step(s, es[0]), es[1..], t)
  }

  /** In every state of the run the raft log still has all entries after the durable index. */
  ghost predicate Covered(s: Sys, es: seq<Event>, t: Sys)
    requires Reaches(s, es, t)
    decreases |es|
  {
    s.truncated <= s.applyFile && (es != [] ==> Covered(Step(s, es[0]), es[1..], t))
  }

  /** Some dump of the run fails while the scheduler's index is ahead of the durable one. */
  ghost predicate Rash(s: Sys, es: seq<Event>, t: Sys)
    requires Reaches(s, es, t)
    decreases |es|
  {
    es != [] && ((es[0].Fail? && s.cur > s.applyFile) || Rash(Step(s, es[0]), es[1..], t))
  }

  /** For every run: truncation never outruns durability if and only if no dump fails between a
      start of the scheduler that came after replayed entries and the next dump that succeeds. */
  lemma {:induction false} CoveredExactly(s: Sys, es: seq<Event>, t: Sys)
    requires Ordered(s) && s.truncated <= s.applyFile && Reaches(s, es, t)
    ensures Covered(s, es, t) <==> !Rash(s, es, t)
    decreases |es|
  {
    hide Enabled, Step, Ordered;
    if es != [] {
      OrderedStep(s, es[0]);
      TruncatesExactly(s, es[0]);
      var u := Step(s, es[0]);
      if u.truncated <= u.applyFile { CoveredExactly(u, es[1..], t); }
    }
  }

  /** In the run every start of the scheduler comes before any entry is replayed. */
  ghost predicate PromptStarts(s: Sys, es: seq<Event>, t: Sys)
    requires Reaches(s, es, t)
    decreases |es|
  {
    es == [] || ((es[0].StartSchedule? ==> Applied(s) == s.applyFile) && PromptStarts(Step(s, es[0]), es[1..], t))
  }

  /** Two conditions an operator can see: prompt starts, or no failed dump. */
  lemma {:induction false} PromptIsNotRash(s: Sys, es: seq<Event>, t: Sys)
    requires Ordered(s) && (s.up ==> s.cur == s.applyFile) && Reaches(s, es, t) && PromptStarts(s, es, t)
    ensures !Rash(s, es, t)
    decreases |es|
  {
    hide Enabled, Step;
    if es != [] {
      OrderedStep(s, es[0]);
      AheadExactly(s, es[0]);
      FailsUp(s, es[0]);
      PromptIsNotRash(Step(s, es[0]), es[1..], t);
    }
  }

  lemma FailsUp(s: Sys, e: Event)
    requires Ordered(s) && Enabled(s, e)
    ensures e.Fail? ==> s.up
  {
  }

  lemma {:induction false} NoFailIsNotRash(s: Sys, es: seq<Event>, t: Sys)
    requires Reaches(s, es, t) && Fail !in es
    ensures !Rash(s, es, t)
    decreases |es|
  {
    hide Enabled, Step;
    if es != [] { NoFailIsNotRash(Step(s, es[0]), es[1..], t); }
  }

  // ----- the files -----

  /** From any stored index to any later moment, the log was safe to replay. */
  ghost predicate Clean(base: State, log: seq<Cmd>) {
    forall k: nat, m: nat {:trigger log[k..m]} :: k <= m <= |log| ==> SafeLog(Run(base, log[..k]), log[k..m])
  }

  lemma CleanPrefix(base: State, log: seq<Cmd>, c: Cmd)
    requires Clean(base, log + [c])
    ensures Clean(base, log)
  {
    hide Run, SafeLog;
    forall k: nat, m: nat | k <= m <= |log| ensures SafeLog(Run(base, log[..k]), log[k..m]) {
      assert (log + [c])[k..m] == log[k..m] && (log + [c])[..k] == log[..k];
    }
  }

  /** The trees in memory are what replaying from the loaded state gives. */
  ghost predicate HistOk(s: Sys) {
    && s.hist != [] && s.start <= Applied(s) <= |s.log|
    && forall j: nat :: s.start <= j <= Applied(s) ==> At(s, j) == Replayed(s.hist[0], s.log, s.start, j)
  }

  /** The loaded state recovers from the loaded index: dentries always, inodes for a clean log. */
  ghost predicate BootOk(base: State, s: Sys)
    requires HistOk(s)
  {
    DentriesGood(base, s.log, s.start, s.hist[0].dentries) &&
      (Clean(base, s.log) ==> InodesGood(base, s.log, s.start, s.hist[0].inodes))
  }

  ghost predicate InodeFileOk(base: State, s: Sys) {
    && s.applyFile <= |s.log| && (s.dump.Dumping? ==> s.dump.index <= |s.log|)
    && (Clean(base, s.log) ==>
          && InodesGood(base, s.log, s.applyFile, s.inodeFile)
          && (s.dump.Dumping? && s.dump.stage >= 1 ==> InodesGood(base, s.log, s.dump.index, s.inodeFile)))
  }

  ghost predicate DentryFileOk(base: State, s: Sys) {
    && s.applyFile <= |s.log| && (s.dump.Dumping? ==> s.dump.index <= |s.log|)
    && DentriesGood(base, s.log, s.applyFile, s.dentryFile)
    && (s.dump.Dumping? && s.dump.stage >= 2 ==> DentriesGood(base, s.log, s.dump.index, s.dentryFile))
  }

  /** Whatever of the three renames has happened, the files recover from the durable index, and as
      far as the dump in progress has come also from its index. */
  ghost predicate Inv(base: State, s: Sys) {
    Ordered(s) && HistOk(s) && BootOk(base, s) && InodeFileOk(base, s) && DentryFileOk(base, s)
  }

  lemma HistStep(s: Sys, e: Event)
    requires Ordered(s) && HistOk(s) && Enabled(s, e)
    ensures HistOk(Step(s, e))
  {
    hide SeenInodes, SeenDentries, ApplyCmd, Pick, Loaded, Replayed, HistOk, Ordered;
    var t := Step(s, e);
    OrderedFacts(s);
    if e.Commit? || e.Replay? {
      EntryKeepsHist(s, if e.Commit? then e.c else s.log[Applied(s)], t.log);
      SameHist(WithEntry(s, if e.Commit? then e.c else s.log[Applied(s)]).(log := t.log), t);
    } else if e.Load? {
      NewHist(t);
    } else {
      SameHist(s, t);
    }
  }

  lemma SameHist(s: Sys, t: Sys)
    requires HistOk(s) && t.hist == s.hist && t.start == s.start && t.log == s.log
    ensures HistOk(t)
  {
    hide Replayed;
    forall j: nat | t.start <= j <= Applied(t)
      ensures At(t, j) == Replayed(t.hist[0], t.log, t.start, j)
    {
      assert At(t, j) == At(s, j);
    }
  }

  lemma NewHist(s: Sys)
    requires |s.hist| == 1 && s.start <= |s.log|
    ensures HistOk(s)
  {
    assert s.log[s.start..s.start] == [];
  }

  lemma EntryKeepsHist(s: Sys, c: Cmd, log: seq<Cmd>)
    requires HistOk(s) && s.log <= log && Applied(s) < |log| && log[Applied(s)] == c
    ensures HistOk(WithEntry(s, c).(log := log))
  {
    hide ApplyCmd, Run;
    var t, m := WithEntry(s, c).(log := log), Applied(s);
    assert log[s.start..m + 1] == s.log[s.start..m] + [c];
    RunSnoc(s.hist[0], s.log[s.start..m], c);
    assert At(s, m) == Live(s);
    forall j: nat | t.start <= j <= Applied(t) ensures At(t, j) == Replayed(t.hist[0], t.log, t.start, j) {
      if j <= m { assert At(t, j) == At(s, j) && t.log[s.start..j] == s.log[s.start..j]; }
    }
  }

  lemma RunSnoc(st: State, log: seq<Cmd>, c: Cmd)
    ensures Run(st, log + [c]) == ApplyCmd(Run(st, log), c)
  {
    hide ApplyCmd;
    assert (log + [c])[..|log|] == log;
  }

  /** What a dump saves recovers from every index between the load and its message. */
  lemma SavedInodes(base: State, s: Sys, lo: nat, hi: nat, f: map<nat, Inode>)
    requires HistOk(s) && BootOk(base, s) && Clean(base, s.log) && s.start <= lo <= hi && SeenInodes(s, hi, f) &&
      lo <= |s.log|
    ensures InodesGood(base, s.log, lo, f)
  {
    hide Clean, Recovering, Run, SafeLog, DentriesGood, Lookup;
    CleanAt(base, s.log, s.start);
    CleanAt(base, s.log, lo);
    forall id: nat
      ensures Recovering(Lookup(Run(base, s.log[..lo]).inodes, id), Lookup(f, id), Project(s.log[lo..], id))
    {
      assert SeenInode(s, hi, f, id);
      var j: nat :| s.start <= j && hi <= j <= Applied(s) && Lookup(f, id) == Lookup(At(s, j).inodes, id);
      InodeSaved(base, s.log, s.start, lo, j, s.hist[0], id);
    }
  }

  lemma CleanAt(base: State, log: seq<Cmd>, lo: nat)
    requires Clean(base, log) && lo <= |log|
    ensures SafeLog(Run(base, log[..lo]), log[lo..])
  {
    hide SafeLog, Run;
    assert log[lo..|log|] == log[lo..];
  }

  lemma SavedDentries(base: State, s: Sys, lo: nat, hi: nat, f: map<DentryKey, Dentry>)
    requires HistOk(s) && BootOk(base, s) && s.start <= lo <= hi && SeenDentries(s, hi, f) && lo <= |s.log|
    ensures DentriesGood(base, s.log, lo, f)
  {
    hide Clean, RecoveringDentry, Run, InodesGood, Lookup;
    forall k: DentryKey
      ensures RecoveringDentry(Lookup(Run(base, s.log[..lo]).dentries, k), Lookup(f, k), ProjectDentry(s.log[lo..], k))
    {
      assert SeenDentry(s, hi, f, k);
      var j: nat :| s.start <= j && hi <= j <= Applied(s) && Lookup(f, k) == Lookup(At(s, j).dentries, k);
      DentrySaved(base, s.log, s.start, lo, j, s.hist[0], k);
    }
  }

  lemma BootStep(base: State, s: Sys, e: Event)
    requires Inv(base, s) && Enabled(s, e) && HistOk(Step(s, e))
    ensures BootOk(base, Step(s, e))
  {
    hide SeenInodes, SeenDentries, ApplyCmd, Pick, InodesGood, DentriesGood, Clean;
    if e.Commit? {
      DentriesGrow(base, s.log, e.c, s.start, s.hist[0].dentries);
      if Clean(base, s.log + [e.c]) {
        CleanPrefix(base, s.log, e.c);
        InodesGrow(base, s.log, e.c, s.start, s.hist[0].inodes);
      }
    }
  }

  lemma InodeFileStep(base: State, s: Sys, e: Event)
    requires Inv(base, s) && Enabled(s, e)
    ensures InodeFileOk(base, Step(s, e))
  {
    hide SeenInodes, SeenDentries, ApplyCmd, Pick, InodesGood, DentriesGood, Clean, HistOk, Loaded;
    var t := Step(s, e);
    if Clean(base, t.log) {
      if e.Commit? {
        CleanPrefix(base, s.log, e.c);
        InodesGrow(base, s.log, e.c, s.applyFile, s.inodeFile);
        if s.dump.Dumping? && s.dump.stage >= 1 { InodesGrow(base, s.log, e.c, s.dump.index, s.inodeFile); }
      } else if e.StoreInode? {
        SavedInodes(base, s, s.applyFile, s.dump.index, e.inodes);
        SavedInodes(base, s, s.dump.index, s.dump.index, e.inodes);
      }
    }
  }

  lemma DentryFileStep(base: State, s: Sys, e: Event)
    requires Inv(base, s) && Enabled(s, e)
    ensures DentryFileOk(base, Step(s, e))
  {
    hide SeenInodes, SeenDentries, ApplyCmd, Pick, InodesGood, DentriesGood, Clean, HistOk, Loaded;
    if e.Commit? {
      DentriesGrow(base, s.log, e.c, s.applyFile, s.dentryFile);
      if s.dump.Dumping? && s.dump.stage >= 2 { DentriesGrow(base, s.log, e.c, s.dump.index, s.dentryFile); }
    } else if e.StoreDentry? {
      SavedDentries(base, s, s.applyFile, s.dump.index, e.dentries);
      SavedDentries(base, s, s.dump.index, s.dump.index, e.dentries);
    }
  }

  lemma InvStep(base: State, s: Sys, e: Event)
    requires Inv(base, s) && Enabled(s, e)
    ensures Inv(base, Step(s, e))
  {
    hide Enabled, Step, Ordered, HistOk, BootOk, InodeFileOk, DentryFileOk;
    OrderedStep(s, e);
    HistStep(s, e);
    BootStep(base, s, e);
    InodeFileStep(base, s, e);
    DentryFileStep(base, s, e);
  }

  /** Over every run with store failures, retries, crashes at any point, and dumps also while the log
      is being replayed: the files recover from the durable index, which never goes back. */
  lemma {:induction false} EveryRunIsDurable(base: State, s: Sys, es: seq<Event>, t: Sys)
    requires Inv(base, s) && Reaches(s, es, t)
    ensures Inv(base, t)
    ensures s.applyFile <= t.applyFile && s.truncated <= t.truncated && s.log <= t.log
    decreases |es|
  {
    hide Enabled, Step, Ordered, HistOk, BootOk, InodeFileOk, DentryFileOk;
    if es != [] {
      OrderedStep(s, es[0]);
      InvStep(base, s, es[0]);
      EveryRunIsDurable(base, Step(s, es[0]), es[1..], t);
    }
  }

  lemma InitOk(end: nat)
    ensures Inv(Live(Init(end)), Init(end))
  {
    hide Clean, Distinct;
    var s := Init(end);
    assert s.log[..0] == [] && s.log[0..] == [] && s.log[0..0] == [];
  }

  // ----- the memory -----

  /** Caught up, the memory is the committed state: dentries always, inodes but for generations
      when the log is clean. */
  lemma MemoryIsCommitted(base: State, s: Sys)
    requires Inv(base, s) && Applied(s) == |s.log|
    ensures Live(s).dentries == Run(base, s.log).dentries
    ensures Clean(base, s.log) ==> Alike(Live(s), Run(base, s.log))
  {
    hide Run, DentriesGood, InodesGood, Clean, Alike;
    assert At(s, |s.log|) == Live(s) && s.log[s.start..|s.log|] == s.log[s.start..];
    CaughtUp(base, s.log, s.start, s.hist[0]);
  }

  /** Replaying what is left after a load. */
  lemma {:induction false} ReplayAll(s: Sys) returns (es: seq<Event>, t: Sys)
    requires Ordered(s) && s.truncated <= Applied(s)
    ensures Reaches(s, es, t) && Applied(t) == |t.log| && t.log == s.log
    decreases |s.log| - Applied(s)
  {
    hide SeenInodes, SeenDentries, ApplyCmd, Ordered;
    if Applied(s) >= |s.log| {
      OrderedFacts(s);
      es, t := [], s;
    } else {
      OrderedFacts(s);
      OrderedStep(s, Replay);
      var es';
      es', t := ReplayAll(Step(s, Replay));
      es := [Replay] + es';
      Cons(s, Replay, es', t);
    }
  }

  lemma OrderedFacts(s: Sys)
    requires Ordered(s)
    ensures s.hist != [] && s.applyFile <= Applied(s) <= |s.log| && s.truncated <= |s.log|
  {
  }

  /** The raft log has lost entries that the partition still needs. */
  ghost predicate Lost(s: Sys) {
    Applied(s) < s.truncated && s.applyFile < s.truncated && s.truncated <= |s.log| && s.dump.NoDump? &&
      s.msgs == [] && s.chan == [] && !s.ready
  }

  /** From there no event brings an entry back. */
  lemma LostForGood(s: Sys, e: Event)
    requires Ordered(s) && Lost(s) && Enabled(s, e)
    ensures Lost(Step(s, e)) && Applied(Step(s, e)) <= Applied(s)
  {
    hide SeenInodes, SeenDentries, ApplyCmd, Loaded;
  }

  lemma {:induction false} LostNeverCatchesUp(s: Sys, es: seq<Event>, t: Sys)
    requires Ordered(s) && Lost(s) && Reaches(s, es, t)
    ensures Applied(t) < |t.log|
    decreases |es|
  {
    hide Enabled, Step, Ordered;
    if es != [] {
      OrderedStep(s, es[0]);
      LostForGood(s, es[0]);
      LostNeverCatchesUp(Step(s, es[0]), es[1..], t);
    }
  }

  ghost predicate CatchesUp(s: Sys) {
    exists es, t :: Reaches(s, es, t) && Applied(t) == |t.log|
  }

  /** After a crash at any moment of any run the partition can catch up if and only if truncation
      has not outrun durability. */
  lemma RestartExactly(base: State, s: Sys)
    requires Inv(base, s) && Enabled(s, Load)
    ensures CatchesUp(Step(s, Load)) <==> s.truncated <= s.applyFile
  {
    hide InodeFileOk, DentryFileOk, HistOk, BootOk, Reaches, SeenInodes, SeenDentries;
    OrderedStep(s, Load);
    var l := Step(s, Load);
    if s.truncated <= s.applyFile {
      var es, t := ReplayAll(l);
    } else {
      forall es, t | Reaches(l, es, t) ensures Applied(t) != |t.log| { LostNeverCatchesUp(l, es, t); }
    }
  }

  /** In every run without a rash failure a crash at any moment is survived: there is a way to
      catch up, and every way to catch up ends with the committed state and the cursor past it. */
  lemma RestartRecovers(end: nat, es: seq<Event>, s: Sys, es': seq<Event>, t: Sys)
    requires Reaches(Init(end), es, s) && !Rash(Init(end), es, s)
    requires s.hist != [] && Reaches(Step(s, Load), es', t) && Applied(t) == |t.log|
    ensures CatchesUp(Step(s, Load)) && s.log <= t.log && t.hist != []
    ensures Live(t).dentries == Run(Live(Init(end)), t.log).dentries
    ensures Clean(Live(Init(end)), t.log) ==> Alike(Live(t), Run(Live(Init(end)), t.log))
  {
    hide InodeFileOk, DentryFileOk, HistOk, BootOk, Reaches, Clean, Alike, Run, Step, Rash, Covered, Ordered;
    var i := Init(end);
    var base := Live(i);
    InitOk(end);
    EveryRunIsDurable(base, i, es, s);
    CoveredExactly(i, es, s);
    CoveredEnd(i, es, s);
    RestartExactly(base, s);
    InvStep(base, s, Load);
    OrderedStep(s, Load);
    EveryRunIsDurable(base, Step(s, Load), es', t);
    OrderedFacts(t);
    var l := Step(s, Load).log;
    assert s.log == l[..|s.log|] == t.log[..|l|][..|s.log|] == t.log[..|s.log|];
    MemoryIsCommitted(base, t);
  }

  lemma {:induction false} CoveredEnd(s: Sys, es: seq<Event>, t: Sys)
    requires Reaches(s, es, t) && Covered(s, es, t)
    ensures t.truncated <= t.applyFile
    decreases |es|
  {
    hide Enabled, Step;
    if es != [] { CoveredEnd(Step(s, es[0]), es[1..], t); }
  }

  /** In every run the cursor stays at or above every inode id in memory. */
  lemma {:induction false} CursorAlwaysCovers(s: Sys, es: seq<Event>, t: Sys)
    requires s.hist != [] && CursorCovers(Live(s)) && Reaches(s, es, t)
    ensures t.hist != [] && CursorCovers(Live(t))
    decreases |es|
  {
    hide SeenInodes, SeenDentries, Pick, CursorCovers;
    if es != [] {
      CursorStep(s, es[0]);
      CursorAlwaysCovers(Step(s, es[0]), es[1..], t);
    }
  }

  lemma CursorStep(s: Sys, e: Event)
    requires s.hist != [] && CursorCovers(Live(s)) && Enabled(s, e)
    ensures Step(s, e).hist != [] && CursorCovers(Live(Step(s, e)))
  {
    hide SeenInodes, SeenDentries, Pick, ApplyCmd, CursorCovers, Loaded;
    if e.Commit? || e.Replay? {
      CursorApplies(Live(s), if e.Commit? then e.c else s.log[Applied(s)]);
    } else if e.Load? {
      CursorLoads(s);
    }
  }

  lemma CursorApplies(st: State, c: Cmd)
    requires CursorCovers(st)
    ensures CursorCovers(ApplyCmd(st, c))
  {
    hide MergedAll;
  }

  lemma CursorLoads(s: Sys)
    requires s.hist != []
    ensures CursorCovers(Loaded(s))
  {
  }

  // ----- what a dump that succeeds brings -----

  lemma LiveSeen(s: Sys, lo: nat)
    requires s.hist != [] && s.start <= lo <= Applied(s)
    ensures SeenInodes(s, lo, Live(s).inodes) && SeenDentries(s, lo, Live(s).dentries)
  {
    var m := Applied(s);
    assert At(s, m) == Live(s);
    forall id: nat ensures SeenInode(s, lo, Live(s).inodes, id) {
      assert Lookup(Live(s).inodes, id) == Lookup(At(s, m).inodes, id);
    }
    forall k: DentryKey ensures SeenDentry(s, lo, Live(s).dentries, k) {
      assert Lookup(Live(s).dentries, k) == Lookup(At(s, m).dentries, k);
    }
  }

  /** The scheduler is idle, its files hold index with these contents, and the raft log is cut there. */
  ghost predicate Stored(s: Sys, index: nat, f: map<nat, Inode>, g: map<DentryKey, Dentry>, t: Sys) {
    && t.applyFile == index && t.cur == index && t.inodeFile == f && t.dentryFile == g
    && t.truncated == (if s.truncated < index then index else s.truncated)
    && t.up && !t.running && !t.ready && t.dump == NoDump && t.msgs == []
    && t.hist == s.hist && t.start == s.start && t.log == s.log && t.chan == s.chan
  }

  /** When messages are pending and message i is the last that is newer than the scheduler's index, it is
      dumped and becomes the durable index, the others are dropped, and the raft log is cut there. */
  lemma DumpStores(s: Sys, i: nat, f: map<nat, Inode>, g: map<DentryKey, Dentry>) returns (es: seq<Event>, t: Sys)
    requires Ordered(s) && s.up && !s.running && i < |s.msgs| && s.msgs[i] > s.cur
    requires forall j :: i < j < |s.msgs| ==> s.msgs[j] <= s.cur
    requires SeenInodes(s, s.msgs[i], f) && SeenDentries(s, s.msgs[i], g)
    ensures es == [Notify, Ready, StoreInode(f), StoreDentry(g), StoreApply, Finish] && Reaches(s, es, t)
    ensures Stored(s, s.msgs[i], f, g, t)
  {
    hide Reaches, SeenInodes, SeenDentries;
    assert s.dump.NoDump? && !s.ready;
    var s1 := Step(s, Notify);
    assert Pick(s1.msgs, s1.cur) == i;
    var s2 := Step(s1, Ready);
    SameSeen(s, s2, s.msgs[i], f, g);
    es, t := DumpGoesThrough(s2, f, g);
    Cons(s1, Ready, es, t); es := [Ready] + es;
    Cons(s, Notify, es, t); es := [Notify] + es;
  }

  /** The three renames of a dump and its end. */
  lemma DumpGoesThrough(s: Sys, f: map<nat, Inode>, g: map<DentryKey, Dentry>) returns (es: seq<Event>, t: Sys)
    requires s.hist != [] && s.up && !s.ready && s.msgs == [] && s.dump.Dumping? && s.dump.stage == 0
    requires SeenInodes(s, s.dump.index, f) && SeenDentries(s, s.dump.index, g)
    ensures es == [StoreInode(f), StoreDentry(g), StoreApply, Finish] && Reaches(s, es, t)
    ensures Stored(s, s.dump.index, f, g, t)
  {
    hide Reaches, SeenInodes, SeenDentries;
    var s1 := Step(s, StoreInode(f));
    SameSeen(s, s1, s.dump.index, f, g);
    var s2 := Step(s1, StoreDentry(g));
    var s3 := Step(s2, StoreApply);
    t := Step(s3, Finish);
    NoEvents(t);
    es := [];
    Cons(s3, Finish, es, t); es := [Finish] + es;
    Cons(s2, StoreApply, es, t); es := [StoreApply] + es;
    Cons(s1, StoreDentry(g), es, t); es := [StoreDentry(g)] + es;
    Cons(s, StoreInode(f), es, t); es := [StoreInode(f)] + es;
  }

  lemma SameSeen(s: Sys, t: Sys, lo: nat, f: map<nat, Inode>, g: map<DentryKey, Dentry>)
    requires SeenInodes(s, lo, f) && SeenDentries(s, lo, g) && t.hist == s.hist && t.start == s.start
    ensures SeenInodes(t, lo, f) && SeenDentries(t, lo, g)
  {
    forall id: nat ensures SeenInode(t, lo, f, id) {
      assert SeenInode(s, lo, f, id);
      var j: nat :| s.start <= j && lo <= j <= Applied(s) && Lookup(f, id) == Lookup(At(s, j).inodes, id);
      assert At(t, j) == At(s, j);
    }
    forall k: DentryKey ensures SeenDentry(t, lo, g, k) {
      assert SeenDentry(s, lo, g, k);
      var j: nat :| s.start <= j && lo <= j <= Applied(s) && Lookup(g, k) == Lookup(At(s, j).dentries, k);
      assert At(t, j) == At(s, j);
    }
  }

  /** From an idle scheduler one tick is enough to make the whole log durable, with the state in memory
      in the files and no entry needed for a restart. */
  lemma TickStoresAll(s: Sys) returns (es: seq<Event>, t: Sys)
    requires Ordered(s) && s.up && !s.running && s.msgs == [] && s.chan == [] && Applied(s) == |s.log|
    ensures Reaches(s, es, t) && t.log == s.log + [StoreTick] && t.hist != [] && Live(t) == Live(s)
    ensures t.applyFile == t.truncated == Applied(t) == |t.log|
    ensures t.inodeFile == Live(t).inodes && t.dentryFile == Live(t).dentries && !t.running
  {
    hide Reaches, SeenInodes, SeenDentries;
    var s1 := Step(s, Commit(StoreTick));
    OrderedStep(s, Commit(StoreTick));
    var s2 := Step(s1, Receive);
    OrderedStep(s1, Receive);
    assert s2.msgs == [|s2.log|];
    LiveSeen(s2, |s2.log|);
    es, t := DumpStores(s2, 0, Live(s2).inodes, Live(s2).dentries);
    Cons(s1, Receive, es, t); es := [Receive] + es;
    Cons(s, Commit(StoreTick), es, t); es := [Commit(StoreTick)] + es;
  }

  /** A dump that fails keeps its message: it is queued again. */
  lemma FailRequeues(s: Sys)
    requires Enabled(s, Fail)
    ensures var t := Step(s, Fail);
      && s.dump.index in t.chan && (forall x :: x in s.chan ==> x in t.chan) && t.msgs == s.msgs
      && t.applyFile == s.applyFile && t.dump.NoDump? && !t.running
  {
    var t := Step(s, Fail);
    assert t.chan[|s.chan|] == s.dump.index;
  }

  // ----- a run that loses an entry -----

  lemma Cons(s: Sys, e: Event, es: seq<Event>, t: Sys)
    requires Enabled(s, e) && Reaches(Step(s, e), es, t)
    ensures Reaches(s, [e] + es, t)
  {
    hide Step, Enabled;
    assert ([e] + es)[1..] == es;
  }

  lemma NoEvents(t: Sys)
    ensures Reaches(t, [], t)
  {
  }

  lemma {:induction false} Then(s: Sys, a: seq<Event>, m: Sys, b: seq<Event>, t: Sys)
    requires Reaches(s, a, m) && Reaches(m, b, t)
    ensures Reaches(s, a + b, t)
    decreases |a|
  {
    hide Step, Enabled;
    if a == [] {
      assert a + b == b;
    } else {
      Then(Step(s, a[0]), a[1..], m, b, t);
      assert a + b == [a[0]] + (a[1..] + b);
      Cons(s, a[0], a[1..] + b, t);
    }
  }

  /** A dentry is created, the node crashes, and raft has replayed the entry by the time the
      scheduler starts. */
  function AfterLateStart(end: nat, k: DentryKey, d: Dentry): Sys {
    var st := State(map[], map[], 0, end);
    Init(end).(log := [CreateDentry(k, d)], hist := [st, st.(dentries := map[k := d])], up := true, cur := 1)
  }

  lemma LateStart(end: nat, k: DentryKey, d: Dentry) returns (es: seq<Event>)
    ensures Reaches(Init(end), es, AfterLateStart(end, k, d))
  {
    hide Reaches;
    var s0, t, e := Init(end), AfterLateStart(end, k, d), Commit(CreateDentry(k, d));
    var s1 := Step(s0, e);
    var s2 := Step(s1, Load);
    assert MaxOf({}) == 0;
    var s3 := Step(s2, Replay);
    assert Step(s3, StartSchedule) == t;
    NoEvents(t);
    es := [];
    Cons(s3, StartSchedule, es, t); es := [StartSchedule] + es;
    Cons(s2, Replay, es, t); es := [Replay] + es;
    Cons(s1, Load, es, t); es := [Load] + es;
    Cons(s0, e, es, t); es := [e] + es;
  }

  lemma FirstDumpFails(end: nat, k: DentryKey, d: Dentry) returns (es: seq<Event>, t: Sys)
    ensures Reaches(AfterLateStart(end, k, d), es, t)
    ensures t.log == [CreateDentry(k, d), StoreTick] && t.applyFile == 0 && t.truncated == 1 && t.hist != []
  {
    hide Reaches;
    var s0, tick := AfterLateStart(end, k, d), Commit(StoreTick);
    var s1 := Step(s0, tick);
    var s2 := Step(s1, Receive);
    var s3 := Step(s2, Notify);
    var s4 := Step(s3, Ready);
    assert s4.dump == Dumping(2, 0);
    t := Step(s4, Fail);
    NoEvents(t);
    es := [];
    Cons(s4, Fail, es, t); es := [Fail] + es;
    Cons(s3, Ready, es, t); es := [Ready] + es;
    Cons(s2, Notify, es, t); es := [Notify] + es;
    Cons(s1, Receive, es, t); es := [Receive] + es;
    Cons(s0, tick, es, t); es := [tick] + es;
  }

  /** One failed dump after such a start truncates the raft log past the durable index. A crash then
      loses the dentry for good. */
  lemma RashLosesEntry(end: nat, k: DentryKey, d: Dentry) returns (es: seq<Event>, s: Sys)
    ensures Reaches(Init(end), es, s) && s.hist != [] && s.applyFile < s.truncated
    ensures Lookup(Run(Live(Init(end)), s.log).dentries, k) == Some(d)
    ensures !CatchesUp(Step(s, Load))
  {
    hide Reaches, Step, Enabled, CatchesUp;
    var a := LateStart(end, k, d);
    var b;
    b, s := FirstDumpFails(end, k, d);
    Then(Init(end), a, AfterLateStart(end, k, d), b, s);
    es := a + b;
    var base := Live(Init(end));
    InitOk(end);
    EveryRunIsDurable(base, Init(end), es, s);
    LoadEnabled(s);
    RestartExactly(base, s);
    RunTwo(base, CreateDentry(k, d), StoreTick);
  }

  lemma LoadEnabled(s: Sys)
    requires s.hist != []
    ensures Enabled(s, Load)
  {
  }

  // ----- a way to get stuck -----

  /** The scheduler believes a dump is running, but there is none. */
  ghost predicate Wedged(s: Sys) {
    s.running && !s.ready && s.dump.NoDump?
  }

  /** Once wedged, nothing but a restart helps: no checkpoint is written and no log truncated. */
  lemma WedgedForever(s: Sys, e: Event)
    requires Wedged(s) && s.up && Enabled(s, e) && !e.Load?
    ensures Wedged(Step(s, e)) && Step(s, e).up && Step(s, e).applyFile == s.applyFile &&
      Step(s, e).truncated == s.truncated
  {
    hide SeenInodes, SeenDentries, ApplyCmd;
  }

  /** A ready event wedges the scheduler exactly when every pending message is stale; no other
      event does. */
  lemma WedgesExactly(s: Sys, e: Event)
    requires Ordered(s) && Enabled(s, e) && !Wedged(s)
    ensures Wedged(Step(s, e)) <==> e.Ready? && forall i :: 0 <= i < |s.msgs| ==> s.msgs[i] <= s.cur
  {
    hide SeenInodes, SeenDentries, ApplyCmd;
  }

  /** Two store ticks, of which the first one's dump failed. */
  function AfterFailure(end: nat): Sys {
    var st := State(map[], map[], 0, end);
    Init(end).(log := [StoreTick, StoreTick], hist := [st, st, st], up := true, msgs := [2], chan := [1])
  }

  /** The second one's dump succeeded; the first message waits in the channel. */
  function AfterSuccess(end: nat): Sys {
    AfterFailure(end).(msgs := [], applyFile := 2, cur := 2, truncated := 2)
  }

  function AfterTicks(end: nat): Sys {
    AfterFailure(end).(msgs := [], chan := [1, 2])
  }

  lemma TwoTicks(end: nat) returns (es: seq<Event>)
    ensures Reaches(Init(end), es, AfterTicks(end))
  {
    hide Reaches;
    var s0, t, tick := Init(end), AfterTicks(end), Commit(StoreTick);
    var s1 := Step(s0, StartSchedule);
    var s2 := Step(s1, tick);
    assert Step(s2, tick) == t;
    NoEvents(t);
    es := [];
    Cons(s2, tick, es, t); es := [tick] + es;
    Cons(s1, tick, es, t); es := [tick] + es;
    Cons(s0, StartSchedule, es, t); es := [StartSchedule] + es;
  }

  lemma OnlyMessage(index: nat, cur: nat)
    ensures Pick([index], cur) == if index > cur then 0 else -1
  {
  }

  lemma FailedDump(end: nat) returns (es: seq<Event>)
    ensures Reaches(AfterTicks(end), es, AfterFailure(end))
  {
    hide Reaches, SeenInodes, SeenDentries, ApplyCmd, Pick, Loaded;
    var s0, t := AfterTicks(end), AfterFailure(end);
    var s1 := Step(s0, Receive);
    assert s1 == s0.(msgs := [1], chan := [2]);
    var s2 := Step(s1, Notify);
    OnlyMessage(1, 0);
    var s3 := Step(s2, Ready);
    assert s3 == s0.(chan := [2], running := true, dump := Dumping(1, 0));
    var s4 := Step(s3, Receive);
    assert s4 == s3.(msgs := [2], chan := []);
    assert Step(s4, Fail) == t;
    NoEvents(t);
    es := [];
    Cons(s4, Fail, es, t); es := [Fail] + es;
    Cons(s3, Receive, es, t); es := [Receive] + es;
    Cons(s2, Ready, es, t); es := [Ready] + es;
    Cons(s1, Notify, es, t); es := [Notify] + es;
    Cons(s0, Receive, es, t); es := [Receive] + es;
  }

  lemma NothingSeen(s: Sys, lo: nat)
    requires s.hist != [] && s.start <= lo <= Applied(s) && Live(s).inodes == map[] && Live(s).dentries == map[]
    ensures SeenInodes(s, lo, map[]) && SeenDentries(s, lo, map[])
  {
    var m := Applied(s);
    assert At(s, m) == Live(s);
    forall id: nat ensures SeenInode(s, lo, map[], id) {
      assert Lookup(map[], id) == Lookup(At(s, m).inodes, id);
    }
    forall k: DentryKey ensures SeenDentry(s, lo, map[], k) {
      assert Lookup(map[], k) == Lookup(At(s, m).dentries, k);
    }
  }

  lemma NewerDump(end: nat) returns (es: seq<Event>)
    ensures Reaches(AfterFailure(end), es, AfterSuccess(end))
  {
    hide Reaches, SeenInodes, SeenDentries;
    var s0, t := AfterFailure(end), AfterSuccess(end);
    var s1 := Step(s0, Notify);
    var s2 := Step(s1, Ready);
    assert s2.dump == Dumping(2, 0);
    var f: map<nat, Inode>, g: map<DentryKey, Dentry> := map[], map[];
    NothingSeen(s2, 2);
    var s3 := Step(s2, StoreInode(f));
    NothingSeen(s3, 2);
    var s4 := Step(s3, StoreDentry(g));
    var s5 := Step(s4, StoreApply);
    assert Step(s5, Finish) == t;
    NoEvents(t);
    es := [];
    Cons(s5, Finish, es, t); es := [Finish] + es;
    Cons(s4, StoreApply, es, t); es := [StoreApply] + es;
    Cons(s3, StoreDentry(g), es, t); es := [StoreDentry(g)] + es;
    Cons(s2, StoreInode(f), es, t); es := [StoreInode(f)] + es;
    Cons(s1, Ready, es, t); es := [Ready] + es;
    Cons(s0, Notify, es, t); es := [Notify] + es;
  }

  lemma StaleMessage(end: nat) returns (es: seq<Event>, t: Sys)
    ensures Reaches(AfterSuccess(end), es, t) && Wedged(t)
  {
    hide Reaches;
    var s0 := AfterSuccess(end);
    var s1 := Step(s0, Receive);
    var s2 := Step(s1, Notify);
    t := Step(s2, Ready);
    NoEvents(t);
    es := [];
    Cons(s2, Ready, es, t); es := [Ready] + es;
    Cons(s1, Notify, es, t); es := [Notify] + es;
    Cons(s0, Receive, es, t); es := [Receive] + es;
  }

  /** A wedge can happen: one dump fails and its message is queued again, a newer one succeeds, and
      then the old message comes up alone. */
  lemma WedgeReachable(end: nat) returns (es: seq<Event>, t: Sys)
    ensures Reaches(Init(end), es, t) && Wedged(t)
  {
    hide Reaches, Step, Enabled;
    var a := TwoTicks(end);
    var b := FailedDump(end);
    var c := NewerDump(end);
    var d;
    d, t := StaleMessage(end);
    Then(Init(end), a, AfterTicks(end), b, AfterFailure(end));
    Then(Init(end), a + b, AfterFailure(end), c, AfterSuccess(end));
    Then(Init(end), a + b + c, AfterSuccess(end), d, t);
    es := a + b + c + d;
  }

  // ----- logs without failed opens or appends are clean -----

  ghost predicate AllDistinct(st: State) {
    forall id: nat :: id in st.inodes ==> Distinct(st.inodes[id].extents)
  }

  lemma {:induction false} DistinctAfter(st: State, log: seq<Cmd>, k: nat)
    requires AllDistinct(st) && NoStray(st, log) && k <= |log|
    ensures AllDistinct(Run(st, log[..k]))
    decreases k
  {
    if k == 0 {
      assert log[..0] == [];
    } else {
      DistinctAfter(st, log, k - 1);
      var c := log[k - 1];
      assert log[..k] == log[..k - 1] + [c];
      RunSnoc(st, log[..k - 1], c);
      StepDistinct(Run(st, log[..k - 1]), c);
    }
  }

  lemma StepDistinct(st: State, c: Cmd)
    requires AllDistinct(st) && (c.CreateInode? ==> Distinct(c.ino.extents))
    ensures AllDistinct(ApplyCmd(st, c))
  {
    hide Distinct, MergedAll;
    if c.AppendExtents? && c.id in st.inodes { PutAllDistinct(st.inodes[c.id].extents, c.exts); }
  }

  lemma NoStrayCut(st: State, log: seq<Cmd>, k: nat, m: nat)
    requires NoStray(st, log) && k <= m <= |log|
    ensures NoStray(Run(st, log[..k]), log[k..m])
  {
    hide Run, ApplyCmd, Distinct;
    var rest := log[k..m];
    forall i | 0 <= i < |rest|
      ensures !Stray(Run(Run(st, log[..k]), rest[..i]), rest[i]) &&
        (rest[i].CreateInode? ==> Distinct(rest[i].ino.extents))
    {
      assert log[..k + i] == log[..k] + rest[..i] && rest[i] == log[k + i];
      RunConcat(st, log[..k], rest[..i]);
    }
  }

  /** A caller's check: if no open or append was ever answered not-exist, every checkpoint can be
      recovered from. */
  lemma NoStrayIsClean(base: State, log: seq<Cmd>)
    requires AllDistinct(base) && NoStray(base, log)
    ensures Clean(base, log)
  {
    hide Run, ApplyCmd, SafeLog, NoStray;
    forall k: nat, m: nat | k <= m <= |log| ensures SafeLog(Run(base, log[..k]), log[k..m]) {
      NoStrayCut(base, log, k, m);
      DistinctAfter(base, log, k);
      NoStrayIsSafe(Run(base, log[..k]), log[k..m]);
    }
  }
}
