/** A repair round as it is carried out (datanode/partition_repair.go, datanode/partition.go): the
    leader writes task lists for all members, and the members work them off at the same time,
    reading from each other while they are being repaired themselves. Tasks to add an extent name
    the leader by its bare IP, so their transfers fail. */
module ExtentRounds {
  import opened BigEndian
  import opened Orders
  import opened ExtentRepair

  /** Where a task says to read from: a member's address, or the bare IP of the leader, which has no
      port and cannot be dialled. */
  datatype Addr = Host(member: nat) | LocalIp

  datatype Task = Task(source: Addr, file: nat, size: nat)

  /** What one member reports: the size of every extent. */
  type Files = map<nat, nat>

  function Sizes(ms: seq<Member>): (fs: seq<Files>)
    ensures |fs| == |ms|
  {
    seq(|ms|, i requires 0 <= i < |ms| => map f | f in ms[i] :: |ms[i][f]|)
  }

  // ----- which tasks are wanted -----

  /** The first member with the largest size of f. */
  function Largest(all: seq<Files>, f: nat): (m: nat)
    requires all != [] && f in all[0]
    ensures m < |all| && f in all[m]
    ensures forall i :: 0 <= i < |all| && f in all[i] ==> all[i][f] <= all[m][f]
    ensures forall i :: 0 <= i < m && f in all[i] ==> all[i][f] < all[m][f]
  {
    if |all| == 1 then 0 else
      var m := Largest(all[..|all| - 1], f);
      if f in all[|all| - 1] && all[m][f] < all[|all| - 1][f] then |all| - 1 else m
  }

  /** By sizes or by contents, it is the same member. */
  lemma LargestIsLongest(ms: seq<Member>, f: nat)
    requires ms != [] && f in ms[0]
    ensures Column(ms, f)[0].Some? && Largest(Sizes(ms), f) == Longest(Column(ms, f))
  {
    hide Largest, Longest;
    var m, l, rs := Largest(Sizes(ms), f), Longest(Column(ms, f)), Column(ms, f);
    assert forall i :: 0 <= i < |ms| ==>
      (f in Sizes(ms)[i] <==> rs[i].Some?) && SizeOf(rs[i]) == if f in Sizes(ms)[i] then Sizes(ms)[i][f] else 0;
    assert SizeOf(rs[m]) <= SizeOf(rs[l]) && SizeOf(rs[l]) <= SizeOf(rs[m]);
  }

  predicate AddWanted(all: seq<Files>, i: nat, f: nat) {
    0 < i < |all| && f > TINY_CHUNKS && f in all[0] && f !in all[i]
  }

  predicate FixWanted(all: seq<Files>, i: nat, f: nat) {
    i < |all| && f in all[0] && f in all[i] && all[i][f] < all[Largest(all, f)][f]
  }

  function AddTask(all: seq<Files>, f: nat): Task
    requires all != [] && f in all[0]
  {
    Task(LocalIp, f, all[0][f])
  }

  function FixTask(all: seq<Files>, f: nat): Task
    requires all != [] && f in all[0]
  {
    Task(Host(Largest(all, f)), f, all[Largest(all, f)][f])
  }

  ghost predicate DistinctFiles(ts: seq<Task>) {
    forall a, b :: 0 <= a < b < |ts| ==> ts[a].file != ts[b].file
  }

  /** Of the files in done, member i is told to add exactly those it misses, each once. */
  ghost predicate AddsOk(ts: seq<Task>, all: seq<Files>, i: nat, done: set<nat>)
    requires all != [] && done <= all[0].Keys
  {
    && DistinctFiles(ts)
    && (forall t :: t in ts ==> t.file in done && AddWanted(all, i, t.file) && t == AddTask(all, t.file))
    && (forall f :: f in done && AddWanted(all, i, f) ==> AddTask(all, f) in ts)
  }

  /** Of the files in done, member i is told to fix exactly those where it is behind. */
  ghost predicate FixesOk(ts: seq<Task>, all: seq<Files>, i: nat, done: set<nat>)
    requires all != [] && done <= all[0].Keys
  {
    && DistinctFiles(ts)
    && (forall t :: t in ts ==> t.file in done && FixWanted(all, i, t.file) && t == FixTask(all, t.file))
    && (forall f :: f in done && FixWanted(all, i, f) ==> FixTask(all, f) in ts)
  }

  lemma AddsGrow(ts: seq<Task>, all: seq<Files>, i: nat, done: set<nat>, f: nat)
    requires all != [] && done <= all[0].Keys && f in all[0] && f !in done && AddsOk(ts, all, i, done)
    ensures AddsOk(if AddWanted(all, i, f) then ts + [AddTask(all, f)] else ts, all, i, done + {f})
  {
  }

  lemma FixesGrow(ts: seq<Task>, all: seq<Files>, i: nat, done: set<nat>, f: nat)
    requires all != [] && done <= all[0].Keys && f in all[0] && f !in done && FixesOk(ts, all, i, done)
    ensures FixesOk(if FixWanted(all, i, f) then ts + [FixTask(all, f)] else ts, all, i, done + {f})
  {
    hide Largest;
  }

  // ----- generating them -----

  /** MembersFileMetas. */
  class Metas {
    const files: Files
    var needAdd: seq<Task>
    var needFix: seq<Task>

    constructor (fs: Files)
      ensures files == fs && needAdd == [] && needFix == []
    {
      files, needAdd, needFix := fs, [], [];
    }
  }

  ghost predicate Reports(ms: seq<Metas>, all: seq<Files>) {
    && ms != [] && |all| == |ms|
    && (forall i :: 0 <= i < |ms| ==> ms[i].files == all[i])
    && (forall i, j :: 0 <= i < j < |ms| ==> ms[i] != ms[j])
  }

  ghost predicate IsMaxMap(maxIndex: map<nat, nat>, all: seq<Files>)
    requires all != []
  {
    maxIndex.Keys == all[0].Keys && forall f :: f in maxIndex ==> maxIndex[f] == Largest(all, f)
  }

  /** mapMaxSizeExtentToIndex. */
  method MapMaxSize(ms: seq<Metas>, ghost all: seq<Files>) returns (maxIndex: map<nat, nat>)
    requires Reports(ms, all)
    ensures IsMaxMap(maxIndex, all)
  {
    hide Largest;
    maxIndex := map[];
    var todo := ms[0].files.Keys;
    while todo != {}
      invariant todo <= all[0].Keys && maxIndex.Keys == all[0].Keys - todo
      invariant forall f :: f in maxIndex ==> maxIndex[f] == Largest(all, f)
      decreases |todo|
    {
      var f :| f in todo;
      var m := MaxOfFile(ms, f, all);
      maxIndex, todo := maxIndex[f := m], todo - {f};
    }
  }

  method MaxOfFile(ms: seq<Metas>, f: nat, ghost all: seq<Files>) returns (m: nat)
    requires Reports(ms, all) && f in all[0]
    ensures m == Largest(all, f)
  {
    m := 0;
    var max, i := 0, 0;
    while i < |ms|
      invariant i <= |ms| && (i == 0 ==> m == 0 && max == 0)
      invariant i > 0 ==> m == Largest(all[..i], f) && max == all[m][f]
    {
      if f in ms[i].files && max < ms[i].files[f] {
        max, m := ms[i].files[f], i;
      }
      if i > 0 { assert all[..i + 1][..i] == all[..i]; }
      i := i + 1;
    }
    assert all[..i] == all;
  }

  ghost predicate AllAdds(ms: seq<Metas>, all: seq<Files>, done: set<nat>)
    requires all != [] && done <= all[0].Keys
    reads ms
  {
    forall i :: 0 <= i < |ms| ==> AddsOk(ms[i].needAdd, all, i, done)
  }

  ghost predicate AllFixes(ms: seq<Metas>, all: seq<Files>, done: set<nat>)
    requires all != [] && done <= all[0].Keys
    reads ms
  {
    forall i :: 0 <= i < |ms| ==> FixesOk(ms[i].needFix, all, i, done)
  }

  lemma NoTasks(ms: seq<Metas>, all: seq<Files>)
    requires all != []
    ensures (forall i :: 0 <= i < |ms| ==> ms[i].needAdd == []) ==> AllAdds(ms, all, {})
    ensures (forall i :: 0 <= i < |ms| ==> ms[i].needFix == []) ==> AllFixes(ms, all, {})
  {
  }

  /** The fix lists are those of the old state. */
  twostate predicate KeepsFix(ms: seq<Metas>)
    reads ms
  {
    forall i :: 0 <= i < |ms| ==> ms[i].needFix == old(ms[i].needFix)
  }

  twostate predicate KeepsAdd(ms: seq<Metas>)
    reads ms
  {
    forall i :: 0 <= i < |ms| ==> ms[i].needAdd == old(ms[i].needAdd)
  }

  /** generatorAddExtentsTasks. */
  method GenerateAdd(ms: seq<Metas>, ghost all: seq<Files>)
    requires Reports(ms, all) && forall i :: 0 <= i < |ms| ==> ms[i].needAdd == []
    modifies ms
    ensures KeepsFix(ms) && AllAdds(ms, all, all[0].Keys)
  {
    hide AddTask, AddWanted, AddsOk, AllAdds;
    NoTasks(ms, all);
    var todo := ms[0].files.Keys;
    ghost var done: set<nat> := {};
    while todo != {}
      invariant done <= all[0].Keys && todo == all[0].Keys - done && KeepsFix(ms)
      invariant AllAdds(ms, all, done)
      decreases |todo|
    {
      var f :| f in todo;
      AddToAll(ms, f, all, done);
      todo, done := todo - {f}, done + {f};
    }
    assert done == all[0].Keys;
  }

  /** The inner loop for one extent of the leader. */
  method AddToAll(ms: seq<Metas>, f: nat, ghost all: seq<Files>, ghost done: set<nat>)
    requires Reports(ms, all) && done <= all[0].Keys && f in all[0] && f !in done
    requires AllAdds(ms, all, done)
    modifies ms
    ensures KeepsFix(ms) && AllAdds(ms, all, done + {f})
  {
    hide AddsOk;
    AddsGrow(ms[0].needAdd, all, 0, done, f);
    if f <= TINY_CHUNKS {
      forall i | 0 <= i < |ms|
        ensures AddsOk(ms[i].needAdd, all, i, done +
      {
        f}) { AddsGrow(ms[i].needAdd, all, i, done, f);
      }
      return;
    }
    var i := 1;
    while i < |ms|
      invariant 1 <= i <= |ms| && KeepsFix(ms)
      invariant forall j :: 0 <= j < i ==> AddsOk(ms[j].needAdd, all, j, done + {f})
      invariant forall j :: i <= j < |ms| ==> AddsOk(ms[j].needAdd, all, j, done)
    {
      AddsGrow(ms[i].needAdd, all, i, done, f);
      if f !in ms[i].files {
        ms[i].needAdd := ms[i].needAdd + [Task(LocalIp, f, ms[0].files[f])];
      }
      i := i + 1;
    }
  }

  /** generatorFixFileSizeTasks. */
  method GenerateFix(ms: seq<Metas>, ghost all: seq<Files>)
    requires Reports(ms, all) && forall i :: 0 <= i < |ms| ==> ms[i].needFix == []
    modifies ms
    ensures KeepsAdd(ms) && AllFixes(ms, all, all[0].Keys)
  {
    hide FixTask, FixWanted, Largest, FixesOk, IsMaxMap, AllFixes;
    NoTasks(ms, all);
    var maxIndex := MapMaxSize(ms, all);
    var todo := ms[0].files.Keys;
    ghost var done: set<nat> := {};
    while todo != {}
      invariant done <= all[0].Keys && todo == all[0].Keys - done && KeepsAdd(ms)
      invariant AllFixes(ms, all, done)
      decreases |todo|
    {
      var f :| f in todo;
      FixInAll(ms, f, maxIndex, all, done);
      todo, done := todo - {f}, done + {f};
    }
    assert done == all[0].Keys;
  }

  /** The inner loop for one extent of the leader. */
  method FixInAll(ms: seq<Metas>, f: nat, maxIndex: map<nat, nat>, ghost all: seq<Files>, ghost done: set<nat>)
    requires Reports(ms, all) && done <= all[0].Keys && f in all[0] && f !in done && IsMaxMap(maxIndex, all)
    requires AllFixes(ms, all, done)
    modifies ms
    ensures KeepsAdd(ms) && AllFixes(ms, all, done + {f})
  {
    hide FixesOk, Largest;
    var m := maxIndex[f];
    var maxSize := ms[m].files[f];
    var i := 0;
    while i < |ms|
      invariant i <= |ms| && KeepsAdd(ms)
      invariant forall j :: 0 <= j < i ==> FixesOk(ms[j].needFix, all, j, done + {f})
      invariant forall j :: i <= j < |ms| ==> FixesOk(ms[j].needFix, all, j, done)
    {
      FixesGrow(ms[i].needFix, all, i, done, f);
      if i != m && f in ms[i].files && ms[i].files[f] < maxSize {
        ms[i].needFix := ms[i].needFix + [Task(Host(m), f, maxSize)];
      }
      i := i + 1;
    }
  }

  // ----- opening missing extents -----

  /** The stream repair that file f of member i needs in this round, if any. */
  function Goal(all: seq<Files>, i: nat, f: nat): Option<Task>
    requires all != []
  {
    if AddWanted(all, i, f) then Some(AddTask(all, f)) else if FixWanted(all, i, f) then Some(FixTask(all, f)) else None
  }

  /** What a member is told to reach for an extent of the leader: a follower that misses it, the
      leader's size; one that is behind, the largest size of all, from a member that has it; nothing
      for the others. */
  lemma GoalIs(all: seq<Files>, i: nat, f: nat)
    requires all != [] && f in all[0] && i < |all| && f > TINY_CHUNKS
    ensures var g := Goal(all, i, f);
      if f !in all[i] then g == Some(Task(LocalIp, f, all[0][f]))
      else if forall j :: 0 <= j < |all| && f in all[j] ==> all[j][f] <= all[i][f] then g == None
      else && g.Some? && g.value.file == f && g.value.source.Host?
           && var m := g.value.source.member;
              && m < |all| && f in all[m] && all[m][f] == g.value.size > all[i][f]
              && forall j :: 0 <= j < |all| && f in all[j] ==> all[j][f] <= g.value.size
  {
  }

  /** One stream repair for every file that needs one. */
  ghost predicate JobsOk(ts: seq<Task>, all: seq<Files>, i: nat)
    requires all != []
  {
    && DistinctFiles(ts)
    && (forall t :: t in ts ==> Goal(all, i, t.file) == Some(t))
    && (forall f :: Goal(all, i, f).Some? ==> Goal(all, i, f).value in ts)
  }

  class ExtentStore {
    var extents: Member
  }

  /** The first loops of MergeRepair: missing extents are created empty, and their contents become
      further stream repairs. */
  method OpenMissing(store: ExtentStore, m: Metas, ghost all: seq<Files>, ghost i: nat)
    requires all != [] && i < |all| && store.extents.Keys == all[i].Keys
    requires AddsOk(m.needAdd, all, i, all[0].Keys) && FixesOk(m.needFix, all, i, all[0].Keys)
    modifies store, m
    ensures store.extents == old(store.extents) + Opened(all, i) && JobsOk(m.needFix, all, i)
  {
    hide Largest, FixTask, FixWanted, AddsOk, FixesOk, JobsOk, AddWanted, Empties, Opened;
    EmptiesAre([]);
    ghost var fixes := m.needFix;
    var k := 0;
    while k < |m.needAdd|
      invariant k <= |m.needAdd| && m.needAdd == old(m.needAdd) && m.needFix == fixes + m.needAdd[..k]
      invariant store.extents == old(store.extents) + Empties(m.needAdd[..k])
    {
      var t := m.needAdd[k];
      MissingYet(m.needAdd, k, all, i);
      assert m.needAdd[..k + 1] == m.needAdd[..k] + [t];
      if t.file > TINY_CHUNKS && t.file !in store.extents {
        store.extents := store.extents[t.file := []];
        m.needFix := m.needFix + [Task(t.source, t.file, t.size)];
      }
      k := k + 1;
    }
    assert m.needAdd[..k] == m.needAdd;
    AllOpened(m.needAdd, all, i);
    JobsTogether(fixes, m.needAdd, all, i);
  }

  ghost function Empties(ts: seq<Task>): Member {
    if ts == [] then map[] else Empties(ts[..|ts| - 1])[ts[|ts| - 1].file := []]
  }

  lemma {:induction false} EmptiesAre(ts: seq<Task>)
    ensures forall f :: f in Empties(ts) <==> exists j :: 0 <= j < |ts| && ts[j].file == f
    ensures forall f :: f in Empties(ts) ==> Empties(ts)[f] == []
  {
    if ts != [] {
      EmptiesAre(ts[..|ts| - 1]);
      assert ts == ts[..|ts| - 1] + [ts[|ts| - 1]];
    }
  }

  /** Task k names an extent that neither the member nor an earlier task has. */
  lemma MissingYet(ts: seq<Task>, k: nat, all: seq<Files>, i: nat)
    requires all != [] && i < |all| && k < |ts| && AddsOk(ts, all, i, all[0].Keys)
    ensures ts[k].file > TINY_CHUNKS && ts[k].file !in all[i] && ts[k].file !in Empties(ts[..k])
    ensures Empties(ts[..k + 1]) == Empties(ts[..k])[ts[k].file := []]
  {
    assert ts[k] in ts;
    EmptiesAre(ts[..k]);
    assert ts[..k + 1][..k] == ts[..k];
  }

  ghost function Opened(all: seq<Files>, i: nat): Member
    requires all != []
  {
    map f | f in all[0] && AddWanted(all, i, f) :: []
  }

  lemma AllOpened(ts: seq<Task>, all: seq<Files>, i: nat)
    requires all != [] && AddsOk(ts, all, i, all[0].Keys)
    ensures Empties(ts) == Opened(all, i)
  {
    EmptiesAre(ts);
    forall f | f in all[0] && AddWanted(all, i, f) ensures f in Empties(ts) { assert AddTask(all, f) in ts; }
    forall f | f in Empties(ts) ensures f in all[0] && AddWanted(all, i, f) {
      var j :| 0 <= j < |ts| && ts[j].file == f;
      assert ts[j] in ts;
    }
  }

  lemma JobsTogether(fixes: seq<Task>, adds: seq<Task>, all: seq<Files>, i: nat)
    requires all != [] && AddsOk(adds, all, i, all[0].Keys) && FixesOk(fixes, all, i, all[0].Keys)
    ensures JobsOk(fixes + adds, all, i)
  {
    hide Largest;
    var ts := fixes + adds;
    forall a, b | 0 <= a < b < |ts| ensures ts[a].file != ts[b].file {
      if a < |fixes| <= b { assert ts[a] in fixes && ts[b] in adds; }
    }
  }

  // ----- all members at work at the same time -----

  /** Member `member` creates an extent it misses, or gets the next block of an extent from the
      source its task names, as the source is at that moment. A transfer may end at any block. */
  datatype Event = Open(member: nat, file: nat) | Block(member: nat, file: nat, count: nat)

  /** The member that answers when the address is dialled. With dials false, as for a bare IP,
      nobody answers for the leader; the results below hold either way. */
  function Dial(a: Addr, dials: bool): Option<nat> {
    match a
    case Host(m) => Some(m)
    case LocalIp => if dials then Some(0) else None
  }

  ghost predicate Enabled(all: seq<Files>, ms: seq<Member>, dials: bool, e: Event)
    requires all != []
  {
    && e.member < |ms|
    && match e
       case Open(i, f) => AddWanted(all, i, f) && f !in ms[i]
       case Block(i, f, n) =>
         && f > TINY_CHUNKS && f in ms[i] && Goal(all, i, f).Some?
         && var t := Goal(all, i, f).value;
            && Dial(t.source, dials).Some?
            && var src := Dial(t.source, dials).value;
               src < |ms| && f in ms[src] && 0 < n <= READ_BLOCK && |ms[i][f]| + n <= t.size <= |ms[src][f]|
  }

  function With(ms: seq<Member>, i: nat, f: nat, bytes: seq<Byte>): seq<Member>
    requires i < |ms|
  {
    var m: Member := ms[i][f := bytes];
    ms[i := m]
  }

  ghost function Step(all: seq<Files>, ms: seq<Member>, dials: bool, e: Event): seq<Member>
    requires all != [] && Enabled(all, ms, dials, e)
  {
    var i, f := e.member, e.file;
    if e.Open? then With(ms, i, f, []) else
      var from := ms[Dial(Goal(all, i, f).value.source, dials).value][f];
      With(ms, i, f, ms[i][f] + from[|ms[i][f]|..|ms[i][f]| + e.count])
  }

  ghost predicate Reaches(all: seq<Files>, dials: bool, ms: seq<Member>, es: seq<Event>, end: seq<Member>)
    requires all != []
    decreases |es|
  {
    if es == [] then ms == end
    else Enabled(all, ms, dials, es[0]) && Reaches(all, dials, Step(all, ms, dials, es[0]), es[1..], end)
  }

  /** Every missing extent has been created and every fix has reached its size; transfers to created
      extents may have failed. */
  ghost predicate Finished(all: seq<Files>, ms: seq<Member>)
    requires all != []
  {
    && (forall i, f :: 0 <= i < |ms| && AddWanted(all, i, f) ==> f in ms[i])
    && (forall i, f :: 0 <= i < |ms| && f in ms[i] && f > TINY_CHUNKS && FixWanted(all, i, f) ==>
       FixTask(all, f).size <= |ms[i][f]|)
  }

  predicate Shared(start: seq<Member>, f: nat)
    requires start != []
  {
    f in start[0] && f > TINY_CHUNKS
  }

  /** The replicas of each extent of the leader are prefixes of one stream. */
  ghost predicate Streamed(start: seq<Member>, streams: map<nat, seq<Byte>>) {
    && start != []
    && (forall f :: Shared(start, f) ==> f in streams)
    && (forall i, f :: 0 <= i < |start| && f in start[i] && Shared(start, f) ==> start[i][f] <= streams[f])
  }

  /** The size that member i is to reach. */
  function Target(start: seq<Member>, i: nat, f: nat): nat
    requires start != [] && i < |start| && Shared(start, f)
  {
    var all := Sizes(start);
    if f in start[i] then all[Largest(all, f)][f] else all[0][f]
  }

  /** Shared extents grow along the stream, up to their target, created ones only if the leader can
      be dialled; other extents stay as they were. */
  ghost predicate CellOk(start: seq<Member>, streams: map<nat, seq<Byte>>, dials: bool, ms: seq<Member>, i: nat, f: nat)
    requires Streamed(start, streams) && |ms| == |start| && i < |ms|
  {
    && (f in start[i] ==> f in ms[i])
    && (f in ms[i] ==> if Shared(start, f)
          then && ms[i][f] <= streams[f] && |ms[i][f]| <= Target(start, i, f)
               && (if f in start[i] then |start[i][f]| <= |ms[i][f]| else !dials ==> ms[i][f] == [])
          else f in start[i] && ms[i][f] == start[i][f])
  }

  ghost predicate Inv(start: seq<Member>, streams: map<nat, seq<Byte>>, dials: bool, ms: seq<Member>)
    requires Streamed(start, streams)
  {
    |ms| == |start| && forall i, f :: 0 <= i < |ms| && f >= 0 ==> CellOk(start, streams, dials, ms, i, f)
  }

  lemma StartOk(start: seq<Member>, streams: map<nat, seq<Byte>>, dials: bool)
    requires Streamed(start, streams)
    ensures Inv(start, streams, dials, start)
  {
    hide Largest;
    forall i, f | 0 <= i < |start| && f >= 0 ensures CellOk(start, streams, dials, start, i, f) {
      if f in start[i] && Shared(start, f) { assert Sizes(start)[i][f] == |start[i][f]|; }
    }
  }

  /** What a task asks for: the target size, which its source had when the round began. */
  lemma GoalIsTarget(start: seq<Member>, i: nat, f: nat, dials: bool)
    requires start != [] && i < |start| && f > TINY_CHUNKS && Goal(Sizes(start), i, f).Some?
    ensures Shared(start, f)
    ensures var t := Goal(Sizes(start), i, f).value;
      && t.size == Target(start, i, f)
      && (Dial(t.source, dials).Some? ==>
            var src := Dial(t.source, dials).value;
            src < |start| && f in start[src] && |start[src][f]| == t.size && (f !in start[i] ==> dials))
      && (FixWanted(Sizes(start), i, f) ==> Dial(t.source, dials).Some? && t == FixTask(Sizes(start), f))
  {
    hide Largest;
  }

  lemma StepKeeps(start: seq<Member>, streams: map<nat, seq<Byte>>, dials: bool, ms: seq<Member>, e: Event)
    requires Streamed(start, streams) && Inv(start, streams, dials, ms) && Enabled(Sizes(start), ms, dials, e)
    ensures Inv(start, streams, dials, Step(Sizes(start), ms, dials, e))
  {
    hide Sizes, Target, Goal, FixWanted, FixTask, Dial;
    var all, i, f := Sizes(start), e.member, e.file;
    var ms' := Step(all, ms, dials, e);
    if e.Open? {
      OpenOk(start, streams, dials, ms, i, f);
    } else {
      GoalIsTarget(start, i, f, dials);
      var src := Dial(Goal(all, i, f).value.source, dials).value;
      assert CellOk(start, streams, dials, ms, i, f) && CellOk(start, streams, dials, ms, src, f);
      BlockFits(ms[i][f], ms[src][f], streams[f], e.count);
    }
    forall j, g | 0 <= j < |ms'| && g >= 0 ensures CellOk(start, streams, dials, ms', j, g) {
      if (j, g) != (i, f) { assert CellOk(start, streams, dials, ms, j, g); }
    }
  }

  lemma OpenOk(start: seq<Member>, streams: map<nat, seq<Byte>>, dials: bool, ms: seq<Member>, i: nat, f: nat)
    requires Streamed(start, streams) && Inv(start, streams, dials, ms) && i < |ms| &&
      AddWanted(Sizes(start), i, f) && f !in ms[i]
    ensures CellOk(start, streams, dials, With(ms, i, f, []), i, f)
  {
    hide Largest;
  }

  lemma BlockFits(local: seq<Byte>, from: seq<Byte>, stream: seq<Byte>, n: nat)
    requires local <= stream && from <= stream && |local| + n <= |from|
    ensures local + from[|local|..|local| + n] <= stream
  {
    assert local + from[|local|..|local| + n] == stream[..|local| + n];
  }

  /** However the members' steps are interleaved, replicas only grow along their streams. */
  lemma {:induction false} EveryScheduleExtends(start: seq<Member>, streams: map<nat, seq<Byte>>, dials: bool,
      ms: seq<Member>, es: seq<Event>, end: seq<Member>)
    requires Streamed(start, streams) && Inv(start, streams, dials, ms) && Reaches(Sizes(start), dials, ms, es, end)
    ensures Inv(start, streams, dials, end)
    decreases |es|
  {
    hide Inv, Shared, Enabled, Step, Sizes;
    if es != [] {
      StepKeeps(start, streams, dials, ms, es[0]);
      EveryScheduleExtends(start, streams, dials, Step(Sizes(start), ms, dials, es[0]), es[1..], end);
    }
  }

  // ----- what a finished round leaves -----

  /** For every extent of the leader a round; all else untouched; and created replicas left empty if
      the leader cannot be dialled. */
  ghost predicate RoundOf(start: seq<Member>, dials: bool, end: seq<Member>)
    requires start != []
  {
    && |end| == |start|
    && (forall f: nat :: Shared(start, f) ==> Column(start, f)[0].Some? && AfterRound(Column(start, f), Column(end, f)))
    && (forall i, f: nat :: 0 <= i < |start| && !Shared(start, f) ==> Lookup(end[i], f) == Lookup(start[i], f))
    && (!dials ==> forall i, f: nat :: 0 <= i < |start| && Shared(start, f) && f !in start[i] ==>
       Lookup(end[i], f) == Some([]))
  }

  function Lookup(m: Member, f: nat): Option<seq<Byte>> { if f in m then Some(m[f]) else None }

  lemma FixedCell(start: seq<Member>, streams: map<nat, seq<Byte>>, dials: bool, ms: seq<Member>, i: nat, f: nat)
    requires Streamed(start, streams) && Inv(start, streams, dials, ms) && Finished(Sizes(start), ms) &&
      i < |start| && Shared(start, f) && f in start[i]
    ensures f in ms[i] && |ms[i][f]| == Target(start, i, f)
  {
    hide Largest;
    assert CellOk(start, streams, dials, ms, i, f);
    assert Sizes(start)[i][f] == |start[i][f]|;
    assert FixWanted(Sizes(start), i, f) ==> FixTask(Sizes(start), f).size <= |ms[i][f]|;
  }

  lemma CreatedCell(start: seq<Member>, streams: map<nat, seq<Byte>>, dials: bool, ms: seq<Member>, i: nat, f: nat)
    requires Streamed(start, streams) && Inv(start, streams, dials, ms) && Finished(Sizes(start), ms) &&
      i < |start| && Shared(start, f) && f !in start[i]
    ensures f in ms[i] && ms[i][f] <= start[0][f] && (!dials ==> ms[i][f] == [])
  {
    hide Largest;
    assert AddWanted(Sizes(start), i, f);
    assert CellOk(start, streams, dials, ms, i, f);
    assert start[0][f] <= streams[f];
  }

  /** Whatever the schedule and whichever transfers to created extents fail, a finished round leaves
      what a round is meant to leave. */
  lemma FinishedIsRound(start: seq<Member>, streams: map<nat, seq<Byte>>, dials: bool, ms: seq<Member>)
    requires Streamed(start, streams) && Inv(start, streams, dials, ms) && Finished(Sizes(start), ms)
    ensures RoundOf(start, dials, ms)
  {
    hide Finished, Target, Largest, Longest, AfterRound;
    forall f: nat | Shared(start, f) ensures Column(start, f)[0].Some? && AfterRound(Column(start, f), Column(ms, f)) {
      ColumnIsRound(start, streams, dials, ms, f);
    }
    forall i, f: nat | 0 <= i < |start| && !Shared(start, f) ensures Lookup(ms[i], f) == Lookup(start[i], f) {
      assert CellOk(start, streams, dials, ms, i, f);
    }
    if !dials {
      forall i, f: nat | 0 <= i < |start| && Shared(start, f) && f !in start[i] ensures Lookup(ms[i], f) == Some([]) {
        CreatedCell(start, streams, dials, ms, i, f);
      }
    }
  }

  lemma ColumnIsRound(start: seq<Member>, streams: map<nat, seq<Byte>>, dials: bool, ms: seq<Member>, f: nat)
    requires Streamed(start, streams) && Inv(start, streams, dials, ms) && Finished(Sizes(start), ms) &&
      Shared(start, f)
    ensures Column(start, f)[0].Some? && AfterRound(Column(start, f), Column(ms, f))
  {
    hide Finished, Largest, Longest;
    var rs, rs' := Column(start, f), Column(ms, f);
    LargestIsLongest(start, f);
    var m := Longest(rs);
    forall i | 0 <= i < |start| && rs[i].Some? ensures rs'[i] == rs[m] {
      FixedCell(start, streams, dials, ms, i, f);
      assert CellOk(start, streams, dials, ms, i, f);
      SameLength(ms[i][f], start[m][f], streams[f]);
    }
    forall i | 0 <= i < |start| && rs[i].None? ensures rs'[i].Some? && rs'[i].value <= rs[0].value {
      CreatedCell(start, streams, dials, ms, i, f);
    }
  }

  /** The code sends blocks of full size, and the rest at the end. */
  ghost predicate FullBlock(all: seq<Files>, ms: seq<Member>, dials: bool, e: Event)
    requires all != [] && Enabled(all, ms, dials, e)
  {
    e.Block? ==>
      var rest := Goal(all, e.member, e.file).value.size - |ms[e.member][e.file]|;
      e.count == if rest < READ_BLOCK then rest else READ_BLOCK
  }

  /** Unless it is finished, the round can go on: no task waits for another. */
  lemma RoundGoesOn(start: seq<Member>, streams: map<nat, seq<Byte>>, dials: bool, ms: seq<Member>) returns (e: Event)
    requires Streamed(start, streams) && Inv(start, streams, dials, ms) && !Finished(Sizes(start), ms)
    ensures Enabled(Sizes(start), ms, dials, e) && FullBlock(Sizes(start), ms, dials, e)
  {
    hide Largest;
    var all := Sizes(start);
    if i, f :| 0 <= i < |ms| && AddWanted(all, i, f) && f !in ms[i] {
      e := Open(i, f);
    } else {
      var i, f :| 0 <= i < |ms| && f in ms[i] && f > TINY_CHUNKS && FixWanted(all, i, f) &&
        FixTask(all, f).size > |ms[i][f]|;
      GoalIsTarget(start, i, f, dials);
      assert CellOk(start, streams, dials, ms, Largest(all, f), f);
      var rest := FixTask(all, f).size - |ms[i][f]|;
      e := Block(i, f, if rest < READ_BLOCK then rest else READ_BLOCK);
    }
  }

  // ----- every schedule ends -----

  /** Steps still needed at most for file f of member i. */
  ghost function Left(start: seq<Member>, ms: seq<Member>, i: nat, f: nat): nat
    requires start != [] && |ms| == |start|
  {
    if i >= |ms| || !Shared(start, f) then 0
    else if f !in ms[i] then 1 + Target(start, i, f)
    else if |ms[i][f]| < Target(start, i, f) then Target(start, i, f) - |ms[i][f]| else 0
  }

  ghost function LeftIn(start: seq<Member>, ms: seq<Member>, cells: set<(nat, nat)>): nat
    requires start != [] && |ms| == |start|
    decreases |cells|
  {
    if cells == {} then 0 else
      var c :| c in cells;
      Left(start, ms, c.0, c.1) + LeftIn(start, ms, cells - {c})
  }

  lemma {:induction false} TakeCell(start: seq<Member>, ms: seq<Member>, cells: set<(nat, nat)>, c: (nat, nat))
    requires start != [] && |ms| == |start| && c in cells
    ensures LeftIn(start, ms, cells) == Left(start, ms, c.0, c.1) + LeftIn(start, ms, cells - {c})
    decreases |cells|
  {
    hide Left;
    var d :| d in cells && LeftIn(start, ms, cells) == Left(start, ms, d.0, d.1) + LeftIn(start, ms, cells - {d});
    if d != c {
      TakeCell(start, ms, cells - {d}, c);
      TakeCell(start, ms, cells - {c}, d);
      assert cells - {d} - {c} == cells - {c} - {d};
    }
  }

  lemma {:induction false} SameCells(start: seq<Member>, ms: seq<Member>, ms': seq<Member>, cells: set<(nat, nat)>)
    requires start != [] && |ms| == |ms'| == |start|
    requires forall c :: c in cells ==> Left(start, ms, c.0, c.1) == Left(start, ms', c.0, c.1)
    ensures LeftIn(start, ms, cells) == LeftIn(start, ms', cells)
    decreases |cells|
  {
    hide Left;
    if cells != {} {
      var c :| c in cells;
      TakeCell(start, ms, cells, c);
      TakeCell(start, ms', cells, c);
      SameCells(start, ms, ms', cells - {c});
    }
  }

  ghost function Cells(start: seq<Member>): set<(nat, nat)>
    requires start != []
  {
    set i, f | 0 <= i < |start| && f in start[0] :: (i, f)
  }

  lemma StepShortens(start: seq<Member>, streams: map<nat, seq<Byte>>, dials: bool, ms: seq<Member>, e: Event)
    requires Streamed(start, streams) && Inv(start, streams, dials, ms) && Enabled(Sizes(start), ms, dials, e)
    ensures |Step(Sizes(start), ms, dials, e)| == |start|
    ensures LeftIn(start, Step(Sizes(start), ms, dials, e), Cells(start)) < LeftIn(start, ms, Cells(start))
  {
    hide LeftIn, Inv, Streamed;
    InvLength(start, streams, dials, ms);
    var ms', c := Step(Sizes(start), ms, dials, e), (e.member, e.file);
    CellShortens(start, streams, dials, ms, e);
    TakeCell(start, ms, Cells(start), c);
    TakeCell(start, ms', Cells(start), c);
    SameCells(start, ms, ms', Cells(start) - {c});
  }

  lemma InvLength(start: seq<Member>, streams: map<nat, seq<Byte>>, dials: bool, ms: seq<Member>)
    requires Streamed(start, streams) && Inv(start, streams, dials, ms)
    ensures |ms| == |start|
  {
  }

  lemma CellShortens(start: seq<Member>, streams: map<nat, seq<Byte>>, dials: bool, ms: seq<Member>, e: Event)
    requires Streamed(start, streams) && Inv(start, streams, dials, ms) && Enabled(Sizes(start), ms, dials, e)
    ensures var ms' := Step(Sizes(start), ms, dials, e);
      && |ms'| == |start| && (e.member, e.file) in Cells(start)
      && Left(start, ms', e.member, e.file) < Left(start, ms, e.member, e.file)
      && forall j: nat, g: nat :: (j, g) != (e.member, e.file) ==> Left(start, ms', j, g) == Left(start, ms, j, g)
  {
    hide Largest, Target, Goal, Dial, FixWanted, FixTask;
    if e.Block? { GoalIsTarget(start, e.member, e.file, dials); }
    assert Shared(start, e.file);
  }

  /** No schedule is longer than the bytes and extents that were missing. */
  lemma {:induction false} EveryScheduleEnds(start: seq<Member>, streams: map<nat, seq<Byte>>, dials: bool,
      ms: seq<Member>, es: seq<Event>, end: seq<Member>)
    requires Streamed(start, streams) && Inv(start, streams, dials, ms) && Reaches(Sizes(start), dials, ms, es, end)
    ensures |ms| == |start| && |es| <= LeftIn(start, ms, Cells(start))
    decreases |es|
  {
    hide Inv, Shared, Enabled, Step, Sizes, LeftIn, Cells;
    InvLength(start, streams, dials, ms);
    if es != [] {
      StepKeeps(start, streams, dials, ms, es[0]);
      StepShortens(start, streams, dials, ms, es[0]);
      EveryScheduleEnds(start, streams, dials, Step(Sizes(start), ms, dials, es[0]), es[1..], end);
    }
  }

  // ----- two rounds -----

  lemma RoundStreamed(start: seq<Member>, streams: map<nat, seq<Byte>>, dials: bool, mid: seq<Member>)
    requires Streamed(start, streams) && RoundOf(start, dials, mid)
    ensures Streamed(mid, streams) && forall f: nat :: Shared(start, f) <==> Shared(mid, f)
  {
    hide Longest, AfterRound;
    forall f: nat ensures Shared(start, f) <==> Shared(mid, f) {
      if Shared(start, f) {
        InMid(start, streams, dials, mid, 0, f);
      } else {
        assert Lookup(mid[0], f) == Lookup(start[0], f);
      }
    }
    forall i: nat, f: nat | i < |mid| && f in mid[i] && Shared(mid, f)
      ensures mid[i][f] <= streams[f]
    {
      InMid(start, streams, dials, mid, i, f);
    }
  }

  lemma InMid(start: seq<Member>, streams: map<nat, seq<Byte>>, dials: bool, mid: seq<Member>, i: nat, f: nat)
    requires Streamed(start, streams) && RoundOf(start, dials, mid) && i < |start| && Shared(start, f)
    ensures f in mid[i] && mid[i][f] <= streams[f]
  {
    hide Longest, AfterRound;
    RoundExtends(Column(start, f), Column(mid, f), streams[f]);
    assert Column(mid, f)[i].Some? && Column(mid, f)[i].value <= streams[f];
  }

  /** One finished round, as it is carried out. */
  ghost predicate Round(start: seq<Member>, dials: bool, es: seq<Event>, end: seq<Member>) {
    start != [] && Reaches(Sizes(start), dials, start, es, end) && Finished(Sizes(start), end)
  }

  lemma RoundIs(start: seq<Member>, streams: map<nat, seq<Byte>>, dials: bool, es: seq<Event>, end: seq<Member>)
    requires Streamed(start, streams) && Round(start, dials, es, end)
    ensures RoundOf(start, dials, end)
  {
    hide Reaches, Finished, Inv, RoundOf;
    StartOk(start, streams, dials);
    EveryScheduleExtends(start, streams, dials, start, es, end);
    FinishedIsRound(start, streams, dials, end);
  }

  /** Two rounds, each carried out in any order, whatever happens to the transfers to created
      extents: afterwards every member has every extent of the leader with the bytes of the longest
      replica there was. */
  lemma TwoRoundsInAnyOrder(start: seq<Member>, streams: map<nat, seq<Byte>>, dials: bool, es: seq<Event>,
      mid: seq<Member>, es': seq<Event>, end: seq<Member>, f: nat, i: nat)
    requires Streamed(start, streams) && Round(start, dials, es, mid) && Round(mid, dials, es', end)
    requires Shared(start, f) && i < |start|
    ensures |end| == |start| && f in end[i] && Column(start, f)[0].Some? &&
      Some(end[i][f]) == Column(start, f)[Longest(Column(start, f))]
  {
    hide Round, Longest, AfterRound;
    RoundIs(start, streams, dials, es, mid);
    RoundStreamed(start, streams, dials, mid);
    RoundIs(mid, streams, dials, es', end);
    TwoRoundsConverge(Column(start, f), Column(mid, f), Column(end, f), streams[f]);
    assert Column(end, f)[i] == Column(start, f)[Longest(Column(start, f))];
  }

  /** One round, with a leader that cannot be dialled, is enough for an extent if and only if no
      follower misses it or it is empty everywhere. */
  lemma OneRoundIsEnoughExactly(start: seq<Member>, streams: map<nat, seq<Byte>>, es: seq<Event>, end: seq<Member>,
      f: nat)
    requires Streamed(start, streams) && Round(start, false, es, end) && Shared(start, f)
    ensures Column(start, f)[0].Some? && |end| == |start|
    ensures (forall i :: 0 <= i < |start| ==> Column(end, f)[i] == Column(start, f)[Longest(Column(start, f))]) <==>
      (forall i :: 0 <= i < |start| ==> f in start[i]) || forall i :: 0 <= i < |start| && f in start[i] ==>
        start[i][f] == []
  {
    hide Round, Longest, AfterRound;
    RoundIs(start, streams, false, es, end);
    var rs, rs' := Column(start, f), Column(end, f);
    var m := Longest(rs);
    OneRoundExactly(rs, rs', streams[f]);
    forall i | 0 <= i < |start| && rs[i].None? ensures rs'[i] == Some([]) { assert Lookup(end[i], f) == Some([]); }
    assert SizeOf(rs[m]) == 0 <==> forall i :: 0 <= i < |start| && f in start[i] ==> start[i][f] == [] by {
      forall i | 0 <= i < |start| && f in start[i] && SizeOf(rs[m]) == 0
        ensures start[i][f] == []
      {
        assert SizeOf(rs[i]) <= SizeOf(rs[m]);
      }
      assert rs[m] == Some(start[m][f]);
    }
    if i :| 0 <= i < |start| && f !in start[i] {
      assert rs[i].None? && SizeOf(rs'[i]) == 0;
    }
  }
}
