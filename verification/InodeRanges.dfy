/** Inode ranges of a volume: the master splits the last range off when its metanode fills up, any
    of the steps may fail, and the metanodes hand out ids from their own copy of the range. */
module InodeRanges {
  const MAX_INODE := 0x7FFF_FFFF_FFFF_FFFF
  const STEP := 0x100_0000

  datatype Part = Part(id: nat, start: nat, end: nat)

  /** A metanode's own view of its partition, with the new ends sent to it and not yet applied. */
  datatype Node = Node(cursor: nat, end: nat, queue: seq<nat>)

  datatype Vol = Vol(parts: seq<Part>, nodes: seq<Node>, lastId: nat)

  /** How far UpdateEnd or a creation got. */
  datatype Outcome = NoLeader | NotSubmitted | NotCreated(tookId: bool) | Done

  // ----- the master's steps -----

  /** CreateMetaPartition: an id may be used up by an attempt that fails later. */
  function Create(v: Vol, start: nat, o: Outcome): Vol {
    match o
    case Done =>
      Vol(v.parts + [Part(v.lastId + 1, start, MAX_INODE)], v.nodes + [Node(start, MAX_INODE, [])], v.lastId + 1)
    case NotCreated(tookId) => if tookId then v.(lastId := v.lastId + 1) else v
    case _ => v
  }

  function CreateVol(v: Vol, o: Outcome): Vol {
    if v.parts == [] then Create(v, 0, o) else v
  }

  function WithEnd(v: Vol, end: nat): Vol
    requires v.parts != []
  {
    var n := |v.parts| - 1;
    v.(parts := v.parts[n := v.parts[n].(end := end)])
  }

  function Send(v: Vol, end: nat): Vol
    requires v.parts != [] && |v.nodes| == |v.parts|
  {
    var n := |v.parts| - 1;
    v.(nodes := v.nodes[n := v.nodes[n].(queue := v.nodes[n].queue + [end])])
  }

  /** UpdateEnd on the last partition. */
  function EndUpdated(v: Vol, end: nat, o: Outcome): Vol
    requires v.parts != [] && |v.nodes| == |v.parts|
  {
    if end > MAX_INODE - STEP || o.NoLeader? || o.NotSubmitted? then v
    else Create(Send(WithEnd(v, end), end), end + 1, o)
  }

  /** updateEnd on a report: only the last partition, only while its end is open. */
  function Reported(v: Vol, maxInode: nat, enough: bool, o: Outcome): Vol
    requires v.parts != [] && |v.nodes| == |v.parts|
  {
    var p := v.parts[|v.parts| - 1];
    var base := if maxInode <= 0 then p.start else maxInode;
    if p.end == MAX_INODE && enough then EndUpdated(v, base + STEP, o) else v
  }

  /** CreateMetaPartitionForManual: the new end must only not be below the largest inode id the master
      knows of, which is 0 until the partition has reported. */
  function ManuallySplit(v: Vol, end: nat, known: nat, o: Outcome): Vol
    requires v.parts != [] && |v.nodes| == |v.parts|
  {
    if end < known then v else EndUpdated(v, end, o)
  }

  /** checkEnd: reopen the last partition if it was left closed without a successor. */
  function EndChecked(v: Vol, submitted: bool): Vol
    requires v.parts != []
  {
    if submitted then WithEnd(v, MAX_INODE) else v
  }

  // ----- the metanodes' steps -----

  /** nextInodeID. */
  function Alloc(v: Vol, i: nat): Vol
    requires i < |v.nodes|
  {
    var n := v.nodes[i];
    if n.cursor >= n.end then v else v.(nodes := v.nodes[i := n.(cursor := n.cursor + 1)])
  }

  /** Applying the oldest outstanding update. */
  function Apply(v: Vol, i: nat): Vol
    requires i < |v.nodes|
  {
    var n := v.nodes[i];
    if n.queue == [] then v else v.(nodes := v.nodes[i := Node(n.cursor, n.queue[0], n.queue[1..])])
  }

  // ----- tiling -----

  /** Ordered by id the ranges start at 0, each follows the one before it without a gap, and only
      the last may end early. */
  ghost predicate Tiled(parts: seq<Part>) {
    && (parts != [] ==> parts[0].start == 0)
    && (forall i :: 0 <= i < |parts| ==> parts[i].start <= parts[i].end <= MAX_INODE)
    && (forall i :: 0 < i < |parts| ==> parts[i - 1].end + 1 == parts[i].start && parts[i - 1].id < parts[i].id)
  }

  ghost predicate IdsBelow(v: Vol) {
    (forall i :: 0 <= i < |v.parts| ==> v.parts[i].id <= v.lastId) && |v.nodes| == |v.parts|
  }

  lemma CreateTiles(v: Vol, start: nat, o: Outcome)
    requires Tiled(v.parts) && IdsBelow(v) && start <= MAX_INODE
    requires if v.parts == [] then start == 0 else start == v.parts[|v.parts| - 1].end + 1
    ensures Tiled(Create(v, start, o).parts) && IdsBelow(Create(v, start, o))
  {
    var v', n := Create(v, start, o), |v.parts|;
    if o.Done? {
      forall i | 0 < i < |v'.parts|
        ensures v'.parts[i - 1].end + 1 == v'.parts[i].start && v'.parts[i - 1].id < v'.parts[i].id
      {
        if i < n { assert v'.parts[i] == v.parts[i] && v'.parts[i - 1] == v.parts[i - 1]; }
      }
    }
  }

  lemma EndTiles(v: Vol, end: nat)
    requires Tiled(v.parts) && IdsBelow(v) && v.parts != [] && v.parts[|v.parts| - 1].start <= end <= MAX_INODE
    ensures Tiled(WithEnd(v, end).parts) && IdsBelow(WithEnd(v, end))
  {
    var v', n := WithEnd(v, end), |v.parts| - 1;
    forall i | 0 < i < |v'.parts|
      ensures v'.parts[i - 1].end + 1 == v'.parts[i].start && v'.parts[i - 1].id < v'.parts[i].id
    {
      assert v'.parts[i].start == v.parts[i].start && v'.parts[i - 1] == v.parts[i - 1];
    }
  }

  /** UpdateEnd goes through: the end is not too large and leader and submit were there. */
  predicate GoesThrough(end: nat, o: Outcome) { end <= MAX_INODE - STEP && !o.NoLeader? && !o.NotSubmitted? }

  /** UpdateEnd keeps the tiling if and only if it does not go through or the end is not before the
      start of the range. */
  lemma UpdateEndTiles(v: Vol, end: nat, o: Outcome)
    requires Tiled(v.parts) && IdsBelow(v) && v.parts != []
    ensures var v' := EndUpdated(v, end, o);
      IdsBelow(v') && (Tiled(v'.parts) <==> !GoesThrough(end, o) || v.parts[|v.parts| - 1].start <= end)
  {
    if GoesThrough(end, o) {
      var w := Send(WithEnd(v, end), end);
      var n := |v.parts| - 1;
      var v' := EndUpdated(v, end, o);
      assert v'.parts[n] == v.parts[n].(end := end);
      if v.parts[n].start <= end {
        EndTiles(v, end);
        CreateTiles(w, end + 1, o);
      }
    }
  }

  function TwoParts(): Vol {
    Vol([Part(1, 0, STEP), Part(2, STEP + 1, MAX_INODE)], [Node(0, STEP, []), Node(STEP + 1, MAX_INODE, [])], 2)
  }

  /** The manual split of a partition that has not reported yet accepts an end before its start. */
  lemma ManualSplitBreaksTiling(end: nat)
    requires end <= STEP
    ensures Inv(TwoParts()) && !Tiled(ManuallySplit(TwoParts(), end, 0, Done).parts)
  {
    hide EndUpdated;
    var v := TwoParts();
    assert Tiled(v.parts) && IdsBelow(v);
    UpdateEndTiles(v, end, Done);
  }

  /** Any point of the id space up to the last end lies in exactly one range. */
  lemma {:induction false} RangeFor(parts: seq<Part>, ino: nat) returns (i: nat)
    requires Tiled(parts) && parts != [] && ino <= parts[|parts| - 1].end
    ensures i < |parts| && parts[i].start <= ino <= parts[i].end
    decreases |parts|
  {
    var n := |parts| - 1;
    if parts[n].start <= ino {
      i := n;
    } else {
      TiledFront(parts);
      i := RangeFor(parts[..n], ino);
    }
  }

  lemma TiledFront(parts: seq<Part>)
    requires Tiled(parts) && parts != []
    ensures Tiled(parts[..|parts| - 1])
  {
    var n := |parts| - 1;
    var f := parts[..n];
    forall i | 0 < i < |f| ensures f[i - 1].end + 1 == f[i].start && f[i - 1].id < f[i].id { assert f[i] == parts[i]; }
  }

  lemma {:induction false} StartsIncrease(parts: seq<Part>, i: nat, j: nat)
    requires Tiled(parts) && i < j < |parts|
    ensures parts[i].end < parts[j].start && parts[i].id < parts[j].id
    decreases j - i
  {
    assert parts[j - 1].end + 1 == parts[j].start;
    if i < j - 1 { StartsIncrease(parts, i, j - 1); }
  }

  // ----- ownership over every run -----

  datatype Event =
    | NewVol(o: Outcome)
    | Report(maxInode: nat, enough: bool, o: Outcome)
    | Manual(end: nat, known: nat, o: Outcome)
    | Check(submitted: bool)
    | AllocAt(i: nat)
    | ApplyAt(i: nat)

  /** A report carries some earlier cursor of the last partition, or 0. */
  ghost predicate Enabled(v: Vol, e: Event)
    requires |v.nodes| == |v.parts|
  {
    match e
    case NewVol(_) => true
    case Report(m, _, _) => v.parts != [] &&
      (m == 0 || v.parts[|v.parts| - 1].start <= m <= v.nodes[|v.nodes| - 1].cursor)
    case Manual(_, _, _) => v.parts != []
    case Check(_) => v.parts != []
    case AllocAt(i) => i < |v.nodes|
    case ApplyAt(i) => i < |v.nodes|
  }

  function Step(v: Vol, e: Event): Vol
    requires |v.nodes| == |v.parts|
    requires (e.Report? || e.Manual? || e.Check?) ==> v.parts != []
    requires (e.AllocAt? || e.ApplyAt?) ==> e.i < |v.nodes|
  {
    match e
    case NewVol(o) => CreateVol(v, o)
    case Report(m, enough, o) => Reported(v, m, enough, o)
    case Manual(end, known, o) => ManuallySplit(v, end, known, o)
    case Check(ok) => EndChecked(v, ok)
    case AllocAt(i) => Alloc(v, i)
    case ApplyAt(i) => Apply(v, i)
  }

  /** The end the metanode will have once everything sent has arrived. */
  function Effective(n: Node): nat {
    if n.queue == [] then n.end else n.queue[|n.queue| - 1]
  }

  /** All that the metanode handed out lies in the range, and the end it will have does too. */
  ghost predicate NodeOk(p: Part, n: Node) {
    p.start <= n.cursor <= p.end && Effective(n) <= p.end
  }

  ghost predicate Inv(v: Vol) {
    Tiled(v.parts) && IdsBelow(v) && forall i :: 0 <= i < |v.parts| ==> NodeOk(v.parts[i], v.nodes[i])
  }

  /** The end that a split on a report or by hand gives the last partition. */
  function NewEnd(v: Vol, e: Event): nat
    requires v.parts != [] && (e.Report? || e.Manual?)
  {
    if e.Manual? then e.end else (if e.maxInode == 0 then v.parts[|v.parts| - 1].start else e.maxInode) + STEP
  }

  /** The split is not turned down on the way. */
  predicate Splits(v: Vol, e: Event)
    requires v.parts != [] && (e.Report? || e.Manual?)
  {
    && GoesThrough(NewEnd(v, e), e.o)
    && if e.Manual? then e.known <= e.end else v.parts[|v.parts| - 1].end == MAX_INODE && e.enough
  }

  /** What makes a partition lose ids it has handed out: a split below its cursor, which no check of
      the code excludes, or handing out an id past an end that it has not been told yet. */
  ghost predicate Disowns(v: Vol, e: Event)
    requires |v.nodes| == |v.parts| && Enabled(v, e)
  {
    match e
    case Report(_, _, _) => Splits(v, e) && NewEnd(v, e) < v.nodes[|v.nodes| - 1].cursor
    case Manual(_, _, _) => Splits(v, e) && NewEnd(v, e) < v.nodes[|v.nodes| - 1].cursor
    case AllocAt(i) => v.parts[i].end <= v.nodes[i].cursor < v.nodes[i].end
    case _ => false
  }

  /** Any event keeps the ranges tiled and every id handed out within its own range if and only if it
      is not one of these. */
  lemma StepKeepsExactly(v: Vol, e: Event)
    requires Inv(v) && Enabled(v, e)
    ensures Inv(Step(v, e)) <==> !Disowns(v, e)
  {
    hide Tiled, NodeOk;
    if Disowns(v, e) { DisownsBreaks(v, e); } else { StepKeeps(v, e); }
  }

  lemma DisownsBreaks(v: Vol, e: Event)
    requires Inv(v) && Enabled(v, e) && Disowns(v, e)
    ensures !Inv(Step(v, e))
  {
    hide Tiled;
    var w := Step(v, e);
    var i := if e.AllocAt? then e.i else |v.parts| - 1;
    assert NodeOk(v.parts[i], v.nodes[i]);
    assert w.parts[i].end < w.nodes[i].cursor;
  }

  lemma StepKeeps(v: Vol, e: Event)
    requires Inv(v) && Enabled(v, e) && !Disowns(v, e)
    ensures Inv(Step(v, e))
  {
    hide Tiled;
    match e {
      case NewVol(o) => if v.parts == [] { CreateTiles(v, 0, o); }
      case Report(m, enough, o) => ReportKeeps(v, m, enough, o);
      case Manual(end, known, o) => if known <= end { EndKeeps(v, end, o); }
      case Check(ok) =>
        TiledBounds(v.parts);
        EndTiles(v, MAX_INODE);
      case AllocAt(i) =>
      case ApplyAt(i) => ApplyKeeps(v, i);
    }
  }

  /** An allocation does so only while a new end is on its way. */
  lemma AllocOwns(v: Vol, i: nat)
    requires Inv(v) && i < |v.nodes| && Disowns(v, AllocAt(i))
    ensures v.nodes[i].queue != [] && v.nodes[i].cursor == v.parts[i].end
  {
    hide Tiled;
    assert NodeOk(v.parts[i], v.nodes[i]);
  }

  lemma TiledBounds(parts: seq<Part>)
    requires Tiled(parts) && parts != []
    ensures parts[|parts| - 1].start <= parts[|parts| - 1].end <= MAX_INODE
  {
  }

  lemma ApplyKeeps(v: Vol, i: nat)
    requires Inv(v) && i < |v.nodes|
    ensures Inv(Apply(v, i))
  {
    hide Tiled;
    var n := v.nodes[i];
    if n.queue != [] {
      var n' := Node(n.cursor, n.queue[0], n.queue[1..]);
      assert NodeOk(v.parts[i], n);
      assert NodeOk(v.parts[i], n');
    }
  }

  lemma ReportKeeps(v: Vol, m: nat, enough: bool, o: Outcome)
    requires Inv(v) && Enabled(v, Report(m, enough, o)) && !Disowns(v, Report(m, enough, o))
    ensures Inv(Reported(v, m, enough, o))
  {
    hide Tiled, EndUpdated, NodeOk;
    var p := v.parts[|v.parts| - 1];
    var base := if m <= 0 then p.start else m;
    if p.end == MAX_INODE && enough { EndKeeps(v, base + STEP, o); }
  }

  lemma EndKeeps(v: Vol, end: nat, o: Outcome)
    requires Inv(v) && v.parts != [] && (GoesThrough(end, o) ==> v.nodes[|v.nodes| - 1].cursor <= end)
    ensures Inv(EndUpdated(v, end, o))
  {
    hide Tiled, EndUpdated;
    assert NodeOk(v.parts[|v.parts| - 1], v.nodes[|v.nodes| - 1]);
    UpdateEndTiles(v, end, o);
    SplitNodes(v, end, o);
  }

  /** A node that is told a new end, and the node of the partition created after it. */
  lemma QueuedOk(p: Part, n: Node, end: nat, id: nat)
    requires NodeOk(p, n) && n.cursor <= end <= MAX_INODE - STEP
    ensures NodeOk(p.(end := end), n.(queue := n.queue + [end]))
    ensures NodeOk(Part(id, end + 1, MAX_INODE), Node(end + 1, MAX_INODE, []))
  {
  }

  lemma SplitNodes(v: Vol, end: nat, o: Outcome)
    requires v.parts != [] && |v.nodes| == |v.parts|
    requires GoesThrough(end, o) ==> v.nodes[|v.nodes| - 1].cursor <= end
    requires forall i :: 0 <= i < |v.parts| ==> NodeOk(v.parts[i], v.nodes[i])
    ensures var v' := EndUpdated(v, end, o);
      |v'.nodes| == |v'.parts| && forall i :: 0 <= i < |v'.parts| ==> NodeOk(v'.parts[i], v'.nodes[i])
  {
    hide NodeOk;
    var n := |v.parts| - 1;
    var v' := EndUpdated(v, end, o);
    if GoesThrough(end, o) {
      QueuedOk(v.parts[n], v.nodes[n], end, v.lastId + 1);
      forall i | 0 <= i < |v'.parts| ensures NodeOk(v'.parts[i], v'.nodes[i]) {
        if i < n { assert NodeOk(v.parts[i], v.nodes[i]); }
      }
    }
  }

  /** All runs, with whatever failures and splits. */
  ghost predicate Reaches(v: Vol, es: seq<Event>, w: Vol)
    requires |v.nodes| == |v.parts|
    decreases |es|
  {
    if es == [] then v == w
    else
      && Enabled(v, es[0])
      && var v' := Step(v, es[0]); |v'.nodes| == |v'.parts| && Reaches(v', es[1..], w)
  }

  ghost predicate NoneDisowns(v: Vol, es: seq<Event>, w: Vol)
    requires |v.nodes| == |v.parts| && Reaches(v, es, w)
    decreases |es|
  {
    es != [] ==> !Disowns(v, es[0]) && NoneDisowns(Step(v, es[0]), es[1..], w)
  }

  /** In all states of the run. */
  ghost predicate AlwaysOwned(v: Vol, es: seq<Event>, w: Vol)
    requires |v.nodes| == |v.parts| && Reaches(v, es, w)
    decreases |es|
  {
    Inv(v) && (es != [] ==> AlwaysOwned(Step(v, es[0]), es[1..], w))
  }

  /** Over every run with any step failing: all along, the ranges tile the id space and every id that
      a partition ever handed out lies in its own range and in no other, if and only if no split goes
      below the cursor and no id is handed out past an end that is on its way. */
  lemma {:induction false} EveryRunOwns(v: Vol, es: seq<Event>, w: Vol)
    requires Inv(v) && Reaches(v, es, w)
    ensures AlwaysOwned(v, es, w) <==> NoneDisowns(v, es, w)
    ensures NoneDisowns(v, es, w) ==> Inv(w)
    decreases |es|
  {
    hide Tiled, NodeOk, Step, Disowns;
    if es != [] {
      StepKeepsExactly(v, es[0]);
      if !Disowns(v, es[0]) { EveryRunOwns(Step(v, es[0]), es[1..], w); }
    }
  }

  /** The ids that partition i has handed out. */
  ghost predicate HandedOut(v: Vol, i: nat, ino: nat)
    requires i < |v.parts| == |v.nodes|
  {
    v.parts[i].start < ino <= v.nodes[i].cursor
  }

  lemma OneOwner(v: Vol, i: nat, ino: nat)
    requires Inv(v) && i < |v.parts| && HandedOut(v, i, ino)
    ensures v.parts[i].start <= ino <= v.parts[i].end
    ensures forall j :: 0 <= j < |v.parts| && j != i ==>
      !(v.parts[j].start <= ino <= v.parts[j].end) && !HandedOut(v, j, ino)
  {
    assert NodeOk(v.parts[i], v.nodes[i]);
    forall j | 0 <= j < |v.parts| && j != i
      ensures !(v.parts[j].start <= ino <= v.parts[j].end) && !HandedOut(v, j, ino)
    {
      if j < i { StartsIncrease(v.parts, j, i); } else { StartsIncrease(v.parts, i, j); }
      assert NodeOk(v.parts[j], v.nodes[j]);
    }
  }

  /** Some id that partition i handed out lies past its range. */
  ghost predicate Lost(v: Vol, i: nat)
    requires i < |v.parts| == |v.nodes|
  {
    exists ino: nat :: HandedOut(v, i, ino) && ino > v.parts[i].end
  }

  /** A split at or after the start, on a report or by hand, disowns an id if and only if the cursor is
      above the new end. */
  lemma SplitDisownsExactly(v: Vol, end: nat, o: Outcome)
    requires Inv(v) && v.parts != [] && GoesThrough(end, o) && v.parts[|v.parts| - 1].start <= end
    ensures Lost(EndUpdated(v, end, o), |v.parts| - 1) <==> v.nodes[|v.parts| - 1].cursor > end
  {
    hide Tiled;
    var n, w := |v.parts| - 1, EndUpdated(v, end, o);
    assert w.parts[n].start == v.parts[n].start && w.nodes[n].cursor == v.nodes[n].cursor;
    if w.nodes[n].cursor > w.parts[n].end { assert HandedOut(w, n, w.nodes[n].cursor); }
  }

  /** On a report that is more than 2^24 ids handed out since the reported cursor. */
  lemma SplitOwnsExactly(v: Vol, m: nat, o: Outcome)
    requires Inv(v) && v.parts != [] && (m == 0 || v.parts[|v.parts| - 1].start <= m)
    requires v.parts[|v.parts| - 1].end == MAX_INODE && Reported(v, m, true, o) != v
    ensures var n := |v.parts| - 1;
      Lost(Reported(v, m, true, o), n) <==> v.nodes[n].cursor - (if m == 0 then v.parts[n].start else m) > STEP
  {
    hide Tiled, Lost, NodeOk;
    SplitDisownsExactly(v, (if m == 0 then v.parts[|v.parts| - 1].start else m) + STEP, o);
  }

  /** By hand there is no such margin: a partition that last reported 100 and has handed out 200 is
      split at 100, and id 150 is in the range of the next one. */
  lemma ManualSplitDisowns()
    ensures var v := Vol([Part(1, 0, MAX_INODE)], [Node(200, MAX_INODE, [])], 1);
      var w := ManuallySplit(v, 100, 100, Done);
      && Inv(v) && Tiled(w.parts) && |w.parts| == |w.nodes| == 2
      && HandedOut(w, 0, 150) && !(w.parts[0].start <= 150 <= w.parts[0].end) &&
         w.parts[1].start <= 150 <= w.parts[1].end
  {
  }

  /** checkEnd closes the gap a failed creation leaves. */
  lemma CheckEndCloses(v: Vol)
    requires Tiled(v.parts) && v.parts != []
    ensures Tiled(EndChecked(v, true).parts) && EndChecked(v, true).parts[|v.parts| - 1].end == MAX_INODE
    ensures AllCovered(EndChecked(v, true).parts)
  {
    var w := EndChecked(v, true);
    assert w.parts != [];
    EndTilesOnly(v.parts, MAX_INODE);
    forall ino: nat | ino <= MAX_INODE ensures Covered(w.parts, ino) { var i := RangeFor(w.parts, ino); }
  }

  ghost predicate AllCovered(parts: seq<Part>) {
    forall ino: nat :: ino <= MAX_INODE ==> Covered(parts, ino)
  }

  ghost predicate Covered(parts: seq<Part>, ino: nat) {
    exists i :: 0 <= i < |parts| && parts[i].start <= ino <= parts[i].end
  }

  lemma EndTilesOnly(parts: seq<Part>, end: nat)
    requires Tiled(parts) && parts != [] && parts[|parts| - 1].start <= end <= MAX_INODE
    ensures Tiled(parts[|parts| - 1 := parts[|parts| - 1].(end := end)])
  {
    var w, n := parts[|parts| - 1 := parts[|parts| - 1].(end := end)], |parts| - 1;
    forall i | 0 < i < |w| ensures w[i - 1].end + 1 == w[i].start && w[i - 1].id < w[i].id {
      assert w[i].start == parts[i].start && w[i - 1] == parts[i - 1];
    }
  }

  // ----- what each step leaves -----

  /** The last partition of v has been closed at end and the next one opened: w has one partition more,
      with a new id, from there to the largest id, and a metanode that has handed out nothing. */
  ghost predicate SplitOff(v: Vol, end: nat, w: Vol)
    requires v.parts != [] && |v.nodes| == |v.parts|
  {
    var n := |v.parts| - 1;
    && |w.parts| == |w.nodes| == |v.parts| + 1
    && (forall i :: 0 <= i < n ==> w.parts[i] == v.parts[i] && w.nodes[i] == v.nodes[i])
    && w.parts[n].id == v.parts[n].id && w.parts[n].start == v.parts[n].start && w.parts[n].end == end
    && w.nodes[n].cursor == v.nodes[n].cursor && w.nodes[n].end == v.nodes[n].end
    && w.nodes[n].queue == v.nodes[n].queue + [end]
    && w.parts[n + 1].start == end + 1 && w.parts[n + 1].end == MAX_INODE
    && (forall i :: 0 <= i <= n ==> v.parts[i].id < w.parts[n + 1].id)
    && w.nodes[n + 1].cursor == end + 1 && w.nodes[n + 1].end == MAX_INODE && w.nodes[n + 1].queue == []
  }

  /** A report splits the last partition at 2^24 past the reported id, or past its start, exactly while
      its end is open, enough ids are used and the new end leaves room. When all steps succeed the next
      partition follows, and every id has a partition. */
  lemma ReportSplits(v: Vol, m: nat, enough: bool, o: Outcome)
    requires Tiled(v.parts) && IdsBelow(v) && v.parts != [] && (m == 0 || v.parts[|v.parts| - 1].start <= m)
    ensures var p := v.parts[|v.parts| - 1];
      var end := (if m == 0 then p.start else m) + 0x100_0000;
      var w := Reported(v, m, enough, o);
      if p.end < MAX_INODE || !enough || end + 0x100_0000 > MAX_INODE || o.NoLeader? || o.NotSubmitted? then w == v
      else if o.Done? then SplitOff(v, end, w) && AllCovered(w.parts)
      else ClosedAt(v, end, w)
  {
    hide EndUpdated;
    var p := v.parts[|v.parts| - 1];
    EndUpdatedSplits(v, (if m == 0 then p.start else m) + STEP, o);
  }

  /** A split by hand does the same at the given end, for any end not below what the master knows. */
  lemma ManualSplits(v: Vol, end: nat, known: nat, o: Outcome)
    requires Tiled(v.parts) && IdsBelow(v) && v.parts != []
    ensures var w := ManuallySplit(v, end, known, o);
      if end < known || end + 0x100_0000 > MAX_INODE || o.NoLeader? || o.NotSubmitted? then w == v
      else if o.Done? then SplitOff(v, end, w) && (v.parts[|v.parts| - 1].start <= end ==> AllCovered(w.parts))
      else ClosedAt(v, end, w)
  {
    hide EndUpdated;
    EndUpdatedSplits(v, end, o);
  }

  /** Only the end has changed, and the metanode will be told; at most an id is used up. */
  ghost predicate ClosedAt(v: Vol, end: nat, w: Vol)
    requires v.parts != [] && |v.nodes| == |v.parts|
  {
    var n := |v.parts| - 1;
    && |w.parts| == |w.nodes| == |v.parts| && v.lastId <= w.lastId <= v.lastId + 1
    && (forall i :: 0 <= i < n ==> w.parts[i] == v.parts[i] && w.nodes[i] == v.nodes[i])
    && w.parts[n].id == v.parts[n].id && w.parts[n].start == v.parts[n].start && w.parts[n].end == end
    && w.nodes[n].cursor == v.nodes[n].cursor && w.nodes[n].end == v.nodes[n].end
    && w.nodes[n].queue == v.nodes[n].queue + [end]
  }

  lemma EndUpdatedSplits(v: Vol, end: nat, o: Outcome)
    requires Tiled(v.parts) && IdsBelow(v) && v.parts != []
    ensures var w := EndUpdated(v, end, o);
      if end + STEP > MAX_INODE || o.NoLeader? || o.NotSubmitted? then w == v
      else if o.Done? then SplitOff(v, end, w) && (v.parts[|v.parts| - 1].start <= end ==> AllCovered(w.parts))
      else ClosedAt(v, end, w)
  {
    var w := EndUpdated(v, end, o);
    if end + STEP <= MAX_INODE && o.Done? && v.parts[|v.parts| - 1].start <= end {
      UpdateEndTiles(v, end, o);
      forall ino: nat | ino <= MAX_INODE ensures Covered(w.parts, ino) { var i := RangeFor(w.parts, ino); }
    }
  }

  /** A new volume gets one partition for all ids. */
  lemma FirstCovers(v: Vol, o: Outcome)
    requires v.parts == [] && v.nodes == []
    ensures var w := CreateVol(v, o);
      if o.Done?
      then |w.parts| == 1 && w.parts[0].start == 0 && w.parts[0].end == MAX_INODE && w.nodes == [Node(0, MAX_INODE, [])]
      else w.parts == [] && w.nodes == []
  {
  }

  /** A metanode hands out the id after its cursor, which nobody had, exactly while it is below the end
      it knows; nothing else changes. */
  lemma AllocHandsOut(v: Vol, i: nat)
    requires |v.nodes| == |v.parts| && i < |v.nodes| && v.parts[i].start <= v.nodes[i].cursor
    ensures var w, ino := Alloc(v, i), v.nodes[i].cursor + 1;
      if v.nodes[i].cursor < v.nodes[i].end
      then |w.nodes| == |v.nodes| && w.parts == v.parts && HandedOut(w, i, ino) && !HandedOut(v, i, ino)
        && w.nodes[i].end == v.nodes[i].end && w.nodes[i].queue == v.nodes[i].queue
        && (forall x :: x != ino ==> (HandedOut(w, i, x) <==> HandedOut(v, i, x)))
        && (forall j :: 0 <= j < |v.nodes| && j != i ==> w.nodes[j] == v.nodes[j])
      else w == v
  {
  }

  /** New ends arrive in the order they were sent; the last one is the end that counts. */
  lemma {:induction false} AppliesInOrder(v: Vol, i: nat, k: nat)
    requires i < |v.nodes| && k <= |v.nodes[i].queue|
    ensures var w := Applied(v, i, k);
      && |w.nodes| == |v.nodes| && w.parts == v.parts && w.nodes[i].cursor == v.nodes[i].cursor
      && w.nodes[i].queue == v.nodes[i].queue[k..]
      && w.nodes[i].end == (if k == 0 then v.nodes[i].end else v.nodes[i].queue[k - 1])
      && (forall j :: 0 <= j < |v.nodes| && j != i ==> w.nodes[j] == v.nodes[j])
      && Effective(w.nodes[i]) == Effective(v.nodes[i])
  {
    if k > 0 { AppliesInOrder(v, i, k - 1); }
  }

  /** After k of the outstanding updates. */
  function Applied(v: Vol, i: nat, k: nat): (w: Vol)
    requires i < |v.nodes|
    ensures |w.nodes| == |v.nodes|
  {
    if k == 0 then v else Apply(Applied(v, i, k - 1), i)
  }

  // ----- the master's code -----

  class Volume {
    var parts: seq<Part>
    var nodes: seq<Node>
    var lastId: nat

    constructor ()
      ensures View() == Vol([], [], 0) && Inv(View())
    {
      parts, nodes, lastId := [], [], 0;
    }

    ghost function View(): Vol
      reads this
    {
      Vol(parts, nodes, lastId)
    }

    /** getMaxPartitionID. */
    method MaxPartitionId() returns (id: nat)
      requires Tiled(parts)
      ensures id == if parts == [] then 0 else parts[|parts| - 1].id
    {
      id := 0;
      var i := 0;
      while i < |parts|
        invariant i <= |parts| && id == if i == 0 then 0 else parts[i - 1].id
      {
        if parts[i].id > id { id := parts[i].id; }
        i := i + 1;
      }
    }

    /** CreateMetaPartition: choosing hosts, taking an id and submitting may each fail. */
    method CreateMetaPartition(start: nat, hosts: bool, idOk: bool, submit: bool) returns (ok: bool)
      requires |nodes| == |parts|
      modifies this
      ensures ok == (hosts && idOk && submit)
      ensures View() == Create(old(View()), start, if ok then Done else NotCreated(hosts))
    {
      if !hosts { return false; }
      lastId := lastId + 1;
      if !idOk || !submit { return false; }
      parts := parts + [Part(lastId, start, MAX_INODE)];
      nodes := nodes + [Node(start, MAX_INODE, [])];
      return true;
    }

    /** MetaPartition.UpdateEnd on the last partition, with its roll-backs. */
    method UpdateEnd(end: nat, leader: bool, submit: bool, hosts: bool, idOk: bool, created: bool)
      requires parts != [] && |nodes| == |parts|
      modifies this
      ensures View() == EndUpdated(old(View()), end,
        if !leader then NoLeader else if !submit then NotSubmitted
        else if hosts && idOk && created then Done else NotCreated(hosts))
    {
      if end > MAX_INODE - STEP { return; }
      var n := |parts| - 1;
      var oldEnd := parts[n].end;
      parts := parts[n := parts[n].(end := end)];
      if !leader {
        parts := parts[n := parts[n].(end := oldEnd)];
        assert parts == old(parts);
        return;
      }
      if !submit {
        parts := parts[n := parts[n].(end := oldEnd)];
        assert parts == old(parts);
        return;
      }
      nodes := nodes[n := nodes[n].(queue := nodes[n].queue + [end])];
      var ok := CreateMetaPartition(parts[n].end + 1, hosts, idOk, created);
    }

    /** Cluster.updateEnd for partition id, on a report. */
    method OnReport(id: nat, maxInode: nat, threshold: bool, enough: bool, leader: bool, submit: bool, hosts: bool,
        idOk: bool, created: bool)
      requires parts != [] && |nodes| == |parts| && Tiled(parts)
      modifies this
      ensures View() == if !threshold || !leader || id < old(parts[|parts| - 1].id) then old(View()) else
        Reported(old(View()), maxInode, enough,
          if !submit then NotSubmitted else if hosts && idOk && created then Done else NotCreated(hosts))
    {
      if !threshold || !leader { return; }
      var max := MaxPartitionId();
      if id < max { return; }
      var p := parts[|parts| - 1];
      if p.end == MAX_INODE && enough {
        var base := if maxInode <= 0 then p.start else maxInode;
        UpdateEnd(base + STEP, leader, submit, hosts, idOk, created);
      }
    }

    /** CreateMetaPartitionForManual, as one step. */
    method SplitManually(end: nat, known: nat, leader: bool, submit: bool, hosts: bool, idOk: bool, created: bool)
      requires parts != [] && |nodes| == |parts|
      modifies this
      ensures View() == ManuallySplit(old(View()), end, known,
        if !leader then NoLeader else if !submit then NotSubmitted
        else if hosts && idOk && created then Done else NotCreated(hosts))
      ensures old(Inv(View())) ==>
        (Inv(View()) <==>
          !(known <= end < old(nodes[|nodes| - 1].cursor) && end <= MAX_INODE - STEP && leader && submit))
    {
      hide NodeOk, Tiled;
      ghost var o := if !leader then NoLeader else if !submit then NotSubmitted
                     else if hosts && idOk && created then Done else NotCreated(hosts);
      if Inv(View()) { StepKeepsExactly(View(), Manual(end, known, o)); }
      if end < known || !leader { return; }
      UpdateEnd(end, leader, submit, hosts, idOk, created);
    }

    /** MetaPartition.checkEnd for partition id. */
    method CheckEnd(id: nat, submit: bool)
      requires parts != [] && Tiled(parts)
      modifies this
      ensures View() == if id == old(parts[|parts| - 1].id) then EndChecked(old(View()), submit) else old(View())
    {
      var max := MaxPartitionId();
      if id != max { return; }
      var n := |parts| - 1;
      if parts[n].end != MAX_INODE {
        var oldEnd := parts[n].end;
        parts := parts[n := parts[n].(end := MAX_INODE)];
        if !submit { parts := parts[n := parts[n].(end := oldEnd)]; }
      }
      assert submit || parts == old(parts);
      assert submit ==> parts == old(parts)[n := old(parts)[n].(end := MAX_INODE)];
    }
  }
}
