/** Any number of trees over shared nodes and shared free lists, written in any order: each one
    behaves as a sorted list of its own. */
module BTreeClones {
  import opened Orders
  import opened BTreeModel
  import opened BTreeHeap
  import opened BTreeHeapRemoval
  import opened BTreeHeapTree
  import M = BTreeMap

  ghost function Reach<T(!new)>(t: HeapTree<T>): set<object>
    reads t, t.cow.freelist
  {
    {t, t.cow.freelist} + t.live + t.cow.freelist.Nodes()
  }

  /** Everything the trees may write. */
  ghost function Footprint<T(!new)>(ts: seq<HeapTree<T>>): set<object>
    reads ts, set t | t in ts :: t.cow.freelist
  {
    set j, o: object | 0 <= j < |ts| && o in Reach(ts[j]) :: o
  }

  ghost predicate TreeOk<T(!new)>(lt: Less<T>, t: HeapTree<T>)
    reads t, t.live, t.cow.freelist, t.cow.freelist.nodes
  {
    M.Valid(lt, t.Model()) && t.Rooted() && t.cow.freelist.Valid() && t.live !! t.cow.freelist.Nodes()
  }

  /** A free list holds no node of the other tree, different lists share nothing, and a node that
      t's context owns is not live in u. */
  ghost predicate Beside<T(!new)>(t: HeapTree<T>, u: HeapTree<T>)
    reads t, t.live, t.cow.freelist, u, u.live, u.cow.freelist
  {
    && t != u && t.cow != u.cow
    && t.live !! u.cow.freelist.Nodes()
    && (t.cow.freelist == u.cow.freelist || t.cow.freelist.Nodes() !! u.cow.freelist.Nodes())
    && (forall m :: m in u.live ==> m.cow != t.cow)
  }

  ghost predicate World<T(!new)>(lt: Less<T>, ts: seq<HeapTree<T>>)
    reads *
  {
    && (forall j :: 0 <= j < |ts| ==> TreeOk(lt, ts[j]))
    && (forall j, l :: 0 <= j < |ts| && 0 <= l < |ts| && j != l ==> Beside(ts[j], ts[l]))
  }

  /** What tree i must not write: the live nodes of the others, and the lists of others. */
  ghost function Rest<T(!new)>(ts: seq<HeapTree<T>>, i: nat): set<HeapNode<T>>
    requires i < |ts|
    reads ts, set t | t in ts :: t.cow.freelist
  {
    (set j, m | 0 <= j < |ts| && j != i && m in ts[j].live :: m)
    + (set j, m | 0 <= j < |ts| && ts[j].cow.freelist != ts[i].cow.freelist && m in ts[j].cow.freelist.Nodes() :: m)
  }

  lemma WorldApart<T(!new)>(lt: Less<T>, ts: seq<HeapTree<T>>, i: nat)
    requires World(lt, ts) && i < |ts|
    ensures ts[i].Apart(Rest(ts, i)) && TreeOk(lt, ts[i])
    ensures Reach(ts[i]) <= Footprint(ts)
    ensures forall j :: 0 <= j < |ts| && j != i ==> ts[j] != ts[i]
  {
    hide M.Valid, HoldsIn;
  }

  /** Tree i was written and kept to itself; nothing of the rest of the world changed. */
  twostate predicate OnlyTree<T(!new)>(lt: Less<T>, ts: seq<HeapTree<T>>, i: nat)
    requires i < |ts|
    reads *
  {
    && old(World(lt, ts))
    && TreeOk(lt, ts[i]) && ts[i].Apart(old(Rest(ts, i))) && ts[i].Steps(old(Rest(ts, i)))
    && (forall j :: 0 <= j < |ts| && j != i ==> unchanged(ts[j]))
    && (forall j :: 0 <= j < |ts| && old(ts[j].cow.freelist) != old(ts[i].cow.freelist) ==>
       unchanged(old(ts[j].cow.freelist)))
    && (forall m :: m in old(Rest(ts, i)) ==> unchanged(m))
  }

  twostate lemma OtherOk<T(!new)>(new lt: Less<T>, ts: seq<HeapTree<T>>, new i: nat, new j: nat)
    requires i < |ts| && j < |ts| && i != j && OnlyTree(lt, ts, i)
    ensures TreeOk(lt, ts[j]) && ts[j].Model() == old(ts[j].Model())
    ensures Beside(ts[i], ts[j]) && Beside(ts[j], ts[i])
    ensures forall o :: o in Reach(ts[j]) ==> fresh(o) || o in old(Reach(ts[i])) || o in old(Reach(ts[j]))
  {
    hide M.Valid, HoldsIn;
    assert old(Beside(ts[i], ts[j])) && old(Beside(ts[j], ts[i])) && old(TreeOk(lt, ts[j]));
    assert old(ts[j].live) <= old(Rest(ts, i));
    var f := old(ts[j].cow.freelist);
    if f != old(ts[i].cow.freelist) {
      assert old(f.Nodes()) <= old(Rest(ts, i));
      forall l | 0 <= l < |f.nodes| ensures unchanged(f.nodes[l]) { assert f.nodes[l] in old(f.Nodes()); }
      assert f.Valid();
    }
  }

  twostate lemma WorldStep<T(!new)>(new lt: Less<T>, ts: seq<HeapTree<T>>, new i: nat)
    requires i < |ts| && OnlyTree(lt, ts, i)
    ensures World(lt, ts)
    ensures forall o :: o in Footprint(ts) ==> fresh(o) || o in old(Footprint(ts))
    ensures forall j :: 0 <= j < |ts| && j != i ==> ts[j].Model() == old(ts[j].Model())
  {
    hide TreeOk, Beside;
    forall j | 0 <= j < |ts| && j != i
      ensures TreeOk(lt, ts[j]) && ts[j].Model() == old(ts[j].Model())
      ensures Beside(ts[i], ts[j]) && Beside(ts[j], ts[i])
    {
      OtherOk(lt, ts, i, j);
    }
    forall j, l | 0 <= j < |ts| && 0 <= l < |ts| && j != l ensures Beside(ts[j], ts[l]) {
      if j != i && l != i { OthersBeside(lt, ts, i, j, l); }
    }
    forall o | o in Footprint(ts) ensures fresh(o) || o in old(Footprint(ts)) {
      var j :| 0 <= j < |ts| && o in Reach(ts[j]);
      if j != i { OtherOk(lt, ts, i, j); }
      assert fresh(o) || o in old(Reach(ts[i])) || o in old(Reach(ts[j])) by {
        if j == i && !fresh(o) { assert o in old(Reach(ts[i])); }
      }
      assert old(Reach(ts[j]) <= Footprint(ts)) && old(Reach(ts[i]) <= Footprint(ts));
    }
  }

  twostate lemma OthersBeside<T(!new)>(new lt: Less<T>, ts: seq<HeapTree<T>>, new i: nat, new j: nat, new l: nat)
    requires i < |ts| && j < |ts| && l < |ts| && i != j && i != l && j != l && OnlyTree(lt, ts, i)
    ensures Beside(ts[j], ts[l])
  {
    hide M.Valid, HoldsIn;
    assert old(Beside(ts[j], ts[l])) && old(Beside(ts[i], ts[j])) && old(Beside(ts[i], ts[l]));
    assert old(ts[j].live) <= old(Rest(ts, i)) && old(ts[l].live) <= old(Rest(ts, i));
    OtherOk(lt, ts, i, j);
    OtherOk(lt, ts, i, l);
  }

  method PutInto<T(!new)>(lt: Less<T>, ts: seq<HeapTree<T>>, i: nat, x: T) returns (out: Option<T>)
    requires StrictWeak(lt) && World(lt, ts) && i < |ts|
    modifies Footprint(ts)
    ensures OnlyTree(lt, ts, i)
    ensures M.Valid(lt, old(ts[i].Model())) &&
      M.Outcome(ts[i].Model(), out) == M.ReplaceOrInsert(lt, old(ts[i].Model()), x)
  {
    hide M.Valid, HoldsIn, StrictWeak, M.ReplaceOrInsert, World, Footprint;
    WorldApart(lt, ts, i);
    M.ReplaceOrInsertRefines(lt, ts[i].Model(), x);
    out := ts[i].ReplaceOrInsert(lt, x, Rest(ts, i));
  }

  method DeleteFrom<T(!new)>(lt: Less<T>, ts: seq<HeapTree<T>>, i: nat, typ: Removal<T>) returns (out: Option<T>)
    requires StrictWeak(lt) && World(lt, ts) && i < |ts|
    modifies Footprint(ts)
    ensures OnlyTree(lt, ts, i)
    ensures M.Valid(lt, old(ts[i].Model())) &&
      M.Outcome(ts[i].Model(), out) == M.DeleteItem(lt, old(ts[i].Model()), typ)
  {
    hide M.Valid, HoldsIn, StrictWeak, M.DeleteItem, World, Footprint, Kept, Spent, CountedMore;
    WorldApart(lt, ts, i);
    M.DeleteItemRefines(lt, ts[i].Model(), typ);
    out := ts[i].DeleteItem(lt, typ, Rest(ts, i));
  }

  method WipeTree<T(!new)>(lt: Less<T>, ts: seq<HeapTree<T>>, i: nat, addNodes: bool)
    requires StrictWeak(lt) && World(lt, ts) && i < |ts|
    modifies Footprint(ts)
    ensures OnlyTree(lt, ts, i)
    ensures M.Items(ts[i].Model()) == []
  {
    hide HoldsIn, StrictWeak, World, Footprint;
    WorldApart(lt, ts, i);
    ts[i].Clear(lt, addNodes, Rest(ts, i));
  }

  /** t goes where u stands in the world, under a context that owns nothing yet. */
  ghost predicate StandsIn<T(!new)>(t: HeapTree<T>, live: set<HeapNode<T>>, f: FreeList<T>)
    reads t
  {
    t.live == live && t.cow.freelist == f
  }

  lemma StandInBeside<T(!new)>(t: HeapTree<T>, u: HeapTree<T>, live: set<HeapNode<T>>, f: FreeList<T>)
    requires StandsIn(t, live, f) && t != u && t.cow != u.cow
    requires live !! u.cow.freelist.Nodes() && u.live !! f.Nodes() &&
      (f == u.cow.freelist || f.Nodes() !! u.cow.freelist.Nodes())
    requires forall m :: m in live + u.live ==> m.cow != t.cow
    requires forall m :: m in live ==> m.cow != u.cow
    ensures Beside(t, u) && Beside(u, t)
  {
  }

  /** A tree t joins the world. */
  lemma Join<T(!new)>(lt: Less<T>, ts: seq<HeapTree<T>>, t: HeapTree<T>)
    requires World(lt, ts) && TreeOk(lt, t)
    requires forall j :: 0 <= j < |ts| ==> Beside(ts[j], t) && Beside(t, ts[j])
    ensures World(lt, ts + [t])
    ensures Footprint(ts + [t]) <= Footprint(ts) + Reach(t)
  {
    hide TreeOk, Beside, Reach;
    forall o | o in Footprint(ts + [t]) ensures o in Footprint(ts) + Reach(t) {
      var j :| 0 <= j <= |ts| && o in Reach((ts + [t])[j]);
      if j < |ts| { assert (ts + [t])[j] == ts[j]; }
    }
  }

  /** A new context for tree i: it owns nothing, so the world stays sound. */
  method Recontext<T(!new)>(lt: Less<T>, ts: seq<HeapTree<T>>, i: nat) returns (t2: HeapTree<T>)
    requires World(lt, ts) && i < |ts|
    modifies ts[i]
    ensures World(lt, ts) && Footprint(ts) == old(Footprint(ts))
    ensures fresh(t2) && t2.live == ts[i].live && t2.cow.freelist == ts[i].cow.freelist && fresh(t2.cow) &&
      TreeOk(lt, t2)
    ensures t2.cow != ts[i].cow && fresh(ts[i].cow) && Mine(ts[i].cow, ts[i].live) == {}
    ensures forall j :: 0 <= j < |ts| ==> Mine(t2.cow, ts[j].live) == {} && ts[j].cow != t2.cow
    ensures ts[i].Model() == old(ts[i].Model()) && t2.Model() == old(ts[i].Model())
    ensures forall j :: 0 <= j < |ts| && j != i ==> unchanged(ts[j])
  {
    hide M.Valid, HoldsIn, Footprint, World, Rest;
    WorldApart(lt, ts, i);
    WorldFacts(lt, ts);
    ghost var live, f := ts[i].live, ts[i].cow.freelist;
    t2 := ts[i].Clone();
    assert TreeOk(lt, ts[i]) && TreeOk(lt, t2);
    forall j | 0 <= j < |ts| && j != i ensures TreeOk(lt, ts[j]) && Beside(ts[i], ts[j]) && Beside(ts[j], ts[i]) {
      assert old(Beside(ts[i], ts[j]) && Beside(ts[j], ts[i]) && TreeOk(lt, ts[j]));
      StandInBeside(ts[i], ts[j], live, f);
    }
    forall j, l | 0 <= j < |ts| && 0 <= l < |ts| && j != l && j != i && l != i ensures Beside(ts[j], ts[l]) {
      assert old(Beside(ts[j], ts[l]));
    }
    SameFootprint(ts);
    WorldFrom(lt, ts);
  }

  lemma WorldFacts<T(!new)>(lt: Less<T>, ts: seq<HeapTree<T>>)
    requires World(lt, ts)
    ensures forall j :: 0 <= j < |ts| ==> TreeOk(lt, ts[j])
    ensures forall j, l :: 0 <= j < |ts| && 0 <= l < |ts| && j != l ==> Beside(ts[j], ts[l])
  {
  }

  lemma WorldFrom<T(!new)>(lt: Less<T>, ts: seq<HeapTree<T>>)
    requires forall j :: 0 <= j < |ts| ==> TreeOk(lt, ts[j])
    requires forall j, l :: 0 <= j < |ts| && 0 <= l < |ts| && j != l ==> Beside(ts[j], ts[l])
    ensures World(lt, ts)
  {
  }

  twostate lemma SameFootprint<T(!new)>(ts: seq<HeapTree<T>>)
    requires forall j :: 0 <= j < |ts| ==> Reach(ts[j]) == old(Reach(ts[j]))
    ensures Footprint(ts) == old(Footprint(ts))
  {
  }

  /** Clone of tree i, added at the end. */
  method ForkTree<T(!new)>(lt: Less<T>, ts: seq<HeapTree<T>>, i: nat) returns (ts': seq<HeapTree<T>>)
    requires World(lt, ts) && i < |ts|
    modifies Footprint(ts)
    ensures |ts'| == |ts| + 1 && ts'[..|ts|] == ts
    ensures World(lt, ts') && forall o :: o in Footprint(ts') ==> fresh(o) || o in old(Footprint(ts))
    ensures forall j :: 0 <= j < |ts| ==> ts[j].Model() == old(ts[j].Model())
    ensures ts'[|ts|].Model() == old(ts[i].Model())
  {
    hide M.Valid, HoldsIn, Footprint;
    WorldApart(lt, ts, i);
    var t2 := Recontext(lt, ts, i);
    forall j | 0 <= j < |ts| ensures Beside(ts[j], t2) && Beside(t2, ts[j]) {
      assert j != i ==> Beside(ts[j], ts[i]) && Beside(ts[i], ts[j]);
      assert TreeOk(lt, ts[i]) && Mine(t2.cow, ts[j].live) == {} && Mine(t2.cow, ts[i].live) == {};
      forall m | m in ts[i].live + ts[j].live
        ensures m.cow != t2.cow
      {
        assert m !in Mine(t2.cow, ts[j].live) && m !in Mine(t2.cow, ts[i].live);
      }
      forall m | m in ts[i].live ensures m.cow != ts[j].cow { assert m !in Mine(ts[i].cow, ts[i].live); }
      StandInBeside(t2, ts[j], ts[i].live, ts[i].cow.freelist);
    }
    ts' := ts + [t2];
    Join(lt, ts, t2);
    WorldApart(lt, ts, i);
  }

  /** A new empty tree on the free list of tree i, added at the end. */
  method PlantTree<T(!new)>(lt: Less<T>, ts: seq<HeapTree<T>>, i: nat, degree: nat) returns (ts': seq<HeapTree<T>>)
    requires World(lt, ts) && i < |ts| && degree >= 2
    ensures |ts'| == |ts| + 1 && ts'[..|ts|] == ts
    ensures World(lt, ts') && forall o :: o in Footprint(ts') ==> fresh(o) || o in old(Footprint(ts))
    ensures forall j :: 0 <= j < |ts| ==> ts[j].Model() == old(ts[j].Model())
    ensures ts'[|ts|].Model() == M.New<T>(degree)
  {
    hide HoldsIn, Footprint;
    WorldApart(lt, ts, i);
    var t := new HeapTree<T>(degree, ts[i].cow.freelist);
    forall j | 0 <= j < |ts| ensures Beside(ts[j], t) && Beside(t, ts[j]) && TreeOk(lt, ts[j]) {
      assert j != i ==> old(Beside(ts[j], ts[i]) && Beside(ts[i], ts[j]));
      assert old(TreeOk(lt, ts[i]) && TreeOk(lt, ts[j]));
      StandInBeside(t, ts[j], {}, ts[i].cow.freelist);
    }
    forall j, l | 0 <= j < |ts| && 0 <= l < |ts| && j != l
      ensures Beside(ts[j], ts[l])
    {
      assert old(Beside(ts[j], ts[l]));
    }
    ts' := ts + [t];
    Join(lt, ts, t);
    SameFootprint(ts);
    WorldApart(lt, ts, i);
  }

  // ----- every schedule -----

  datatype Act<T> =
    | Write(at: nat, op: M.Op<T>)
    | Wipe(at: nat, addNodes: bool)
    | Fork(at: nat)
    | Plant(at: nat, degree: nat)

  /** The acts name existing trees. */
  ghost predicate Legal<T>(acts: seq<Act<T>>, n: nat) {
    acts == [] || (acts[0].at < n && (acts[0].Plant? ==> acts[0].degree >= 2)
      && Legal(acts[1..], if acts[0].Fork? || acts[0].Plant? then n + 1 else n))
  }

  datatype Lists<T> = Lists(lists: seq<seq<T>>, outs: seq<Option<T>>)

  /** The same act on separate sorted lists. */
  ghost function ActFlat<T>(lt: Less<T>, w: Lists<T>, a: Act<T>): Lists<T>
    requires a.at < |w.lists|
  {
    match a
    case Write(i, op) =>
      var c := M.ApplyFlat(lt, w.lists[i], op);
      Lists(w.lists[i := c.items], w.outs + [c.out])
    case Wipe(i, _) => Lists(w.lists[i := []], w.outs + [None])
    case Fork(i) => Lists(w.lists + [w.lists[i]], w.outs + [None])
    case Plant(_, _) => Lists(w.lists + [[]], w.outs + [None])
  }

  ghost function RunFlat<T>(lt: Less<T>, w: Lists<T>, acts: seq<Act<T>>): Lists<T>
    requires Legal(acts, |w.lists|)
    decreases |acts|
  {
    if acts == [] then w else RunFlat(lt, ActFlat(lt, w, acts[0]), acts[1..])
  }

  ghost function Contents<T(!new)>(ts: seq<HeapTree<T>>): (c: seq<seq<T>>)
    reads ts
    ensures |c| == |ts|
  {
    seq(|ts|, j requires 0 <= j < |ts| reads ts => M.Items(ts[j].Model()))
  }

  lemma NewIsEmpty<T>(d: nat)
    ensures M.Items(M.New<T>(d)) == []
  {
  }

  method DoAct<T(!new)>(lt: Less<T>, ts: seq<HeapTree<T>>, a: Act<T>, ghost outs: seq<Option<T>>)
      returns (ts': seq<HeapTree<T>>, out: Option<T>)
    requires StrictWeak(lt) && World(lt, ts) && a.at < |ts| && (a.Plant? ==> a.degree >= 2)
    modifies Footprint(ts)
    ensures World(lt, ts') && forall o :: o in Footprint(ts') ==> fresh(o) || o in old(Footprint(ts))
    ensures |ts'| == if a.Fork? || a.Plant? then |ts| + 1 else |ts|
    ensures Lists(Contents(ts'), outs + [out]) == ActFlat(lt, Lists(old(Contents(ts)), outs), a)
  {
    hide HoldsIn, StrictWeak, World, Footprint, OnlyTree, M.Valid, M.Items, M.ReplaceOrInsert, M.DeleteItem, Beside,
      TreeOk;
    ts', out := ts, None;
    match a {
      case Write(i, Put(x)) =>
        out := PutInto(lt, ts, i, x);
        WorldStep(lt, ts, i);
        M.ReplaceOrInsertRefines(lt, old(ts[i].Model()), x);
      case Write(i, Delete(typ)) =>
        out := DeleteFrom(lt, ts, i, typ);
        WorldStep(lt, ts, i);
        M.DeleteItemRefines(lt, old(ts[i].Model()), typ);
      case Wipe(i, add) =>
        WipeTree(lt, ts, i, add);
        WorldStep(lt, ts, i);
      case Fork(i) => ts' := ForkTree(lt, ts, i);
      case Plant(i, d) =>
        ts' := PlantTree(lt, ts, i, d);
        NewIsEmpty<T>(d);
    }
    if !a.Fork? && !a.Plant? {
      assert Contents(ts') == old(Contents(ts))[a.at := M.Items(ts[a.at].Model())];
    } else {
      assert Contents(ts') == old(Contents(ts)) + [M.Items(ts'[|ts|].Model())];
    }
  }

  /** Whatever the schedule, every tree ends with the contents its own sorted list would have, and
      every call returned what that list would return: clones never see each other's writes. */
  method RunActs<T(!new)>(lt: Less<T>, ts: seq<HeapTree<T>>, acts: seq<Act<T>>)
      returns (ts': seq<HeapTree<T>>, outs: seq<Option<T>>)
    requires StrictWeak(lt) && World(lt, ts) && Legal(acts, |ts|)
    modifies Footprint(ts)
    ensures World(lt, ts')
    ensures Lists(Contents(ts'), outs) == RunFlat(lt, Lists(old(Contents(ts)), []), acts)
  {
    hide StrictWeak, World, Footprint, ActFlat, Contents;
    ts', outs := ts, [];
    var i := 0;
    ghost var w := Lists(Contents(ts), []);
    while i < |acts|
      invariant i <= |acts| && World(lt, ts') && Legal(acts[i..], |ts'|)
      invariant forall o :: o in Footprint(ts') ==> fresh(o) || o in old(Footprint(ts))
      invariant RunFlat(lt, Lists(Contents(ts'), outs), acts[i..]) == RunFlat(lt, w, acts)
    {
      var out;
      ghost var was := outs;
      assert acts[i..][0] == acts[i];
      ts', out := DoAct(lt, ts', acts[i], was);
      outs := outs + [out];
      assert acts[i..][1..] == acts[i + 1..];
      i := i + 1;
    }
  }
}
