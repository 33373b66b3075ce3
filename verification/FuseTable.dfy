/** The FUSE server's node and handle tables (fuse/fs/serve.go): ids are reused from a free list, a
    generation number tells the uses of an id apart. */
module FuseTable {
  import opened Orders

  datatype ServeNode<N> = ServeNode(inode: nat, generation: nat, node: N, refs: nat)
  datatype Issue = Issue(id: nat, generation: nat)

  /** The tables, with their history: every (id, generation) ever issued. */
  datatype Table<N> = Table(nodeRef: map<N, nat>, node: seq<Option<ServeNode<N>>>, freeNode: seq<nat>, nodeGen: nat,
                            issued: map<Issue, N>)

  predicate Used<N>(t: Table<N>, id: nat) {
    id < |t.node| && t.node[id].Some?
  }

  /** nodeRef and the node slice are inverse to each other. */
  ghost predicate Inverse<N>(t: Table<N>) {
    && (forall x :: x in t.nodeRef ==> Used(t, t.nodeRef[x]) && t.node[t.nodeRef[x]].value.node == x)
    && (forall id: nat :: Used(t, id) ==> t.node[id].value.node in t.nodeRef && t.nodeRef[t.node[id].value.node] == id)
  }

  ghost predicate DistinctIds(s: seq<nat>) {
    forall i, j :: 0 <= i < j < |s| ==> s[i] != s[j]
  }

  /** The free ids are exactly the empty ones above 0, once each. */
  ghost predicate FreeOk<N>(t: Table<N>) {
    && |t.node| > 0 && t.node[0].None? && DistinctIds(t.freeNode)
    && (forall id: nat :: id in t.freeNode <==> 0 < id < |t.node| && !Used(t, id))
  }

  /** What is in use is referred to. */
  ghost predicate RefsOk<N>(t: Table<N>) {
    forall id: nat :: Used(t, id) ==> t.node[id].value.refs > 0
  }

  /** The references that the kernel holds to an id. */
  ghost function Refs<N>(t: Table<N>, id: nat): nat {
    if Used(t, id) then t.node[id].value.refs else 0
  }

  ghost function Entry<N>(t: Table<N>, id: nat): Option<ServeNode<N>> {
    if id < |t.node| then t.node[id] else None
  }

  /** What is in use was issued, no generation is above nodeGen, and ids come from the slice. */
  ghost predicate IssuedOk<N>(t: Table<N>) {
    && (forall id: nat :: Used(t, id) ==> Recorded(t, id))
    && (forall k :: k in t.issued ==> k.id < |t.node| && k.generation <= t.nodeGen)
  }

  ghost predicate Recorded<N>(t: Table<N>, id: nat)
    requires Used(t, id)
  {
    var k := Issue(id, t.node[id].value.generation);
    k in t.issued && t.issued[k] == t.node[id].value.node
  }

  ghost predicate Valid<N>(t: Table<N>) {
    Inverse(t) && FreeOk(t) && RefsOk(t) && IssuedOk(t)
  }

  // ----- saveNode -----

  /** One more reference to a node that is known. */
  ghost function Again<N>(t: Table<N>, n: N): Table<N>
    requires n in t.nodeRef && Used(t, t.nodeRef[n])
  {
    var id := t.nodeRef[n];
    var sn := t.node[id].value;
    t.(node := t.node[id := Some(sn.(refs := sn.refs + 1))])
  }

  /** A new node under the last free id, with a new generation. */
  ghost function Reuse<N>(t: Table<N>, inode: nat, n: N): Table<N>
    requires t.freeNode != [] && t.freeNode[|t.freeNode| - 1] < |t.node|
  {
    var id, gen := t.freeNode[|t.freeNode| - 1], t.nodeGen + 1;
    Table(t.nodeRef[n := id], t.node[id := Some(ServeNode(inode, gen, n, 1))], t.freeNode[..|t.freeNode| - 1], gen,
          t.issued[Issue(id, gen) := n])
  }

  /** A new node under a new id, with the current generation. */
  ghost function Extend<N>(t: Table<N>, inode: nat, n: N): Table<N> {
    var id, gen := |t.node|, t.nodeGen;
    Table(t.nodeRef[n := id], t.node + [Some(ServeNode(inode, gen, n, 1))], t.freeNode, gen,
          t.issued[Issue(id, gen) := n])
  }

  ghost function Save<N>(t: Table<N>, inode: nat, n: N): Table<N>
    requires Valid(t)
  {
    if n in t.nodeRef then Again(t, n)
    else if t.freeNode != [] then (assert t.freeNode[|t.freeNode| - 1] in t.freeNode; Reuse(t, inode, n))
    else Extend(t, inode, n)
  }

  /** History only grows: a pair once issued stays with its node. */
  ghost predicate Keeps<N>(a: Table<N>, b: Table<N>) {
    forall k :: k in a.issued ==> k in b.issued && b.issued[k] == a.issued[k]
  }

  lemma AgainOk<N(!new)>(t: Table<N>, n: N)
    requires Valid(t) && n in t.nodeRef
    ensures Valid(Again(t, n)) && Keeps(t, Again(t, n))
  {
    var u, i := Again(t, n), t.nodeRef[n];
    assert forall id: nat :: Used(u, id) <==> Used(t, id);
    forall id: nat | Used(u, id) ensures Recorded(u, id) { assert Recorded(t, id); }
  }

  lemma ReuseInverse<N(!new)>(t: Table<N>, inode: nat, n: N)
    requires Inverse(t) && FreeOk(t) && n !in t.nodeRef && t.freeNode != []
    ensures t.freeNode[|t.freeNode| - 1] < |t.node| && Inverse(Reuse(t, inode, n)) && FreeOk(Reuse(t, inode, n))
  {
    var i := t.freeNode[|t.freeNode| - 1];
    assert i in t.freeNode;
    var u := Reuse(t, inode, n);
    TakeLast(t.freeNode);
    assert forall id: nat :: Used(u, id) <==> id == i || Used(t, id);
    forall id: nat ensures id in u.freeNode <==> 0 < id < |u.node| && !Used(u, id) {
      assert id in u.freeNode <==> id in t.freeNode && id != i;
      assert id in t.freeNode <==> 0 < id < |t.node| && !Used(t, id);
    }
  }

  lemma ReuseOk<N(!new)>(t: Table<N>, inode: nat, n: N)
    requires Valid(t) && n !in t.nodeRef && t.freeNode != []
    ensures t.freeNode[|t.freeNode| - 1] < |t.node| && Valid(Reuse(t, inode, n)) && Keeps(t, Reuse(t, inode, n))
  {
    hide Inverse, FreeOk, RefsOk, IssuedOk, Keeps;
    ReuseInverse(t, inode, n);
    var u, i := Reuse(t, inode, n), t.freeNode[|t.freeNode| - 1];
    NewEntry(t, u, i, t.nodeGen + 1, inode, n);
  }

  /** What a new entry under id i, which was not in use, does to references and history. */
  lemma NewEntry<N(!new)>(t: Table<N>, u: Table<N>, i: nat, gen: nat, inode: nat, n: N)
    requires RefsOk(t) && IssuedOk(t) && t.nodeGen <= gen == u.nodeGen && (i < |t.node| ==> gen > t.nodeGen)
    requires |t.node| <= |u.node| && i < |u.node| <= (if i < |t.node| then |t.node| else i + 1) && i <= |t.node|
    requires u.node[i] == Some(ServeNode(inode, gen, n, 1)) && forall j :: 0 <= j < |t.node| && j != i ==>
      u.node[j] == t.node[j]
    requires u.issued == t.issued[Issue(i, gen) := n]
    ensures RefsOk(u) && IssuedOk(u) && Keeps(t, u)
  {
    assert Issue(i, gen) !in t.issued;
    forall id: nat | Used(u, id) && id != i ensures Used(t, id) && u.node[id] == t.node[id] { }
    forall id: nat | Used(u, id) ensures Recorded(u, id) { if id != i { assert Recorded(t, id); } }
  }

  lemma ExtendInverse<N(!new)>(t: Table<N>, inode: nat, n: N)
    requires Inverse(t) && FreeOk(t) && n !in t.nodeRef
    ensures Inverse(Extend(t, inode, n)) && FreeOk(Extend(t, inode, n))
  {
    var u, i := Extend(t, inode, n), |t.node|;
    assert forall id: nat :: Used(u, id) <==> id == i || Used(t, id);
  }

  lemma ExtendOk<N(!new)>(t: Table<N>, inode: nat, n: N)
    requires Valid(t) && n !in t.nodeRef
    ensures Valid(Extend(t, inode, n)) && Keeps(t, Extend(t, inode, n))
  {
    hide Inverse, FreeOk, RefsOk, IssuedOk, Keeps;
    ExtendInverse(t, inode, n);
    NewEntry(t, Extend(t, inode, n), |t.node|, t.nodeGen, inode, n);
  }

  /** What saveNode promises: the node is in use under the returned pair with one reference more than
      the id had, no pair ever changes its node, every other id is as it was, and the slice grows only
      when all its ids are in use. */
  lemma SaveOk<N(!new)>(t: Table<N>, inode: nat, n: N)
    requires Valid(t)
    ensures var u := Save(t, inode, n);
      && Valid(u) && Keeps(t, u) && n in u.nodeRef
      && (forall x :: x in t.nodeRef ==> x in u.nodeRef && u.nodeRef[x] == t.nodeRef[x])
      && Recorded(u, u.nodeRef[n]) && Refs(u, u.nodeRef[n]) == Refs(t, u.nodeRef[n]) + 1
      && (forall id: nat :: id != u.nodeRef[n] ==> Entry(u, id) == Entry(t, id))
      && (|u.node| > |t.node| ==> forall id: nat :: 0 < id < |t.node| ==> Used(t, id))
      && var was, now := Entry(t, u.nodeRef[n]), Entry(u, u.nodeRef[n]);
         && now.Some? && now.value.node == n
         && if n in t.nodeRef then was.Some? && now.value == was.value.(refs := now.value.refs)
            else was.None? && now.value.inode == inode
  {
    hide Inverse, FreeOk, RefsOk, IssuedOk;
    if n in t.nodeRef {
      assert Used(t, t.nodeRef[n]) by { KnownFacts(t, n); }
      AgainOk(t, n);
    } else if t.freeNode != [] {
      ReuseOk(t, inode, n);
      LastFree(t);
    } else {
      ExtendOk(t, inode, n);
      NoneFree(t);
    }
    KnownFacts(Save(t, inode, n), n);
  }

  lemma NoneFree<N(!new)>(t: Table<N>)
    requires FreeOk(t) && t.freeNode == []
    ensures forall id: nat :: 0 < id < |t.node| ==> Used(t, id)
  {
    forall id: nat | 0 < id < |t.node| ensures Used(t, id) { assert id !in t.freeNode; }
  }

  lemma KnownFacts<N(!new)>(t: Table<N>, n: N)
    requires Valid(t) && n in t.nodeRef
    ensures Used(t, t.nodeRef[n]) && Recorded(t, t.nodeRef[n]) && t.node[t.nodeRef[n]].value.node == n
  {
  }

  // ----- dropNode -----

  ghost function Drop<N>(t: Table<N>, id: nat, count: nat): Table<N>
    requires id < |t.node|
  {
    if t.node[id].None? then t else
      var sn := t.node[id].value;
      if count >= sn.refs then
        t.(node := t.node[id := None], nodeRef := t.nodeRef - {sn.node}, freeNode := t.freeNode + [id])
      else
        t.(node := t.node[id := Some(sn.(refs := sn.refs - count))])
  }

  lemma DropInverse<N(!new)>(t: Table<N>, id: nat, count: nat)
    requires Inverse(t) && FreeOk(t) && id < |t.node|
    ensures Inverse(Drop(t, id, count)) && FreeOk(Drop(t, id, count))
  {
    var u := Drop(t, id, count);
    AddLast(t.freeNode, id);
    if t.node[id].Some? {
      assert Used(t, id) && id !in t.freeNode;
      assert forall j: nat :: Used(u, j) <==> Used(t, j) && (j != id || count < t.node[id].value.refs);
    }
  }

  lemma DropOk<N(!new)>(t: Table<N>, id: nat, count: nat)
    requires Valid(t) && id < |t.node|
    ensures Valid(Drop(t, id, count)) && Drop(t, id, count).issued == t.issued
    ensures var u := Drop(t, id, count);
      && Refs(u, id) == (if count >= Refs(t, id) then 0 else Refs(t, id) - count)
      && (forall j: nat :: j != id ==> Entry(u, j) == Entry(t, j))
      && (Used(u, id) ==> Used(t, id) && u.node[id].value == t.node[id].value.(refs := Refs(u, id)))
  {
    hide Inverse, FreeOk;
    DropInverse(t, id, count);
    var u := Drop(t, id, count);
    forall j: nat | Used(u, j) ensures Used(t, j) && Recorded(u, j) { assert Used(t, j) && Recorded(t, j); }
  }

  // ----- whole runs -----

  datatype Call<N> = Lookup(inode: nat, node: N) | Forget(id: nat, count: nat)

  /** One call. A forget of an id outside the slice is answered ESTALE before it gets here. */
  ghost function Serve<N(!new)>(t: Table<N>, c: Call<N>): (u: Table<N>)
    requires Valid(t)
    ensures Valid(u) && Keeps(t, u)
  {
    match c
    case Lookup(inode, n) => SaveOk(t, inode, n); Save(t, inode, n)
    case Forget(id, count) => if id < |t.node| then DropOk(t, id, count); Drop(t, id, count) else t
  }

  ghost function ServeAll<N(!new)>(t: Table<N>, cs: seq<Call<N>>): (u: Table<N>)
    requires Valid(t)
    ensures Valid(u)
  {
    if cs == [] then t else Serve(ServeAll(t, cs[..|cs| - 1]), cs[|cs| - 1])
  }

  /** What the kernel counts for an id, from the calls and their answers alone: one for every lookup
      answered with the id, less what it has forgotten, at most all. */
  ghost function Held<N(!new)>(t: Table<N>, cs: seq<Call<N>>, id: nat): nat
    requires Valid(t)
  {
    if cs == [] then Refs(t, id) else
      var m := |cs| - 1;
      var before := Held(t, cs[..m], id);
      match cs[m]
      case Lookup(_, n) => if AnsweredWith(t, cs, n, id) then before + 1 else before
      case Forget(i, count) => if i != id then before else if count >= before then 0 else before - count
  }

  /** The last call of cs, a lookup of n, was answered with id. */
  ghost predicate AnsweredWith<N(!new)>(t: Table<N>, cs: seq<Call<N>>, n: N, id: nat)
    requires Valid(t)
  {
    var u := ServeAll(t, cs);
    n in u.nodeRef && u.nodeRef[n] == id
  }

  /** In every run the references of every id are those the kernel counts; an id is given up exactly when
      the kernel holds none. */
  lemma {:induction false} RefsAreCounted<N(!new)>(t: Table<N>, cs: seq<Call<N>>, id: nat)
    requires Valid(t)
    ensures Refs(ServeAll(t, cs), id) == Held(t, cs, id)
    ensures Used(ServeAll(t, cs), id) <==> Held(t, cs, id) > 0
    decreases |cs|
  {
    hide Inverse, FreeOk, IssuedOk, Save, Drop, Keeps;
    var u := ServeAll(t, cs);
    if cs != [] {
      var m := |cs| - 1;
      var s := ServeAll(t, cs[..m]);
      RefsAreCounted(t, cs[..m], id);
      match cs[m] {
        case Lookup(inode, n) =>
          SaveOk(s, inode, n);
          if u.nodeRef[n] != id { assert Entry(u, id) == Entry(s, id); }
        case Forget(i, count) =>
          if i < |s.node| {
            DropOk(s, i, count);
            if i != id { assert Entry(u, id) == Entry(s, id); }
          }
      }
    }
    assert Used(u, id) ==> u.node[id].value.refs > 0;
  }

  /** The pair that names node n to the kernel. */
  ghost function PairOf<N(!new)>(t: Table<N>, n: N): Issue
    requires Valid(t) && n in t.nodeRef
  {
    KnownFacts(t, n);
    Issue(t.nodeRef[n], t.node[t.nodeRef[n]].value.generation)
  }

  /** The table just after call i, and what that call answered. */
  ghost predicate Answers<N(!new)>(t: Table<N>, cs: seq<Call<N>>, i: nat, k: Issue)
    requires Valid(t)
  {
    && i < |cs| && cs[i].Lookup?
    && var u := ServeAll(t, cs[..i + 1]);
       cs[i].node in u.nodeRef && k == PairOf(u, cs[i].node)
  }

  /** Every lookup is answered, and the pair answered is recorded with the node asked for. */
  lemma LookupAnswers<N(!new)>(t: Table<N>, cs: seq<Call<N>>, i: nat)
    requires Valid(t) && i < |cs| && cs[i].Lookup?
    ensures var u := ServeAll(t, cs[..i + 1]);
      cs[i].node in u.nodeRef && Answers(t, cs, i, PairOf(u, cs[i].node))
  {
    hide Valid, Save, PairOf;
    var p := cs[..i + 1];
    assert p[..i] == cs[..i] && p[i] == cs[i];
    SaveOk(ServeAll(t, cs[..i]), cs[i].inode, cs[i].node);
  }

  lemma AnswerRecorded<N(!new)>(t: Table<N>, cs: seq<Call<N>>, i: nat, k: Issue)
    requires Valid(t) && Answers(t, cs, i, k)
    ensures var u := ServeAll(t, cs[..i + 1]); k in u.issued && u.issued[k] == cs[i].node
  {
    hide Valid, ServeAll;
    KnownFacts(ServeAll(t, cs[..i + 1]), cs[i].node);
  }

  lemma {:induction false} HistoryKept<N(!new)>(t: Table<N>, cs: seq<Call<N>>, i: nat, j: nat)
    requires Valid(t) && i <= j <= |cs|
    ensures Keeps(ServeAll(t, cs[..i]), ServeAll(t, cs[..j]))
    decreases j
  {
    hide Valid, Serve;
    if i < j {
      HistoryKept(t, cs, i, j - 1);
      assert cs[..j][..j - 1] == cs[..j - 1];
    }
  }

  /** In every run, two lookups answered with the same (id, generation) asked for the same node,
      however many forgets and reuses of the id lie between them. */
  lemma PairNamesOneNode<N(!new)>(t: Table<N>, cs: seq<Call<N>>, i: nat, j: nat, k: Issue)
    requires Valid(t) && Answers(t, cs, i, k) && Answers(t, cs, j, k)
    ensures cs[i].node == cs[j].node
  {
    hide Valid, ServeAll, Answers, PairOf;
    AnswerIndex(t, cs, i, k);
    AnswerIndex(t, cs, j, k);
    AnswerRecorded(t, cs, i, k);
    AnswerRecorded(t, cs, j, k);
    if i <= j { HistoryKept(t, cs, i + 1, j + 1); } else { HistoryKept(t, cs, j + 1, i + 1); }
  }

  lemma AnswerIndex<N(!new)>(t: Table<N>, cs: seq<Call<N>>, i: nat, k: Issue)
    requires Valid(t) && Answers(t, cs, i, k)
    ensures i < |cs| && cs[i].Lookup?
  {
  }

  // ----- handles -----

  datatype Handles<H> = Handles(slots: seq<Option<H>>, free: seq<nat>)

  /** Free handle ids are empty and distinct, and every empty one above 0 is free. */
  ghost predicate HandlesOk<H>(t: Handles<H>) {
    && |t.slots| > 0 && t.slots[0].None?
    && DistinctIds(t.free)
    && (forall i :: 0 <= i < |t.free| ==> 0 < t.free[i] < |t.slots| && t.slots[t.free[i]].None?)
    && (forall id :: 0 < id < |t.slots| && t.slots[id].None? ==> id in t.free)
  }

  datatype Saved<H> = Saved(table: Handles<H>, id: nat)

  function Stored<H>(t: Handles<H>, h: H): Saved<H>
    requires forall i :: 0 <= i < |t.free| ==> t.free[i] < |t.slots|
  {
    if |t.free| > 0 then
      var id := t.free[|t.free| - 1];
      Saved(Handles(t.slots[id := Some(h)], t.free[..|t.free| - 1]), id)
    else Saved(Handles(t.slots + [Some(h)], []), |t.slots|)
  }

  function Released<H>(t: Handles<H>, id: nat): Handles<H>
    requires id < |t.slots|
  {
    Handles(t.slots[id := None], t.free + [id])
  }

  /** getHandle: nothing for an id outside the table. */
  function GetHandle<H>(t: Handles<H>, id: nat): Option<H> {
    if id < |t.slots| then t.slots[id] else None
  }

  lemma StoredOk<H>(t: Handles<H>, h: H)
    requires HandlesOk(t)
    ensures var r := Stored(t, h);
      && HandlesOk(r.table) && GetHandle(t, r.id).None? && GetHandle(r.table, r.id) == Some(h) && r.id > 0
      && (forall j :: j != r.id ==> GetHandle(r.table, j) == GetHandle(t, j))
      && (|r.table.slots| > |t.slots| ==> forall j :: 0 < j < |t.slots| ==> GetHandle(t, j).Some?)
  {
    var r := Stored(t, h);
    if |t.free| > 0 {
      TakeLast(t.free);
    } else {
      assert forall id :: 0 < id < |t.slots| ==> t.slots[id].Some?;
    }
  }

  /** Emptying a slot keeps the table right exactly when it is in use. */
  lemma ReleaseExactly<H>(t: Handles<H>, id: nat)
    requires HandlesOk(t) && id < |t.slots|
    ensures HandlesOk(Released(t, id)) <==> t.slots[id].Some?
  {
    var u := Released(t, id);
    AddLast(t.free, id);
    if t.slots[id].Some? {
      forall i | 0 <= i < |u.free| ensures 0 < u.free[i] < |u.slots| && u.slots[u.free[i]].None? {
        if i < |t.free| { assert u.free[i] == t.free[i]; }
      }
    } else {
      if id > 0 {
        var i :| 0 <= i < |t.free| && t.free[i] == id;
        assert u.free[i] == u.free[|t.free|];
      } else {
        assert u.free[|t.free|] == 0;
      }
    }
  }

  // ----- release requests that race -----

  /** A release request that has found its handle and not yet emptied the slot. */
  datatype Found = Found(id: nat, handle: nat)

  /** Handles are numbered as they are opened. live has every handle opened and not yet taken back
      by the request that found it. */
  datatype Files = Files(table: Handles<nat>, next: nat, pending: map<nat, Found>, live: map<nat, nat>)

  datatype Action = OpenFile | Look(request: nat, id: nat) | TakeBack(request: nat)

  predicate CanDo(s: Files, a: Action) {
    match a
    case OpenFile => forall i :: 0 <= i < |s.table.free| ==> s.table.free[i] < |s.table.slots|
    case Look(r, _) => r !in s.pending
    case TakeBack(r) => r in s.pending && s.pending[r].id < |s.table.slots|
  }

  /** A look that finds nothing is answered ESTALE and the request is over. */
  function Did(s: Files, a: Action): Files
    requires CanDo(s, a)
  {
    match a
    case OpenFile =>
      var r := Stored(s.table, s.next);
      s.(table := r.table, next := s.next + 1, live := s.live[s.next := r.id])
    case Look(r, id) =>
      var h := GetHandle(s.table, id);
      if h.None? then s else s.(pending := s.pending[r := Found(id, h.value)])
    case TakeBack(r) =>
      s.(table := Released(s.table, s.pending[r].id), pending := s.pending - {r},
        live := s.live - {s.pending[r].handle})
  }

  /** The look finds a handle that another release has found and not yet dropped. */
  ghost predicate Overlaps(s: Files, a: Action) {
    a.Look? && GetHandle(s.table, a.id).Some? && exists r :: r in s.pending && s.pending[r].id == a.id
  }

  /** Every open file still has its handle under the id it was given. */
  ghost predicate Kept(s: Files) {
    forall h :: h in s.live ==> GetHandle(s.table, s.live[h]) == Some(h)
  }

  /** Slots and live handles correspond, and what a request found is still there. */
  ghost predicate FilesOk(s: Files) {
    && HandlesOk(s.table) && Kept(s)
    && (forall id :: 0 <= id < |s.table.slots| && s.table.slots[id].Some? ==>
          var h := s.table.slots[id].value; h < s.next && h in s.live && s.live[h] == id)
    && (forall r :: r in s.pending ==> GetHandle(s.table, s.pending[r].id) == Some(s.pending[r].handle))
  }

  ghost predicate OneEach(s: Files) {
    forall q, r :: q in s.pending && r in s.pending && q != r ==> s.pending[q].id != s.pending[r].id
  }

  /** No file is open; handle 0 is never given out. */
  function NewFiles(): Files { Files(Handles([None], []), 0, map[], map[]) }

  lemma NoFiles()
    ensures FilesOk(NewFiles()) && OneEach(NewFiles())
  {
  }

  /** Two releases of one id can be under way: a file is opened and both look before either drops. */
  lemma OverlapReachable() returns (t: Files)
    ensures CanDo(NewFiles(), OpenFile)
    ensures var s := Did(NewFiles(), OpenFile);
      && CanDo(s, Look(0, 1))
      && var u := Did(s, Look(0, 1));
         CanDo(u, Look(1, 1)) && t == Did(u, Look(1, 1))
    ensures FilesOk(t) && !OneEach(t) && 0 in t.live
  {
    var s := Did(NewFiles(), OpenFile);
    NoFiles();
    DidKeeps(NewFiles(), OpenFile);
    assert GetHandle(s.table, 1) == Some(0);
    t := Did(Did(s, Look(0, 1)), Look(1, 1));
    assert t == s.(pending := map[0 := Found(1, 0), 1 := Found(1, 0)]);
    assert 0 in t.pending && 1 in t.pending && t.pending[0].id == t.pending[1].id;
  }

  lemma DidKeeps(s: Files, a: Action)
    requires FilesOk(s) && OneEach(s) && CanDo(s, a) && !Overlaps(s, a)
    ensures FilesOk(Did(s, a)) && OneEach(Did(s, a))
  {
    match a {
      case OpenFile => OpenKeeps(s);
      case Look(r, id) =>
      case TakeBack(r) => DropKeeps(s, r);
    }
  }

  lemma OpenKeeps(s: Files)
    requires FilesOk(s) && OneEach(s) && CanDo(s, OpenFile)
    ensures FilesOk(Did(s, OpenFile)) && OneEach(Did(s, OpenFile))
  {
    hide HandlesOk, Stored;
    StoredOk(s.table, s.next);
    var r, t := Stored(s.table, s.next), Did(s, OpenFile);
    StoredSize(s.table, s.next);
    forall h | h in s.live ensures h != s.next && s.live[h] != r.id { assert GetHandle(s.table, s.live[h]) == Some(h); }
    forall id | 0 <= id < |t.table.slots| && t.table.slots[id].Some?
      ensures var h := t.table.slots[id].value; h < t.next && h in t.live && t.live[h] == id
    {
      assert GetHandle(t.table, id) == t.table.slots[id];
      if id != r.id { assert GetHandle(s.table, id) == t.table.slots[id]; }
    }
  }

  lemma StoredSize(t: Handles<nat>, h: nat)
    requires HandlesOk(t)
    ensures Stored(t, h).id < |Stored(t, h).table.slots|
  {
  }

  lemma DropKeeps(s: Files, r: nat)
    requires FilesOk(s) && OneEach(s) && CanDo(s, TakeBack(r))
    ensures FilesOk(Did(s, TakeBack(r))) && OneEach(Did(s, TakeBack(r)))
  {
    hide HandlesOk;
    var f, t := s.pending[r], Did(s, TakeBack(r));
    ReleaseExactly(s.table, f.id);
    assert s.table.slots[f.id] == Some(f.handle);
    forall h | h in t.live
      ensures GetHandle(t.table, t.live[h]) == Some(h)
    {
      assert GetHandle(s.table, s.live[h]) == Some(h);
    }
    forall q | q in t.pending ensures GetHandle(t.table, t.pending[q].id) == Some(t.pending[q].handle) {
      assert GetHandle(s.table, s.pending[q].id) == Some(s.pending[q].handle) && q != r;
    }
  }

  /** A run in which no two releases of one id overlap. */
  ghost predicate Happens(s: Files, acts: seq<Action>, t: Files)
    decreases |acts|
  {
    if acts == [] then s == t else
      CanDo(s, acts[0]) && !Overlaps(s, acts[0]) && Happens(Did(s, acts[0]), acts[1..], t)
  }

  /** In every run without overlapping releases every open file keeps its handle, however ids are
      reused. */
  lemma {:induction false} EveryRunKeepsHandles(s: Files, acts: seq<Action>, t: Files)
    requires FilesOk(s) && OneEach(s) && Happens(s, acts, t)
    ensures FilesOk(t) && OneEach(t)
    decreases |acts|
  {
    hide FilesOk, OneEach, CanDo, Did, Overlaps;
    if acts != [] {
      DidKeeps(s, acts[0]);
      EveryRunKeepsHandles(Did(s, acts[0]), acts[1..], t);
    }
  }

  /** Two requests have found the same handle: the first drops it, a new file is given the id, and
      the second request takes that file's handle away. */
  lemma RaceLosesHandle(s: Files, q: nat, r: nat) returns (acts: seq<Action>, t: Files)
    requires FilesOk(s) && q in s.pending && r in s.pending && q != r && s.pending[q].id == s.pending[r].id
    ensures Happens(s, acts, t) && s.next in t.live && !Kept(t)
  {
    hide HandlesOk;
    var id := s.pending[q].id;
    assert GetHandle(s.table, id) == Some(s.pending[q].handle) && GetHandle(s.table, id) == Some(s.pending[r].handle);
    ReleaseExactly(s.table, id);
    var s1 := Did(s, TakeBack(q));
    FreeInSlots(s1.table);
    assert s1.table.free[|s1.table.free| - 1] == id;
    var s2 := Did(s1, OpenFile);
    assert s2.live[s.next] == id && s2.pending[r].id == id;
    t := Did(s2, TakeBack(r));
    assert s.next != s.pending[r].handle;
    assert s.next in t.live && GetHandle(t.table, t.live[s.next]).None?;
    acts := [TakeBack(q), OpenFile, TakeBack(r)];
    assert acts[1..] == [OpenFile, TakeBack(r)] && acts[1..][1..] == [TakeBack(r)] && acts[1..][1..][1..] == [];
    assert Happens(t, [], t);
    assert Happens(s2, [TakeBack(r)], t);
    assert Happens(s1, [OpenFile, TakeBack(r)], t);
  }

  lemma FreeInSlots(t: Handles<nat>)
    requires HandlesOk(t)
    ensures forall i :: 0 <= i < |t.free| ==> t.free[i] < |t.slots|
  {
  }

  /** The exact condition: from a sound state, with no further overlaps, every open file keeps its
      handle in every run if and only if no two releases of one id are under way. */
  lemma HandlesKeptExactly(s: Files)
    requires FilesOk(s)
    ensures OneEach(s) <==> forall acts, t :: Happens(s, acts, t) ==> Kept(t)
  {
    hide Happens, HandlesOk, GetHandle;
    if OneEach(s) {
      forall acts, t | Happens(s, acts, t) ensures Kept(t) { EveryRunKeepsHandles(s, acts, t); }
    } else {
      var q, r :| q in s.pending && r in s.pending && q != r && s.pending[q].id == s.pending[r].id;
      var acts, t := RaceLosesHandle(s, q, r);
    }
  }

  /** A release that looks after another one has dropped the handle is refused. */
  lemma SecondReleaseRefused(s: Files, q: nat, r: nat)
    requires FilesOk(s) && CanDo(s, TakeBack(q)) && r !in s.pending
    ensures var t := Did(s, TakeBack(q));
      CanDo(t, Look(r, s.pending[q].id)) && Did(t, Look(r, s.pending[q].id)) == t
  {
    hide HandlesOk;
  }

  // ----- the server -----

  class Server<N(==, !new), H> {
    var nodeRef: map<N, nat>
    var node: seq<Option<ServeNode<N>>>
    var freeNode: seq<nat>
    var nodeGen: nat
    var handle: seq<Option<H>>
    var freeHandle: seq<nat>
    ghost var issued: map<Issue, N>

    /** Serve: node ids 0 and 1 are taken, 1 by the root, and so is handle id 0. */
    constructor (root: N)
      ensures Valid(View()) && nodeRef == map[root := 1] && issued == map[Issue(1, 0) := root]
      ensures node == [None, Some(ServeNode(1, 0, root, 1))] && freeNode == [] && nodeGen == 0
      ensures HandlesOk(HandleView()) && handle == [None] && freeHandle == []
    {
      nodeRef := map[root := 1];
      node := [None, Some(ServeNode(1, 0, root, 1))];
      freeNode, nodeGen := [], 0;
      handle, freeHandle := [None], [];
      issued := map[Issue(1, 0) := root];
      new;
      assert forall id: nat :: Used(View(), id) <==> id == 1;
    }

    ghost function View(): Table<N>
      reads this
    {
      Table(nodeRef, node, freeNode, nodeGen, issued)
    }

    ghost function HandleView(): Handles<H>
      reads this
    {
      Handles(handle, freeHandle)
    }

    /** saveNode. */
    method SaveNode(inode: nat, n: N) returns (id: nat, gen: nat)
      requires Valid(View())
      modifies this`nodeRef, this`node, this`freeNode, this`nodeGen, this`issued
      ensures View() == Save(old(View()), inode, n) && Valid(View()) && Keeps(old(View()), View())
      ensures Issue(id, gen) in issued && issued[Issue(id, gen)] == n && n in nodeRef && nodeRef[n] == id
      ensures Issue(id, gen) == PairOf(View(), n) && Refs(View(), id) == Refs(old(View()), id) + 1
      ensures forall j: nat :: j != id ==> Entry(View(), j) == Entry(old(View()), j)
    {
      hide Inverse, FreeOk, RefsOk, IssuedOk, Keeps;
      SaveOk(View(), inode, n);
      if n in nodeRef {
        KnownFacts(View(), n);
        id := nodeRef[n];
        var sn := node[id].value;
        node := node[id := Some(sn.(refs := sn.refs + 1))];
        return id, sn.generation;
      }
      if |freeNode| > 0 {
        LastFree(View());
        id := freeNode[|freeNode| - 1];
        freeNode := freeNode[..|freeNode| - 1];
        nodeGen := nodeGen + 1;
        node := node[id := Some(ServeNode(inode, nodeGen, n, 1))];
      } else {
        id := |node|;
        node := node + [Some(ServeNode(inode, nodeGen, n, 1))];
      }
      gen := nodeGen;
      nodeRef := nodeRef[n := id];
      issued := issued[Issue(id, gen) := n];
    }

    /** dropNode with a count clamped to the references held. True when the node is to be
        forgotten, also for an id that is already empty. */
    method DropNode(id: nat, count: nat) returns (forget: bool)
      requires Valid(View()) && id < |node|
      modifies this`nodeRef, this`node, this`freeNode
      ensures View() == Drop(old(View()), id, count) && Valid(View())
      ensures Refs(View(), id) == if count >= Refs(old(View()), id) then 0 else Refs(old(View()), id) - count
      ensures forall j: nat :: j != id ==> Entry(View(), j) == Entry(old(View()), j)
      ensures forget <==> node[id].None?
    {
      hide Inverse, FreeOk, RefsOk, IssuedOk;
      DropOk(View(), id, count);
      if node[id].None? { return true; }
      var sn := node[id].value;
      var n := if count > sn.refs then sn.refs else count;
      var refs := sn.refs - n;
      if refs == 0 {
        node := node[id := None];
        nodeRef := nodeRef - {sn.node};
        freeNode := freeNode + [id];
        return true;
      }
      node := node[id := Some(sn.(refs := refs))];
      return false;
    }

    /** saveHandle: the id given out was not in use. */
    method SaveHandle(h: H) returns (id: nat)
      requires HandlesOk(HandleView())
      modifies this`handle, this`freeHandle
      ensures Saved(HandleView(), id) == Stored(old(HandleView()), h) && HandlesOk(HandleView())
      ensures GetHandle(old(HandleView()), id).None? && GetHandle(HandleView(), id) == Some(h)
    {
      StoredOk(HandleView(), h);
      if |freeHandle| > 0 {
        id := freeHandle[|freeHandle| - 1];
        freeHandle := freeHandle[..|freeHandle| - 1];
        handle := handle[id := Some(h)];
      } else {
        id := |handle|;
        handle := handle + [Some(h)];
      }
    }

    /** dropHandle does not look whether the id is in use: the id is empty afterwards and all others
        are as they were, but the table stays right only if it was in use. */
    method DropHandle(id: nat)
      requires id < |handle|
      modifies this`handle, this`freeHandle
      ensures HandleView() == Released(old(HandleView()), id)
      ensures forall j :: GetHandle(HandleView(), j) == if j == id then None else GetHandle(old(HandleView()), j)
      ensures HandlesOk(old(HandleView())) ==> (HandlesOk(HandleView()) <==> GetHandle(old(HandleView()), id).Some?)
    {
      if HandlesOk(HandleView()) { ReleaseExactly(HandleView(), id); }
      handle := handle[id := None];
      freeHandle := freeHandle + [id];
    }

    /** The release request as one step: refused with ESTALE for an id that is not in use. */
    method Release(id: nat) returns (stale: bool)
      requires HandlesOk(HandleView())
      modifies this`handle, this`freeHandle
      ensures stale <==> GetHandle(old(HandleView()), id).None?
      ensures HandlesOk(HandleView()) && GetHandle(HandleView(), id).None?
      ensures forall j :: j != id ==> GetHandle(HandleView(), j) == GetHandle(old(HandleView()), j)
    {
      hide HandlesOk, Released;
      if id >= |handle| || handle[id].None? { return true; }
      DropHandle(id);
      return false;
    }
  }

  lemma LastFree<N(!new)>(t: Table<N>)
    requires FreeOk(t) && t.freeNode != []
    ensures t.freeNode[|t.freeNode| - 1] < |t.node| && !Used(t, t.freeNode[|t.freeNode| - 1])
  {
    assert t.freeNode[|t.freeNode| - 1] in t.freeNode;
  }

  lemma TakeLast(s: seq<nat>)
    requires s != [] && DistinctIds(s)
    ensures DistinctIds(s[..|s| - 1])
    ensures forall x :: x in s[..|s| - 1] <==> x in s && x != s[|s| - 1]
  {
    assert s == s[..|s| - 1] + [s[|s| - 1]];
  }

  lemma AddLast(s: seq<nat>, x: nat)
    ensures forall y :: y in s + [x] <==> y in s || y == x
  {
  }
}
