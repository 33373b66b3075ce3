/** Choosing meta nodes for a new partition (master/node_select.go, master/meta_node.go): every node
    has a carry that grows by its free-memory weight and pays 1 for each selection. Floats are
    taken as reals. */
module CarryScheduler {
  const UINT64 := 0x1_0000_0000_0000_0000
  const RESERVED_MEM := 0x1_0000_0000
  const MAX_PARTITIONS := 100
  const DEFAULT_THRESHOLD := 0.75

  datatype MetaNode = MetaNode(addr: string, total: nat, used: nat, active: bool, partitions: nat, threshold: real,
                               carry: real, selectCount: nat)

  // ----- writable nodes and their weight -----

  /** isArriveThreshold; with no memory reported the float ratio is infinite or not a number. */
  predicate ArrivedThreshold(n: MetaNode) {
    var t := if n.threshold <= 0.0 then DEFAULT_THRESHOLD else n.threshold;
    if n.total == 0 then n.used > 0 else n.used as real / n.total as real > t
  }

  /** MaxMemAvailWeight, an unsigned difference. */
  function MemAvail(n: MetaNode): nat { (n.total - n.used) % UINT64 }

  predicate WriteAble(n: MetaNode) {
    n.active && MemAvail(n) > RESERVED_MEM && !ArrivedThreshold(n) && n.partitions < MAX_PARTITIONS
  }

  /** a - b in 64 bits. */
  function Minus(a: nat, b: nat): int { if b <= a then a - b else a - b + UINT64 }

  lemma MinusIs(a: nat, b: nat)
    requires a < UINT64 && b < UINT64
    ensures (a - b) % UINT64 == Minus(a, b)
  {
  }

  /** A node can be written to if it is active, has room for a partition, more than 4 GiB free, and its
      use is not above the threshold, by default three quarters. */
  lemma WriteAbleExactly(n: MetaNode)
    requires n.total < UINT64 && n.used < UINT64
    ensures WriteAble(n) <==>
      && n.active && n.partitions < 100 && Minus(n.total, n.used) > 0x1_0000_0000 && n.total > 0
      && n.used as real <= (if n.threshold <= 0.0 then 0.75 else n.threshold) * n.total as real
  {
    MinusIs(n.total, n.used);
    if n.total > 0 {
      Ratio(n.used as real, n.total as real, if n.threshold <= 0.0 then 0.75 else n.threshold);
    }
  }

  lemma Ratio(u: real, b: real, t: real)
    requires b > 0.0
    ensures u / b <= t <==> u <= t * b
  {
    var r := u / b;
    assert r * b == u;
    Compare(r, t, b);
  }

  lemma Compare(a: real, b: real, c: real)
    requires c > 0.0
    ensures a <= b <==> a * c <= b * c
    ensures a < b <==> a * c < b * c
  {
  }

  function Weight(n: MetaNode, maxTotal: nat): real
    requires maxTotal > 0
  {
    ((maxTotal - n.used) % UINT64) as real / maxTotal as real
  }

  /** The weight is the share of the largest memory that the node does not use. */
  lemma WeightIs(n: MetaNode, maxTotal: nat)
    requires 0 < maxTotal < UINT64 && n.used < UINT64
    ensures Weight(n, maxTotal) * maxTotal as real == Minus(maxTotal, n.used) as real
  {
    MinusIs(maxTotal, n.used);
    var w := Weight(n, maxTotal);
    assert w * maxTotal as real == ((maxTotal - n.used) % UINT64) as real;
  }

  /** Less used memory means more weight. */
  lemma WeightFalls(a: MetaNode, b: MetaNode, maxTotal: nat)
    requires 0 < maxTotal < UINT64 && a.used < b.used <= maxTotal
    ensures Weight(a, maxTotal) > Weight(b, maxTotal)
  {
    WeightIs(a, maxTotal);
    WeightIs(b, maxTotal);
    Compare(Weight(b, maxTotal), Weight(a, maxTotal), maxTotal as real);
  }

  /** A weight is never negative, and zero exactly for a node that uses as much as the largest node
      has. */
  lemma WeightZeroExactly(n: MetaNode, maxTotal: nat)
    requires 0 < maxTotal < UINT64 && n.used < UINT64
    ensures Weight(n, maxTotal) >= 0.0 && (Weight(n, maxTotal) == 0.0 <==> n.used == maxTotal)
  {
    var d := maxTotal - n.used;
    assert -UINT64 < d < UINT64 && (d % UINT64 == 0 <==> d == 0);
    var a, b := (d % UINT64) as real, maxTotal as real;
    var q := a / b;
    assert q * b == a;
    SignOf(q, b);
  }

  lemma SignOf(q: real, b: real)
    requires b > 0.0
    ensures q * b >= 0.0 <==> q >= 0.0
    ensures q * b == 0.0 <==> q == 0.0
  {
  }

  /** With a threshold of at most 1, a writable node uses less than it has, nothing wraps, and its
      weight is positive and at most 1. */
  lemma WriteAbleHasWeight(n: MetaNode, maxTotal: nat)
    requires WriteAble(n) && n.threshold <= 1.0 && n.total <= maxTotal < UINT64
    ensures n.used < n.total && maxTotal > 0 && 0.0 < Weight(n, maxTotal) <= 1.0
  {
    UsedAtMostTotal(n);
    MemLeft(n);
    var free := maxTotal - n.used;
    assert 0 < free <= maxTotal && free % UINT64 == free;
    Proportion(free as real, maxTotal as real);
  }

  lemma WriteAbleHasMemory(n: MetaNode)
    requires WriteAble(n)
    ensures n.total > 0
  {
  }

  lemma UsedAtMostTotal(n: MetaNode)
    requires !ArrivedThreshold(n) && n.threshold <= 1.0
    ensures n.used <= n.total
  {
    if n.total > 0 {
      var t := if n.threshold <= 0.0 then DEFAULT_THRESHOLD else n.threshold;
      RatioBound(n.used as real, n.total as real, t);
    }
  }

  lemma MemLeft(n: MetaNode)
    requires n.used <= n.total < UINT64 && MemAvail(n) > RESERVED_MEM
    ensures n.used < n.total
  {
  }

  lemma Proportion(a: real, b: real)
    requires 0.0 < a <= b
    ensures 0.0 < a / b <= 1.0
  {
    var q := a / b;
    assert q * b == a;
    Quotient(q, b);
  }

  lemma Quotient(q: real, b: real)
    requires b > 0.0
    ensures q * b > 0.0 ==> q > 0.0
    ensures q * b <= b ==> q <= 1.0
  {
  }

  lemma RatioBound(u: real, t: real, b: real)
    requires t > 0.0 && u / t <= b <= 1.0 && u >= 0.0
    ensures u <= t
  {
    assert u == u / t * t;
  }

  // ----- topping up -----

  function Capped(c: real): real { if c > 10.0 then 10.0 else c }

  function Topped(n: MetaNode, w: real): MetaNode { n.(carry := Capped(n.carry + w)) }

  /** After k passes: the carry has grown by k weights, up to the ceiling. */
  function ToppedBy(n: MetaNode, w: real, k: nat): MetaNode { n.(carry := Capped(n.carry + k as real * w)) }

  lemma ToppedAgain(n: MetaNode, w: real, k: nat)
    requires w >= 0.0
    ensures Topped(ToppedBy(n, w, k), w) == ToppedBy(n, w, k + 1)
  {
    assert (k + 1) as real * w == k as real * w + w;
  }

  lemma ToppedNone(n: MetaNode, w: real)
    requires n.carry <= 10.0
    ensures ToppedBy(n, w, 0) == n
  {
    assert 0 as real * w == 0.0;
  }

  ghost predicate CarryOk(n: MetaNode) {
    0.0 <= n.carry <= 10.0
  }

  /** Entries of the table are distinct nodes. */
  ghost predicate TabOk(nodes: seq<MetaNode>, tab: seq<nat>) {
    (forall i :: 0 <= i < |tab| ==> tab[i] < |nodes|) && forall i, j :: 0 <= i < j < |tab| ==> tab[i] != tab[j]
  }

  ghost predicate WeightsOk(nodes: seq<MetaNode>, ws: seq<real>) {
    |ws| == |nodes| && (forall p :: 0 <= p < |ws| ==> ws[p] >= 0.0) && forall p :: 0 <= p < |nodes| ==>
      CarryOk(nodes[p])
  }

  /** The nodes after k passes over the table; ws has the weight of every node. */
  ghost function AfterPasses(nodes: seq<MetaNode>, tab: seq<nat>, ws: seq<real>, k: nat): (ns: seq<MetaNode>)
    requires |ws| == |nodes|
    ensures |ns| == |nodes|
  {
    seq(|nodes|, p requires 0 <= p < |nodes| => if p in tab then ToppedBy(nodes[p], ws[p], k) else nodes[p])
  }

  lemma WeightEach(nodes: seq<MetaNode>, ws: seq<real>)
    requires WeightsOk(nodes, ws)
    ensures |ws| == |nodes|
  {
  }

  lemma NoPass(nodes: seq<MetaNode>, tab: seq<nat>, ws: seq<real>)
    requires WeightsOk(nodes, ws)
    ensures AfterPasses(nodes, tab, ws, 0) == nodes
  {
    forall p | 0 <= p < |nodes| ensures AfterPasses(nodes, tab, ws, 0)[p] == nodes[p] { ToppedNone(nodes[p], ws[p]); }
  }

  /** Entries that a pass counts, and entries that count before the first pass. */
  ghost function Rich(nodes: seq<MetaNode>, tab: seq<nat>): set<nat> {
    set p | p in tab && p < |nodes| && nodes[p].carry > 1.0
  }

  ghost function Able(nodes: seq<MetaNode>, tab: seq<nat>): set<nat> {
    set p | p in tab && p < |nodes| && nodes[p].carry >= 1.0
  }

  /** Entries that have, or will have, more than 1. */
  ghost function Lively(nodes: seq<MetaNode>, tab: seq<nat>, ws: seq<real>): set<nat>
    requires |ws| == |nodes|
  {
    set p | p in tab && p < |nodes| && (nodes[p].carry > 1.0 || ws[p] > 0.0)
  }

  lemma {:induction false} Sub(a: set<nat>, b: set<nat>)
    requires a <= b
    ensures |a| <= |b|
  {
    assert b == a + (b - a);
  }

  /** Enough passes for one node. */
  function Passes(c: real, w: real): (k: nat)
    requires w > 0.0
    ensures c + k as real * w > 1.0
  {
    var q := (1.0 - c) / w;
    assert q * w == 1.0 - c;
    if q < 0.0 then 0 else
      var k := q.Floor + 1;
      assert k as real > q;
      assert k as real * w > q * w by { Times(k as real, q, w); }
      k
  }

  lemma Times(a: real, b: real, w: real)
    requires a > b && w > 0.0
    ensures a * w > b * w
  {
  }

  lemma MorePasses(c: real, w: real, a: nat, k: nat)
    requires w > 0.0 && a <= k && c + a as real * w > 1.0
    ensures c + k as real * w > 1.0
  {
    if a < k { Times(k as real, a as real, w); }
  }

  function MaxPasses(nodes: seq<MetaNode>, tab: seq<nat>, ws: seq<real>): (k: nat)
    requires |ws| == |nodes|
    ensures k > 0
  {
    if tab == [] then 1 else
      var k, p := MaxPasses(nodes, tab[..|tab| - 1], ws), tab[|tab| - 1];
      if p < |nodes| && ws[p] > 0.0 && k < Passes(nodes[p].carry, ws[p]) then Passes(nodes[p].carry, ws[p]) else k
  }

  /** Enough passes for every entry with a positive weight. */
  lemma {:induction false} EnoughPasses(nodes: seq<MetaNode>, tab: seq<nat>, ws: seq<real>, p: nat)
    requires |ws| == |nodes| && p in tab && p < |nodes| && ws[p] > 0.0
    ensures nodes[p].carry + MaxPasses(nodes, tab, ws) as real * ws[p] > 1.0
    decreases |tab|
  {
    hide Passes;
    var n, k := |tab| - 1, MaxPasses(nodes, tab, ws);
    if tab[n] == p {
      MorePasses(nodes[p].carry, ws[p], Passes(nodes[p].carry, ws[p]), k);
    } else {
      assert tab == tab[..n] + [tab[n]];
      EnoughPasses(nodes, tab[..n], ws, p);
      MorePasses(nodes[p].carry, ws[p], MaxPasses(nodes, tab[..n], ws), k);
    }
  }

  /** After enough passes exactly the lively entries count; before, no others do. */
  lemma RichIsLively(nodes: seq<MetaNode>, tab: seq<nat>, ws: seq<real>, k: nat)
    requires WeightsOk(nodes, ws)
    ensures Rich(AfterPasses(nodes, tab, ws, k), tab) <= Lively(nodes, tab, ws)
    ensures k >= MaxPasses(nodes, tab, ws) ==> Rich(AfterPasses(nodes, tab, ws, k), tab) == Lively(nodes, tab, ws)
  {
    hide MaxPasses;
    var ns := AfterPasses(nodes, tab, ws, k);
    forall p | p in tab && p < |nodes| ensures p in Rich(ns, tab) ==> p in Lively(nodes, tab, ws) {
      if ws[p] == 0.0 { assert k as real * ws[p] == 0.0; }
    }
    if k >= MaxPasses(nodes, tab, ws) {
      forall p | p in Lively(nodes, tab, ws) ensures p in Rich(ns, tab) {
        if ws[p] > 0.0 {
          EnoughPasses(nodes, tab, ws, p);
          MorePasses(nodes[p].carry, ws[p], MaxPasses(nodes, tab, ws), k);
        } else {
          assert k as real * ws[p] == 0.0;
        }
      }
    }
  }

  /** The top-up loop ends if and only if enough entries can pay already, or have more than 1 or a
      weight that is not zero. */
  ghost predicate LoopEnds(nodes: seq<MetaNode>, tab: seq<nat>, ws: seq<real>, replicaNum: nat)
    requires |ws| == |nodes|
  {
    |Able(nodes, tab)| >= replicaNum || |Lively(nodes, tab, ws)| >= replicaNum
  }

  lemma LoopEndsExactly(nodes: seq<MetaNode>, tab: seq<nat>, ws: seq<real>, replicaNum: nat)
    requires WeightsOk(nodes, ws)
    ensures LoopEnds(nodes, tab, ws, replicaNum) <==>
      || |Able(nodes, tab)| >= replicaNum
      || exists k: nat :: k > 0 && |Rich(AfterPasses(nodes, tab, ws, k), tab)| >= replicaNum
  {
    hide MaxPasses, Rich, Lively, AfterPasses, Able;
    var m := MaxPasses(nodes, tab, ws);
    RichIsLively(nodes, tab, ws, m);
    if k: nat :| k > 0 && |Rich(AfterPasses(nodes, tab, ws, k), tab)| >= replicaNum {
      RichIsLively(nodes, tab, ws, k);
      Sub(Rich(AfterPasses(nodes, tab, ws, k), tab), Lively(nodes, tab, ws));
    }
  }

  /** The admin call takes any threshold. With 2.0, a node with 8 GiB of which it uses 16 is writable
      beside one with 16 GiB, has weight zero, and the loop never ends. */
  lemma LoopCanRunForever(big: MetaNode)
    requires big.total == 0x4_0000_0000 && big.used < UINT64 && !WriteAble(big) && CarryOk(big)
    ensures var n := MetaNode("n", 0x2_0000_0000, 0x4_0000_0000, true, 0, 2.0, 0.5, 0);
      && WriteAble(n) && Weight(n, 0x4_0000_0000) == 0.0
      && !LoopEnds([n, big], [0], [Weight(n, 0x4_0000_0000), 0.0], 1)
  {
    var n := MetaNode("n", 0x2_0000_0000, 0x4_0000_0000, true, 0, 2.0, 0.5, 0);
    assert n.used as real / n.total as real == 2.0;
    WeightZeroExactly(n, 0x4_0000_0000);
    var ws := [Weight(n, 0x4_0000_0000), 0.0];
    assert Able([n, big], [0]) == {} && Lively([n, big], [0], ws) == {};
  }

  // ----- selection -----

  /** order lists the positions of the table by falling carry, each once. */
  ghost predicate ByCarry(nodes: seq<MetaNode>, tab: seq<nat>, order: seq<nat>) {
    && |order| == |tab|
    && (forall i :: 0 <= i < |order| ==> order[i] < |tab| && tab[order[i]] < |nodes|)
    && (forall i, j :: 0 <= i < j < |order| ==> order[i] != order[j])
    && (forall i, j :: 0 <= i < j < |order| ==> nodes[tab[order[i]]].carry >= nodes[tab[order[j]]].carry)
  }

  /** If m entries can pay, so can the first m of the order. */
  lemma FirstHaveCarry(nodes: seq<MetaNode>, tab: seq<nat>, order: seq<nat>, m: nat)
    requires TabOk(nodes, tab) && ByCarry(nodes, tab, order) && m <= |Able(nodes, tab)|
    ensures m <= |order| && forall i :: 0 <= i < m ==> nodes[tab[order[i]]].carry >= 1.0
  {
    AbleBound(nodes, tab, order, |order|);
    forall i | 0 <= i < m ensures nodes[tab[order[i]]].carry >= 1.0 {
      if nodes[tab[order[i]]].carry < 1.0 { AbleBound(nodes, tab, order, i); }
    }
  }

  /** If no entry from i on can pay, at most i can. */
  lemma AbleBound(nodes: seq<MetaNode>, tab: seq<nat>, order: seq<nat>, i: nat)
    requires TabOk(nodes, tab) && ByCarry(nodes, tab, order) && i <= |order| &&
      (i < |order| ==> nodes[tab[order[i]]].carry < 1.0)
    ensures |Able(nodes, tab)| <= i
  {
    var front := set j | 0 <= j < i :: tab[order[j]];
    FrontSize(tab, order, i);
    forall j: nat | i <= j < |order|
      ensures nodes[tab[order[j]]].carry < 1.0
    {
      LaterIsPoorer(nodes, tab, order, i, j);
    }
    forall p | p in Able(nodes, tab) ensures p in front {
      var a :| 0 <= a < |tab| && tab[a] == p;
      OrderHits(order, |tab|, a);
      var j :| 0 <= j < |order| && order[j] == a;
    }
    Sub(Able(nodes, tab), front);
  }

  lemma LaterIsPoorer(nodes: seq<MetaNode>, tab: seq<nat>, order: seq<nat>, i: nat, j: nat)
    requires ByCarry(nodes, tab, order) && i <= j < |order|
    ensures nodes[tab[order[j]]].carry <= nodes[tab[order[i]]].carry
  {
  }

  lemma {:induction false} FrontSize(tab: seq<nat>, order: seq<nat>, i: nat)
    requires i <= |order| && forall j :: 0 <= j < |order| ==> order[j] < |tab|
    ensures |set j | 0 <= j < i :: tab[order[j]]| <= i
    decreases i
  {
    var s := set j | 0 <= j < i :: tab[order[j]];
    if i == 0 {
      assert s == {};
    } else {
      FrontSize(tab, order, i - 1);
      var t := set j | 0 <= j < i - 1 :: tab[order[j]];
      assert s == t + {tab[order[i - 1]]};
    }
  }

  /** n different numbers below n are all of them. */
  lemma OrderHits(order: seq<nat>, n: nat, a: nat)
    requires |order| == n && a < n && (forall i :: 0 <= i < n ==> order[i] < n) && forall i, j :: 0 <= i < j < n ==>
      order[i] != order[j]
    ensures exists j :: 0 <= j < n && order[j] == a
  {
    var hit := set j | 0 <= j < n :: order[j];
    HitSize(order, n);
    SameSize(hit, UpTo(n));
    assert a in hit;
  }

  lemma SameSize(a: set<nat>, b: set<nat>)
    requires a <= b && |a| == |b|
    ensures a == b
  {
    assert b == a + (b - a);
  }

  ghost function UpTo(n: nat): (s: set<nat>)
    ensures |s| == n && forall x: nat :: x in s <==> x < n
  {
    if n == 0 then {} else UpTo(n - 1) + {n - 1}
  }

  lemma {:induction false} HitSize(order: seq<nat>, i: nat)
    requires i <= |order| && forall a, b :: 0 <= a < b < |order| ==> order[a] != order[b]
    ensures |set j | 0 <= j < i :: order[j]| == i
    decreases i
  {
    var s := set j | 0 <= j < i :: order[j];
    if i == 0 {
      assert s == {};
    } else {
      HitSize(order, i - 1);
      var t := set j | 0 <= j < i - 1 :: order[j];
      assert s == t + {order[i - 1]} && order[i - 1] !in t;
    }
  }

  function Paid(n: MetaNode): MetaNode { n.(carry := n.carry - 1.0, selectCount := n.selectCount + 1) }

  /** The nodes after the first m of the order have paid. */
  ghost function AfterPaying(nodes: seq<MetaNode>, hosts: seq<string>): (ns: seq<MetaNode>)
    ensures |ns| == |nodes|
  {
    seq(|nodes|, p requires 0 <= p < |nodes| => if nodes[p].addr in hosts then Paid(nodes[p]) else nodes[p])
  }

  ghost predicate Different(hosts: seq<string>) {
    forall i, j :: 0 <= i < j < |hosts| ==> hosts[i] != hosts[j]
  }

  // ----- what a call does -----

  predicate Fits(n: MetaNode, exclude: seq<string>) { n.addr !in exclude && WriteAble(n) }

  /** The writable nodes that are not excluded. */
  ghost function EligibleSet(nodes: seq<MetaNode>, exclude: seq<string>): set<nat> {
    set p: nat | p < |nodes| && nodes[p].addr !in exclude && WriteAble(nodes[p])
  }

  function MaxTotalOf(nodes: seq<MetaNode>): nat {
    if nodes == [] then 0 else
      var m, n := MaxTotalOf(nodes[..|nodes| - 1]), nodes[|nodes| - 1];
      if n.total > m then n.total else m
  }

  lemma {:induction false} MaxTotalIs(nodes: seq<MetaNode>, p: nat)
    requires p < |nodes|
    ensures nodes[p].total <= MaxTotalOf(nodes)
    decreases |nodes|
  {
    if p < |nodes| - 1 { MaxTotalIs(nodes[..|nodes| - 1], p); }
  }

  lemma {:induction false} MaxTotalBound(nodes: seq<MetaNode>, b: nat)
    requires forall p :: 0 <= p < |nodes| ==> nodes[p].total < b
    ensures MaxTotalOf(nodes) < b || nodes == []
    decreases |nodes|
  {
    if |nodes| > 1 { MaxTotalBound(nodes[..|nodes| - 1], b); }
  }

  function WeightOf(nodes: seq<MetaNode>, p: nat): real
    requires p < |nodes|
  {
    if MaxTotalOf(nodes) > 0 then Weight(nodes[p], MaxTotalOf(nodes)) else 0.0
  }

  /** What the passes have made of node p. */
  function AfterTopUp(nodes: seq<MetaNode>, exclude: seq<string>, k: nat, p: nat): MetaNode
    requires p < |nodes|
  {
    if Fits(nodes[p], exclude) then ToppedBy(nodes[p], WeightOf(nodes, p), k) else nodes[p]
  }

  /** The call topped up every eligible node k times and made the hosts pay, which had 1 each and which
      were those with the most carry. */
  ghost predicate Called(a: seq<MetaNode>, exclude: seq<string>, k: nat, hosts: seq<string>, b: seq<MetaNode>) {
    && |b| == |a| && Different(hosts)
    && (forall h :: h in hosts ==> exists p: nat :: p < |a| && a[p].addr == h && Fits(a[p], exclude))
    && (forall p: nat :: p < |a| ==>
          var m := AfterTopUp(a, exclude, k, p);
          if a[p].addr in hosts then m.carry >= 1.0 && b[p] == Paid(m) else b[p] == m)
    && (forall p: nat, q: nat ::
          p < |a| && q < |a| && a[p].addr in hosts && a[q].addr !in hosts && Fits(a[q], exclude) ==>
          AfterTopUp(a, exclude, k, p).carry >= AfterTopUp(a, exclude, k, q).carry)
  }

  /** A carry c and k times the free memory, in units of the largest memory. */
  function Sum(c: real, max: nat, k: nat, free: int): real { c * max as real + k as real * free as real }

  lemma SumIs(c: real, max: nat, k: nat, free: int, w: real)
    requires w * max as real == free as real
    ensures Sum(c, max, k, free) == (c + k as real * w) * max as real
  {
    var m, j := max as real, k as real;
    assert (j * w) * m == j * (w * m);
  }

  ghost predicate Above(sum: real, x: real, max: nat) { sum > x * max as real }

  lemma SumAbove(c: real, max: nat, k: nat, free: int, w: real, x: real)
    requires max > 0 && w * max as real == free as real
    ensures Above(Sum(c, max, k, free), x, max) <==> c + k as real * w > x
  {
    hide Sum;
    SumIs(c, max, k, free, w);
    Compare(x, c + k as real * w, max as real);
  }

  /** Topping up from was to now, k times by a share of free in max, up to 10. */
  ghost predicate Grew(was: real, now: real, k: nat, free: int, max: nat) {
    var sum := Sum(was, max, k, free);
    if Above(sum, 10.0, max) then now == 10.0 else now * max as real == sum
  }

  /** What a call that returns hosts has done, in terms of the memory of the nodes. */
  ghost predicate Chose(a: seq<MetaNode>, exclude: seq<string>, k: nat, hosts: seq<string>, b: seq<MetaNode>) {
    && |b| == |a| && Different(hosts)
    && (forall h :: h in hosts ==> exists p: nat :: p < |a| && a[p].addr == h && Fits(a[p], exclude))
    && (forall p: nat :: p < |a| ==>
          var paid := if a[p].addr in hosts then 1 else 0;
          && b[p] == a[p].(carry := b[p].carry, selectCount := a[p].selectCount + paid) && b[p].carry >= 0.0
          && if Fits(a[p], exclude)
             then Grew(a[p].carry, b[p].carry + paid as real, k, Minus(MaxTotalOf(a), a[p].used), MaxTotalOf(a))
             else b[p] == a[p])
    && (forall p: nat, q: nat ::
          p < |a| && q < |a| && a[p].addr in hosts && a[q].addr !in hosts && Fits(a[q], exclude) ==>
          b[p].carry + 1.0 >= b[q].carry)
  }

  lemma GrewBy(n: MetaNode, max: nat, k: nat)
    requires 0 < max < UINT64 && n.used < UINT64
    ensures Grew(n.carry, ToppedBy(n, Weight(n, max), k).carry, k, Minus(max, n.used), max)
  {
    hide Weight, Sum, Above;
    var w := Weight(n, max);
    WeightIs(n, max);
    SumIs(n.carry, max, k, Minus(max, n.used), w);
    SumAbove(n.carry, max, k, Minus(max, n.used), w, 10.0);
  }

  lemma CallMeans(a: seq<MetaNode>, exclude: seq<string>, k: nat, hosts: seq<string>, b: seq<MetaNode>)
    requires NodesOk(a) && Called(a, exclude, k, hosts, b)
    ensures Chose(a, exclude, k, hosts, b)
  {
    hide Fits, Weight, MaxTotalOf, Grew, ToppedBy, Different;
    MaxTotalBound(a, UINT64);
    forall p: nat | p < |a|
      ensures var paid := if a[p].addr in hosts then 1 else 0;
        && b[p] == a[p].(carry := b[p].carry, selectCount := a[p].selectCount + paid) && b[p].carry >= 0.0
        && if Fits(a[p], exclude)
           then Grew(a[p].carry, b[p].carry + paid as real, k, Minus(MaxTotalOf(a), a[p].used), MaxTotalOf(a))
           else b[p] == a[p]
    {
      CallMeansAt(a, exclude, k, hosts, b, p);
    }
  }

  lemma HostsEligible(a: seq<MetaNode>, exclude: seq<string>, k: nat, hosts: seq<string>, b: seq<MetaNode>)
    requires Called(a, exclude, k, hosts, b)
    ensures forall h :: h in hosts ==> h !in exclude && exists p :: p in EligibleSet(a, exclude) && a[p].addr == h
  {
    hide WriteAble;
    forall h | h in hosts ensures h !in exclude && exists p :: p in EligibleSet(a, exclude) && a[p].addr == h {
      var p: nat :| p < |a| && a[p].addr == h && Fits(a[p], exclude);
      assert p in EligibleSet(a, exclude);
    }
  }

  lemma CallMeansAt(a: seq<MetaNode>, exclude: seq<string>, k: nat, hosts: seq<string>, b: seq<MetaNode>, p: nat)
    requires NodesOk(a) && Called(a, exclude, k, hosts, b) && p < |a|
    ensures var paid := if a[p].addr in hosts then 1 else 0;
      && b[p] == a[p].(carry := b[p].carry, selectCount := a[p].selectCount + paid) && b[p].carry >= 0.0
      && if Fits(a[p], exclude)
         then Grew(a[p].carry, b[p].carry + paid as real, k, Minus(MaxTotalOf(a), a[p].used), MaxTotalOf(a))
         else b[p] == a[p]
  {
    hide Fits, WeightOf, MaxTotalOf, Grew, ToppedBy, Called, Minus;
    CalledAt(a, exclude, k, hosts, b, p);
    if Fits(a[p], exclude) { FitsGrew(a, exclude, k, p); }
  }

  lemma CalledAt(a: seq<MetaNode>, exclude: seq<string>, k: nat, hosts: seq<string>, b: seq<MetaNode>, p: nat)
    requires NodesOk(a) && Called(a, exclude, k, hosts, b) && p < |a|
    ensures |b| == |a| && (a[p].addr in hosts ==> Fits(a[p], exclude))
    ensures var m := AfterTopUp(a, exclude, k, p);
      if a[p].addr in hosts then m.carry >= 1.0 && b[p] == Paid(m) else b[p] == m
  {
    hide Fits, AfterTopUp, Different;
    if a[p].addr in hosts {
      var q: nat :| q < |a| && a[q].addr == a[p].addr && Fits(a[q], exclude);
      assert q == p;
    }
  }

  lemma FitsGrew(a: seq<MetaNode>, exclude: seq<string>, k: nat, p: nat)
    requires NodesOk(a) && p < |a| && Fits(a[p], exclude)
    ensures var m := ToppedBy(a[p], WeightOf(a, p), k);
      && Grew(a[p].carry, m.carry, k, Minus(MaxTotalOf(a), a[p].used), MaxTotalOf(a))
      && m == a[p].(carry := m.carry) && m.carry >= 0.0
  {
    hide WriteAble, Weight, MaxTotalOf, Grew;
    MaxTotalBound(a, UINT64);
    MaxTotalIs(a, p);
    WriteAbleHasMemory(a[p]);
    GrewBy(a[p], MaxTotalOf(a), k);
    WeightZeroExactly(a[p], MaxTotalOf(a));
    NotNegative(k as real, WeightOf(a, p));
  }

  /** The node's carry and j shares of its free memory in max are more than 1. */
  ghost predicate Exceeds(n: MetaNode, max: nat, j: nat) {
    Above(Sum(n.carry, max, j, Minus(max, n.used)), 1.0, max)
  }

  /** Eligible nodes that have more than 1 after j passes. */
  ghost function RichAfter(nodes: seq<MetaNode>, exclude: seq<string>, j: nat): set<nat> {
    set p: nat | p < |nodes| && Fits(nodes[p], exclude) && Exceeds(nodes[p], MaxTotalOf(nodes), j)
  }

  /** No pass at all if enough eligible nodes can pay; else the first number that lets enough have more
      than 1. */
  ghost predicate Fewest(nodes: seq<MetaNode>, exclude: seq<string>, replicaNum: nat, k: nat) {
    && (k == 0 <==> |set p: nat | p < |nodes| && Fits(nodes[p], exclude) && nodes[p].carry >= 1.0| >= replicaNum)
    && (k > 0 ==> |RichAfter(nodes, exclude, k)| >= replicaNum)
    && forall j :: 0 < j < k ==> |RichAfter(nodes, exclude, j)| < replicaNum
  }

  class Cluster {
    var nodes: seq<MetaNode>

    ghost predicate Valid()
      reads this
    {
      NodesOk(nodes)
    }

    constructor (ns: seq<MetaNode>)
      requires NodesOk(ns)
      ensures Valid() && nodes == ns
    {
      nodes := ns;
    }

    /** One pass of SetNodeTabCarry over the table. */
    method TopUpOnce(tab: seq<nat>, ws: seq<real>) returns (avail: nat)
      requires TabOk(nodes, tab) && |ws| == |nodes|
      modifies this
      ensures |nodes| == |old(nodes)| && avail == |Rich(nodes, tab)|
      ensures forall p :: 0 <= p < |nodes| ==>
        nodes[p] == if p in tab then Topped(old(nodes)[p], ws[p]) else old(nodes)[p]
    {
      avail := 0;
      var i := 0;
      assert Rich(nodes, tab[..0]) == {};
      while i < |tab|
        invariant i <= |tab| && |nodes| == |old(nodes)| && avail == |Rich(nodes, tab[..i])|
        invariant forall p :: 0 <= p < |nodes| ==>
          nodes[p] == if p in tab[..i] then Topped(old(nodes)[p], ws[p]) else old(nodes)[p]
      {
        var p := tab[i];
        ghost var was := nodes;
        assert p !in tab[..i] && tab[..i + 1] == tab[..i] + [p];
        nodes := nodes[p := Topped(nodes[p], ws[p])];
        OneRicher(was, nodes, tab[..i], p);
        if nodes[p].carry > 1.0 { avail := avail + 1; }
        i := i + 1;
      }
      assert tab[..i] == tab;
    }

    /** The same, as pass k + 1 since the nodes were as in start. */
    method Pass(tab: seq<nat>, ws: seq<real>, ghost start: seq<MetaNode>, ghost k: nat) returns (avail: nat)
      requires TabOk(start, tab) && WeightsOk(start, ws) && nodes == AfterPasses(start, tab, ws, k)
      modifies this
      ensures nodes == AfterPasses(start, tab, ws, k + 1) && avail == |Rich(nodes, tab)|
    {
      KeepsTab(start, tab, ws, k);
      avail := TopUpOnce(tab, ws);
      NextPass(start, old(nodes), nodes, tab, ws, k);
    }

    /** SetNodeTabCarry: k passes, and no more than it takes. */
    method SetNodeTabCarry(tab: seq<nat>, ws: seq<real>, avail: nat, replicaNum: nat) returns (ghost k: nat)
      requires TabOk(nodes, tab) && WeightsOk(nodes, ws) && avail == |Able(nodes, tab)| &&
        LoopEnds(nodes, tab, ws, replicaNum)
      modifies this
      ensures nodes == AfterPasses(old(nodes), tab, ws, k) && |Able(nodes, tab)| >= replicaNum
      ensures k == 0 <==> avail >= replicaNum
      ensures StillShort(old(nodes), tab, ws, replicaNum, k) && (k > 0 ==> |Rich(nodes, tab)| >= replicaNum)
    {
      hide MaxPasses, AfterPasses, LoopEnds, Rich, Able, Lively, WeightsOk, TabOk, StillShort;
      WeightEach(nodes, ws);
      k := 0;
      var a := avail;
      ghost var most, start := MaxPasses(nodes, tab, ws), nodes;
      NoPass(nodes, tab, ws);
      ShortStart(nodes, tab, ws, replicaNum);
      while a < replicaNum
        invariant nodes == AfterPasses(start, tab, ws, k) && k <= most
        invariant k > 0 ==> a == |Rich(nodes, tab)| && avail < replicaNum
        invariant k == 0 ==> a == avail
        invariant StillShort(start, tab, ws, replicaNum, k)
        invariant k == most ==> a >= replicaNum
        decreases most - k
      {
        ShortStep(start, tab, ws, replicaNum, k);
        a := Pass(tab, ws, start, k);
        k := k + 1;
        if k == most { LastPass(start, tab, ws, replicaNum, avail); }
      }
      if k > 0 { RichIsAble(nodes, tab); }
    }

    /** GetAvailCarryMetaNodeTab: the eligible nodes, each once, and how many of them can pay. */
    method Eligible(exclude: seq<string>) returns (tab: seq<nat>, avail: nat)
      ensures Lists(nodes, exclude, tab) && avail == |Able(nodes, tab)|
    {
      hide Fits, Able;
      tab, avail := [], 0;
      var p: nat := 0;
      NoneListed(nodes);
      while p < |nodes|
        invariant p <= |nodes| && ListsBelow(nodes, exclude, tab, p) && avail == |Able(nodes, tab)|
      {
        if Fits(nodes[p], exclude) {
          if nodes[p].carry >= 1.0 { avail := avail + 1; }
          OneListed(nodes, exclude, tab, p);
          tab := tab + [p];
        }
        p := p + 1;
      }
      ListedSize(nodes, exclude, tab);
    }

    method MaxTotal() returns (max: nat)
      ensures max == MaxTotalOf(nodes)
    {
      max := 0;
      var i := 0;
      while i < |nodes|
        invariant i <= |nodes| && max == MaxTotalOf(nodes[..i])
      {
        assert nodes[..i + 1][..i] == nodes[..i];
        if nodes[i].total > max { max := nodes[i].total; }
        i := i + 1;
      }
      assert nodes[..i] == nodes;
    }

    /** The first replicaNum nodes of the order pay 1 each, which they have, and are returned. */
    method Select(tab: seq<nat>, order: seq<nat>, replicaNum: nat) returns (hosts: seq<string>)
      requires NodesOk(nodes) && TabOk(nodes, tab) && ByCarry(nodes, tab, order) && replicaNum <= |Able(nodes, tab)|
      modifies this
      ensures nodes == AfterPaying(old(nodes), hosts) && |hosts| == replicaNum && Firsts(old(nodes), tab, order, hosts)
    {
      hide Able;
      FirstHaveCarry(nodes, tab, order, replicaNum);
      hosts := [];
      var i := 0;
      while i < replicaNum
        invariant i <= replicaNum && nodes == AfterPaying(old(nodes), hosts) && |hosts| == i &&
          Firsts(old(nodes), tab, order, hosts)
      {
        hosts, nodes := PayNext(nodes, old(nodes), tab, order, hosts);
        i := i + 1;
      }
    }

    /** getAvailMetaNodeHosts with the shuffle's random picks as a parameter: it fails exactly when
        fewer nodes are eligible than asked for, and then changes nothing; otherwise it returns that
        many different eligible hosts, those with the most carry after the fewest passes that let
        enough of them pay. */
    method AvailHosts(exclude: seq<string>, replicaNum: nat, picks: seq<nat>)
        returns (ok: bool, hosts: seq<string>, ghost k: nat)
      requires Valid() && |picks| == replicaNum && forall i :: 0 <= i < replicaNum ==> picks[i] < replicaNum - i
      requires CallEnds(nodes, exclude, replicaNum)
      modifies this
      ensures Valid()
      ensures ok <==> replicaNum == 0 || |EligibleSet(old(nodes), exclude)| >= replicaNum
      ensures ok && replicaNum > 0 ==> |hosts| == replicaNum && Called(old(nodes), exclude, k, hosts, nodes)
      ensures ok && replicaNum > 0 ==>
        Chose(old(nodes), exclude, k, hosts, nodes) && Fewest(old(nodes), exclude, replicaNum, k)
      ensures forall h :: h in hosts ==>
        h !in exclude && exists p :: p in EligibleSet(old(nodes), exclude) && old(nodes)[p].addr == h
      ensures !ok || replicaNum == 0 ==> nodes == old(nodes) && hosts == []
    {
      hide NodesOk, CallEnds, Called, Chose, Fewest, StillShort, Able, Lively, AfterPasses, AfterPaying, EligibleSet,
        WeightOf, MaxTotalOf;
      hosts, k := [], 0;
      if replicaNum == 0 { return true, hosts, k; }
      var maxTotal := MaxTotal();
      var tab, avail := Eligible(exclude);
      if |tab| < replicaNum { return false, hosts, k; }
      var ws := seq(|nodes|, p requires 0 <= p < |nodes| reads this => WeightOf(nodes, p));
      ListedEnds(nodes, exclude, tab, ws, replicaNum);
      k := SetNodeTabCarry(tab, ws, avail, replicaNum);
      ghost var mid := nodes;
      ToppedOk(old(nodes), exclude, tab, ws, k);
      var order := SortByCarry(nodes, tab);
      var ordered := Select(tab, order, replicaNum);
      OrderedHosts(mid, tab, order, ordered);
      hosts := DisOrder(ordered, picks);
      SameMembers(ordered, hosts);
      CalledOk(old(nodes), exclude, tab, ws, k, mid, order, ordered, hosts, nodes);
      CallMeans(old(nodes), exclude, k, hosts, nodes);
      FewestPasses(old(nodes), exclude, tab, ws, replicaNum, k);
      HostsEligible(old(nodes), exclude, k, hosts, nodes);
      return true, hosts, k;
    }
  }

  /** tab has exactly the eligible nodes below p, each once. */
  ghost predicate ListsBelow(nodes: seq<MetaNode>, exclude: seq<string>, tab: seq<nat>, p: nat)
    requires p <= |nodes|
  {
    TabOk(nodes, tab) && forall q: nat :: q in tab <==> q < p && Fits(nodes[q], exclude)
  }

  ghost predicate Lists(nodes: seq<MetaNode>, exclude: seq<string>, tab: seq<nat>) {
    TabOk(nodes, tab) && |tab| == |EligibleSet(nodes, exclude)| && forall q: nat :: q in tab <==>
      q in EligibleSet(nodes, exclude)
  }

  lemma NoneListed(nodes: seq<MetaNode>)
    ensures |Able(nodes, [])| == 0
  {
    assert Able(nodes, []) == {};
  }

  lemma OneListed(nodes: seq<MetaNode>, exclude: seq<string>, tab: seq<nat>, p: nat)
    requires p < |nodes| && ListsBelow(nodes, exclude, tab, p) && Fits(nodes[p], exclude)
    ensures ListsBelow(nodes, exclude, tab + [p], p + 1)
    ensures |Able(nodes, tab + [p])| == |Able(nodes, tab)| + if nodes[p].carry >= 1.0 then 1 else 0
  {
    hide Fits;
    assert p !in tab;
    forall i | 0 <= i < |tab| ensures tab[i] != p { assert tab[i] in tab; }
    forall q: nat
      ensures q in tab + [p] <==> q < p + 1 && Fits(nodes[q], exclude)
    {
      assert q in tab + [p] <==> q in tab || q == p;
    }
    var a, b := Able(nodes, tab), Able(nodes, tab + [p]);
    assert p !in a;
    if nodes[p].carry >= 1.0 { assert b == a + {p}; } else { assert b == a; }
  }

  lemma ListedSize(nodes: seq<MetaNode>, exclude: seq<string>, tab: seq<nat>)
    requires ListsBelow(nodes, exclude, tab, |nodes|)
    ensures Lists(nodes, exclude, tab)
  {
    hide WriteAble;
    HitSize(tab, |tab|);
    assert (set j | 0 <= j < |tab| :: tab[j]) == EligibleSet(nodes, exclude);
  }

  /** The call comes to an end: not enough nodes, or enough that can pay, or that have more than 1 or
      use something else than the largest memory. */
  ghost predicate CallEnds(nodes: seq<MetaNode>, exclude: seq<string>, replicaNum: nat) {
    || replicaNum == 0 || |EligibleSet(nodes, exclude)| < replicaNum
    || |set p: nat | p in EligibleSet(nodes, exclude) && p < |nodes| && nodes[p].carry >= 1.0| >= replicaNum
    || |set p: nat | p in EligibleSet(nodes, exclude) && p < |nodes| &&
       (nodes[p].carry > 1.0 || nodes[p].used != MaxTotalOf(nodes))| >= replicaNum
  }

  /** The weights that the table gets are right, and the loop's end is the call's. */
  lemma ListedEnds(nodes: seq<MetaNode>, exclude: seq<string>, tab: seq<nat>, ws: seq<real>, replicaNum: nat)
    requires NodesOk(nodes) && Lists(nodes, exclude, tab) && |ws| == |nodes| && 0 < replicaNum <= |tab|
    requires forall p: nat :: p < |nodes| ==> ws[p] == WeightOf(nodes, p)
    ensures WeightsOk(nodes, ws) && (CallEnds(nodes, exclude, replicaNum) <==> LoopEnds(nodes, tab, ws, replicaNum))
  {
    hide Weight, MaxTotalOf, WriteAble;
    assert tab[0] in tab;
    WriteAbleHasMemory(nodes[tab[0]]);
    MaxTotalIs(nodes, tab[0]);
    MaxTotalBound(nodes, UINT64);
    var max := MaxTotalOf(nodes);
    forall p: nat | p < |nodes|
      ensures ws[p] >= 0.0 && (ws[p] == 0.0 <==> nodes[p].used == max)
    {
      WeightZeroExactly(nodes[p], max);
    }
    assert Able(nodes, tab) == set p: nat | p in EligibleSet(nodes, exclude) && p < |nodes| && nodes[p].carry >= 1.0;
    assert Lively(nodes, tab, ws) == set p: nat | p in EligibleSet(nodes, exclude) && p < |nodes| &&
      (nodes[p].carry > 1.0 || nodes[p].used != max);
  }

  lemma RichIs(nodes: seq<MetaNode>, exclude: seq<string>, tab: seq<nat>, ws: seq<real>, j: nat)
    requires NodesOk(nodes) && Lists(nodes, exclude, tab) && |ws| == |nodes| && tab != []
    requires forall p: nat :: p < |nodes| ==> ws[p] == WeightOf(nodes, p)
    ensures Rich(AfterPasses(nodes, tab, ws, j), tab) == RichAfter(nodes, exclude, j)
  {
    hide WeightOf, MaxTotalOf, Fits, ToppedBy, Lists, NodesOk, Exceeds;
    forall p: nat
      ensures p in Rich(AfterPasses(nodes, tab, ws, j), tab) <==> p in RichAfter(nodes, exclude, j)
    {
      if p < |nodes| { RichAt(nodes, exclude, tab, j, p); }
    }
  }

  lemma RichAt(nodes: seq<MetaNode>, exclude: seq<string>, tab: seq<nat>, j: nat, p: nat)
    requires NodesOk(nodes) && Lists(nodes, exclude, tab) && tab != [] && p < |nodes|
    ensures p in tab <==> Fits(nodes[p], exclude)
    ensures ToppedBy(nodes[p], WeightOf(nodes, p), j).carry > 1.0 <==> Exceeds(nodes[p], MaxTotalOf(nodes), j)
  {
    hide Weight, MaxTotalOf, WriteAble, ToppedBy, Exceeds;
    assert p in tab <==> p in EligibleSet(nodes, exclude);
    assert tab[0] in tab && tab[0] in EligibleSet(nodes, exclude);
    WriteAbleHasMemory(nodes[tab[0]]);
    MaxTotalIs(nodes, tab[0]);
    MaxTotalBound(nodes, UINT64);
    OverOne(nodes[p], MaxTotalOf(nodes), j);
  }

  lemma OverOne(n: MetaNode, max: nat, j: nat)
    requires 0 < max < UINT64 && n.used < UINT64
    ensures ToppedBy(n, Weight(n, max), j).carry > 1.0 <==> Exceeds(n, max, j)
  {
    hide Weight, Sum, Above;
    WeightIs(n, max);
    SumAbove(n.carry, max, j, Minus(max, n.used), Weight(n, max), 1.0);
  }

  lemma FewestPasses(nodes: seq<MetaNode>, exclude: seq<string>, tab: seq<nat>, ws: seq<real>, replicaNum: nat, k: nat)
    requires NodesOk(nodes) && Lists(nodes, exclude, tab) && |ws| == |nodes| && tab != []
    requires forall p: nat :: p < |nodes| ==> ws[p] == WeightOf(nodes, p)
    requires StillShort(nodes, tab, ws, replicaNum, k) && (k == 0 <==> |Able(nodes, tab)| >= replicaNum)
    requires k > 0 ==> |Rich(AfterPasses(nodes, tab, ws, k), tab)| >= replicaNum
    ensures Fewest(nodes, exclude, replicaNum, k)
  {
    hide Rich, RichAfter, AfterPasses, WeightOf, WriteAble;
    RichIs(nodes, exclude, tab, ws, k);
    forall j | 0 < j < k ensures |RichAfter(nodes, exclude, j)| < replicaNum { RichIs(nodes, exclude, tab, ws, j); }
    assert Able(nodes, tab) == set p: nat | p < |nodes| && Fits(nodes[p], exclude) && nodes[p].carry >= 1.0;
  }

  /** With thresholds of at most 1 every call ends. */
  lemma SmallThresholdsEnd(nodes: seq<MetaNode>, exclude: seq<string>, replicaNum: nat)
    requires NodesOk(nodes) && forall p :: 0 <= p < |nodes| ==> nodes[p].threshold <= 1.0
    ensures CallEnds(nodes, exclude, replicaNum)
  {
    hide MaxTotalOf, WriteAble, Weight;
    var all := EligibleSet(nodes, exclude);
    MaxTotalBound(nodes, UINT64);
    forall p | p in all ensures nodes[p].used != MaxTotalOf(nodes) {
      MaxTotalIs(nodes, p);
      WriteAbleHasWeight(nodes[p], MaxTotalOf(nodes));
    }
    assert all == set p: nat | p in all && p < |nodes| && (nodes[p].carry > 1.0 || nodes[p].used != MaxTotalOf(nodes));
  }

  lemma ToppedOk(nodes: seq<MetaNode>, exclude: seq<string>, tab: seq<nat>, ws: seq<real>, k: nat)
    requires NodesOk(nodes) && WeightsOk(nodes, ws) && TabOk(nodes, tab)
    ensures NodesOk(AfterPasses(nodes, tab, ws, k)) && TabOk(AfterPasses(nodes, tab, ws, k), tab)
  {
    hide ToppedBy;
    var ns := AfterPasses(nodes, tab, ws, k);
    forall p | 0 <= p < |nodes|
      ensures CarryOk(ns[p]) && ns[p] == nodes[p].(carry := ns[p].carry)
    {
      ToppedNode(nodes[p], ws[p], k);
    }
    assert forall i, j :: 0 <= i < j < |ns| ==> ns[i].addr == nodes[i].addr && ns[j].addr == nodes[j].addr;
  }

  lemma ToppedNode(n: MetaNode, w: real, k: nat)
    requires CarryOk(n) && w >= 0.0
    ensures var m := ToppedBy(n, w, k); CarryOk(m) && m == n.(carry := m.carry)
  {
    NotNegative(k as real, w);
  }

  lemma NotNegative(a: real, b: real)
    requires a >= 0.0 && b >= 0.0
    ensures a * b >= 0.0
  {
  }

  /** hosts are the addresses of the first of the order, each of which has 1 to pay. */
  ghost predicate Firsts(nodes: seq<MetaNode>, tab: seq<nat>, order: seq<nat>, hosts: seq<string>) {
    && |hosts| <= |order|
    && forall i :: 0 <= i < |hosts| ==>
         order[i] < |tab| && tab[order[i]] < |nodes| && hosts[i] == nodes[tab[order[i]]].addr &&
           nodes[tab[order[i]]].carry >= 1.0
  }

  /** SelectNodeForWrite on the next node of the order. */
  method PayNext(nodes: seq<MetaNode>, ghost start: seq<MetaNode>, tab: seq<nat>, order: seq<nat>, hosts: seq<string>)
    returns (hosts': seq<string>, nodes': seq<MetaNode>)
    requires NodesOk(start) && TabOk(start, tab) && ByCarry(start, tab, order) && nodes == AfterPaying(start, hosts)
    requires Firsts(start, tab, order, hosts) && |hosts| < |order| && start[tab[order[|hosts|]]].carry >= 1.0
    ensures |hosts'| == |hosts| + 1 && Firsts(start, tab, order, hosts') && nodes' == AfterPaying(start, hosts')
  {
    var i := |hosts|;
    var p := tab[order[i]];
    hosts' := hosts + [nodes[p].addr];
    nodes' := nodes[p := Paid(nodes[p])];
    NotYet(start, tab, order, hosts, i);
    forall q | 0 <= q < |start| ensures nodes'[q] == AfterPaying(start, hosts')[q] {
      if q != p { assert start[q].addr != start[p].addr; }
      assert start[q].addr in hosts' <==> start[q].addr in hosts || start[q].addr == start[p].addr;
    }
  }

  lemma NotYet(nodes: seq<MetaNode>, tab: seq<nat>, order: seq<nat>, hosts: seq<string>, i: nat)
    requires NodesOk(nodes) && TabOk(nodes, tab) && ByCarry(nodes, tab, order) && Firsts(nodes, tab, order, hosts) &&
      |hosts| == i < |order|
    ensures nodes[tab[order[i]]].addr !in hosts
  {
    forall j | 0 <= j < |hosts| ensures hosts[j] != nodes[tab[order[i]]].addr { assert tab[order[j]] != tab[order[i]]; }
  }

  lemma MidIs(start: seq<MetaNode>, exclude: seq<string>, tab: seq<nat>, ws: seq<real>, k: nat, p: nat)
    requires Lists(start, exclude, tab) && |ws| == |start| && p < |start| && ws[p] == WeightOf(start, p)
    ensures AfterPasses(start, tab, ws, k)[p] == AfterTopUp(start, exclude, k, p) &&
      AfterTopUp(start, exclude, k, p).addr == start[p].addr
    ensures p in tab <==> Fits(start[p], exclude)
  {
    hide WriteAble, WeightOf;
    assert p in tab <==> p in EligibleSet(start, exclude);
  }

  lemma CalledOk(start: seq<MetaNode>, exclude: seq<string>, tab: seq<nat>, ws: seq<real>, k: nat, mid: seq<MetaNode>,
      order: seq<nat>, ordered: seq<string>, hosts: seq<string>, end: seq<MetaNode>)
    requires Lists(start, exclude, tab) && |ws| == |start| &&
      (forall p: nat :: p < |start| ==> ws[p] == WeightOf(start, p))
    requires mid == AfterPasses(start, tab, ws, k) && NodesOk(mid) && ByCarry(mid, tab, order)
    requires Firsts(mid, tab, order, ordered) && Different(hosts) && (forall h :: h in hosts <==> h in ordered) &&
      end == AfterPaying(mid, ordered)
    ensures Called(start, exclude, k, hosts, end) && NodesOk(end)
  {
    hide WeightOf, AfterTopUp, Fits, ByCarry, AfterPasses, Lists, Different;
    forall p: nat | p < |start|
      ensures mid[p] == AfterTopUp(start, exclude, k, p) && mid[p].addr == start[p].addr &&
        (p in tab <==> Fits(start[p], exclude))
    {
      MidIs(start, exclude, tab, ws, k, p);
    }
    forall h | h in hosts ensures exists p: nat :: p < |start| && start[p].addr == h && Fits(start[p], exclude) {
      var p := HostNode(mid, tab, order, ordered, h);
      assert p < |start| && start[p].addr == h && Fits(start[p], exclude);
    }
    forall p: nat | p < |start| && mid[p].addr in hosts ensures mid[p].carry >= 1.0 {
      var q := HostNode(mid, tab, order, ordered, mid[p].addr);
      assert q == p;
    }
    forall p: nat, q: nat | p < |start| && q < |start| && start[p].addr in hosts && start[q].addr !in hosts &&
      Fits(start[q], exclude)
      ensures AfterTopUp(start, exclude, k, p).carry >= AfterTopUp(start, exclude, k, q).carry
    {
      var p' := HostNode(mid, tab, order, ordered, mid[p].addr);
      assert p' == p;
      assert q in tab;
      FirstsAreRichest(mid, tab, order, ordered, p, q);
    }
  }

  lemma FirstsAreRichest(nodes: seq<MetaNode>, tab: seq<nat>, order: seq<nat>, hosts: seq<string>, p: nat, q: nat)
    requires NodesOk(nodes) && ByCarry(nodes, tab, order) && Firsts(nodes, tab, order, hosts) && p < |nodes| &&
      q < |nodes|
    requires nodes[p].addr in hosts && nodes[q].addr !in hosts && q in tab
    ensures nodes[p].carry >= nodes[q].carry
  {
    var i :| 0 <= i < |hosts| && hosts[i] == nodes[p].addr;
    assert tab[order[i]] == p;
    var a :| 0 <= a < |tab| && tab[a] == q;
    OrderHits(order, |tab|, a);
    var j :| 0 <= j < |order| && order[j] == a;
    assert j >= |hosts|;
  }

  lemma HostNode(nodes: seq<MetaNode>, tab: seq<nat>, order: seq<nat>, hosts: seq<string>, h: string) returns (p: nat)
    requires ByCarry(nodes, tab, order) && Firsts(nodes, tab, order, hosts) && h in hosts
    ensures p in tab && p < |nodes| && nodes[p].addr == h && nodes[p].carry >= 1.0
  {
    var i :| 0 <= i < |hosts| && hosts[i] == h;
    p := tab[order[i]];
  }

  // ----- whole runs -----

  /** A call that returned, or a heartbeat (updateMetric). */
  datatype Event =
    | Call(exclude: seq<string>, k: nat, hosts: seq<string>)
    | Heartbeat(node: nat, total: nat, used: nat, active: bool, partitions: nat, threshold: real)

  ghost predicate Steps(a: seq<MetaNode>, e: Event, b: seq<MetaNode>) {
    match e
    case Call(exclude, k, hosts) => Called(a, exclude, k, hosts, b)
    case Heartbeat(p, total, used, active, partitions, threshold) =>
      && p < |a| && total < UINT64 && used < UINT64
      && b == a[p := a[p].(total := total, used := used, active := active, partitions := partitions,
         threshold := threshold)]
  }

  ghost predicate IsRun(ss: seq<seq<MetaNode>>, es: seq<Event>) {
    var n := |es|;
    |ss| == n + 1 && (n > 0 ==> IsRun(ss[..n], es[..n - 1]) && Steps(ss[n - 1], es[n - 1], ss[n]))
  }

  /** What node p accrues in one event: its weight at that time, once for every pass. */
  ghost function Gain(a: seq<MetaNode>, e: Event, p: nat): real
    requires p < |a|
  {
    if e.Call? && Fits(a[p], e.exclude) then e.k as real * WeightOf(a, p) else 0.0
  }

  ghost function Accrued(ss: seq<seq<MetaNode>>, es: seq<Event>, p: nat): real
    requires IsRun(ss, es) && forall i :: 0 <= i < |ss| ==> p < |ss[i]|
  {
    var n := |es|;
    if n == 0 then 0.0 else Accrued(ss[..n], es[..n - 1], p) + Gain(ss[n - 1], es[n - 1], p)
  }

  /** No gain of node p was cut off at 10. */
  ghost predicate BelowCeiling(ss: seq<seq<MetaNode>>, es: seq<Event>, p: nat)
    requires IsRun(ss, es) && forall i :: 0 <= i < |ss| ==> p < |ss[i]|
  {
    var n := |es|;
    n > 0 ==> BelowCeiling(ss[..n], es[..n - 1], p) && ss[n - 1][p].carry + Gain(ss[n - 1], es[n - 1], p) <= 10.0
  }

  /** How often the address of node p was returned. */
  ghost function Selected(es: seq<Event>, addr: string): nat {
    if es == [] then 0 else
      var e := es[|es| - 1];
      Selected(es[..|es| - 1], addr) + if e.Call? && addr in e.hosts then 1 else 0
  }

  lemma StepBound(a: seq<MetaNode>, e: Event, b: seq<MetaNode>, p: nat)
    requires NodesOk(a) && Steps(a, e, b) && p < |a|
    ensures NodesOk(b) && |b| == |a| && b[p].addr == a[p].addr
    ensures b[p].selectCount == a[p].selectCount + if e.Call? && a[p].addr in e.hosts then 1 else 0
    ensures b[p].carry + b[p].selectCount as real <= a[p].carry + a[p].selectCount as real + Gain(a, e, p)
    ensures a[p].carry + Gain(a, e, p) <= 10.0 ==>
      b[p].carry + b[p].selectCount as real == a[p].carry + a[p].selectCount as real + Gain(a, e, p)
  {
    hide WriteAble, Weight, MaxTotalOf, Fits;
    forall q: nat | q < |a| ensures WeightOf(a, q) >= 0.0 {
      MaxTotalBound(a, UINT64);
      if MaxTotalOf(a) > 0 { WeightZeroExactly(a[q], MaxTotalOf(a)); }
    }
    if e.Call? {
      forall q: nat | q < |a|
        ensures CarryOk(b[q]) && b[q] == a[q].(carry := b[q].carry, selectCount := b[q].selectCount)
      {
        NotNegative(e.k as real, WeightOf(a, q));
      }
    }
  }

  /** Over every run of calls and heartbeats: a node is selected at most as often as its initial
      carry and the weight it accrued pay for, exactly so if the ceiling is never met, and every carry
      stays between 0 and 10. */
  lemma {:induction false} EverySelectionIsPaid(ss: seq<seq<MetaNode>>, es: seq<Event>, p: nat)
    requires IsRun(ss, es) && NodesOk(ss[0]) && p < |ss[0]|
    ensures (forall i :: 0 <= i < |ss| ==> |ss[i]| == |ss[0]|) && NodesOk(ss[|es|]) && ss[|es|][p].addr == ss[0][p].addr
    ensures ss[|es|][p].selectCount == ss[0][p].selectCount + Selected(es, ss[0][p].addr)
    ensures Selected(es, ss[0][p].addr) as real + ss[|es|][p].carry <= ss[0][p].carry + Accrued(ss, es, p)
    ensures BelowCeiling(ss, es, p) ==>
      Selected(es, ss[0][p].addr) as real + ss[|es|][p].carry == ss[0][p].carry + Accrued(ss, es, p)
    decreases |es|
  {
    hide Steps, NodesOk, Gain;
    var n := |es|;
    if n > 0 {
      EverySelectionIsPaid(ss[..n], es[..n - 1], p);
      assert ss[..n][0] == ss[0] && ss[..n][n - 1] == ss[n - 1];
      StepBound(ss[n - 1], es[n - 1], ss[n], p);
      forall i | 0 <= i < |ss| ensures |ss[i]| == |ss[0]| { if i < n { assert ss[..n][i] == ss[i]; } }
    }
  }

  ghost predicate NodesOk(nodes: seq<MetaNode>) {
    && (forall i :: 0 <= i < |nodes| ==> CarryOk(nodes[i]) && nodes[i].total < UINT64 && nodes[i].used < UINT64)
    && (forall i, j :: 0 <= i < j < |nodes| ==> nodes[i].addr != nodes[j].addr)
  }

  /** None of the passes before the k-th was the last. */
  ghost predicate StillShort(nodes: seq<MetaNode>, tab: seq<nat>, ws: seq<real>, replicaNum: nat, k: nat)
    requires |ws| == |nodes|
  {
    forall j :: 0 < j < k ==> |Rich(AfterPasses(nodes, tab, ws, j), tab)| < replicaNum
  }

  lemma ShortStart(nodes: seq<MetaNode>, tab: seq<nat>, ws: seq<real>, replicaNum: nat)
    requires |ws| == |nodes|
    ensures StillShort(nodes, tab, ws, replicaNum, 0)
  {
  }

  lemma ShortStep(nodes: seq<MetaNode>, tab: seq<nat>, ws: seq<real>, replicaNum: nat, k: nat)
    requires |ws| == |nodes| && StillShort(nodes, tab, ws, replicaNum, k)
    requires k > 0 ==> |Rich(AfterPasses(nodes, tab, ws, k), tab)| < replicaNum
    ensures StillShort(nodes, tab, ws, replicaNum, k + 1)
  {
    hide Rich, AfterPasses;
  }

  lemma OneRicher(was: seq<MetaNode>, now: seq<MetaNode>, tab: seq<nat>, p: nat)
    requires |was| == |now| && p < |now| && p !in tab && forall q :: 0 <= q < |now| && q != p ==> now[q] == was[q]
    ensures |Rich(now, tab + [p])| == |Rich(was, tab)| + if now[p].carry > 1.0 then 1 else 0
  {
    var a, b := Rich(was, tab), Rich(now, tab + [p]);
    assert p !in a;
    forall q
      ensures q in b <==> q in a || (q == p && now[p].carry > 1.0)
    {
      assert q in tab + [p] <==> q in tab || q == p;
    }
    assert b == if now[p].carry > 1.0 then a + {p} else a;
  }

  lemma KeepsTab(nodes: seq<MetaNode>, tab: seq<nat>, ws: seq<real>, k: nat)
    requires TabOk(nodes, tab) && |ws| == |nodes|
    ensures TabOk(AfterPasses(nodes, tab, ws, k), tab)
  {
  }

  lemma NextPass(start: seq<MetaNode>, was: seq<MetaNode>, now: seq<MetaNode>, tab: seq<nat>, ws: seq<real>, k: nat)
    requires WeightsOk(start, ws) && was == AfterPasses(start, tab, ws, k) && |now| == |was|
    requires forall p :: 0 <= p < |now| ==> now[p] == if p in tab then Topped(was[p], ws[p]) else was[p]
    ensures now == AfterPasses(start, tab, ws, k + 1)
  {
    forall p | 0 <= p < |now|
      ensures now[p] == AfterPasses(start, tab, ws, k + 1)[p]
    {
      ToppedAgain(start[p], ws[p], k);
    }
  }

  lemma LastPass(nodes: seq<MetaNode>, tab: seq<nat>, ws: seq<real>, replicaNum: nat, avail: nat)
    requires WeightsOk(nodes, ws) && LoopEnds(nodes, tab, ws, replicaNum) && avail == |Able(nodes, tab)| < replicaNum
    ensures |Rich(AfterPasses(nodes, tab, ws, MaxPasses(nodes, tab, ws)), tab)| >= replicaNum
  {
    hide MaxPasses, AfterPasses, Rich, Able, Lively;
    RichIsLively(nodes, tab, ws, MaxPasses(nodes, tab, ws));
  }

  lemma RichIsAble(nodes: seq<MetaNode>, tab: seq<nat>)
    ensures |Rich(nodes, tab)| <= |Able(nodes, tab)|
  {
    Sub(Rich(nodes, tab), Able(nodes, tab));
  }

  lemma OrderedHosts(nodes: seq<MetaNode>, tab: seq<nat>, order: seq<nat>, hosts: seq<string>)
    requires NodesOk(nodes) && TabOk(nodes, tab) && ByCarry(nodes, tab, order) && Firsts(nodes, tab, order, hosts)
    ensures Different(hosts)
  {
    forall i, j | 0 <= i < j < |hosts| ensures hosts[i] != hosts[j] { assert tab[order[i]] != tab[order[j]]; }
  }

  /** sort.Sort by falling carry. */
  method SortByCarry(nodes: seq<MetaNode>, tab: seq<nat>) returns (order: seq<nat>)
    requires TabOk(nodes, tab)
    ensures ByCarry(nodes, tab, order)
  {
    order := [];
    var i := 0;
    while i < |tab|
      invariant i <= |tab| && Ranked(nodes, tab, order, i)
    {
      var k := 0;
      while k < |order| && nodes[tab[order[k]]].carry >= nodes[tab[i]].carry
        invariant k <= |order| && (k > 0 ==> nodes[tab[order[k - 1]]].carry >= nodes[tab[i]].carry)
      {
        k := k + 1;
      }
      InsertRanked(nodes, tab, order, i, k);
      order := order[..k] + [i] + order[k..];
      i := i + 1;
    }
  }

  /** order lists the positions below i by falling carry, each once. */
  ghost predicate Ranked(nodes: seq<MetaNode>, tab: seq<nat>, order: seq<nat>, i: nat)
    requires TabOk(nodes, tab) && i <= |tab|
  {
    && |order| == i && (forall a :: 0 <= a < i ==> order[a] < i)
    && (forall a, b :: 0 <= a < b < i ==>
          order[a] != order[b] && nodes[tab[order[a]]].carry >= nodes[tab[order[b]]].carry)
  }

  lemma InsertRanked(nodes: seq<MetaNode>, tab: seq<nat>, order: seq<nat>, i: nat, k: nat)
    requires TabOk(nodes, tab) && i < |tab| && Ranked(nodes, tab, order, i) && k <= |order|
    requires k > 0 ==> nodes[tab[order[k - 1]]].carry >= nodes[tab[i]].carry
    requires k < |order| ==> nodes[tab[order[k]]].carry <= nodes[tab[i]].carry
    ensures Ranked(nodes, tab, order[..k] + [i] + order[k..], i + 1)
  {
    var o := order[..k] + [i] + order[k..];
    forall a | 0 <= a < i + 1
      ensures o[a] < i + 1 && o[a] == (if a < k then order[a] else if a == k then i else order[a - 1])
    {
    }
    forall a, b | 0 <= a < b < i + 1 ensures o[a] != o[b] && nodes[tab[o[a]]].carry >= nodes[tab[o[b]]].carry {
      var a', b' := if a < k then a else a - 1, if b < k then b else b - 1;
      if a == k {
        assert k < b' ==> nodes[tab[order[k]]].carry >= nodes[tab[order[b']]].carry;
      } else if b == k {
        assert a < k - 1 ==> nodes[tab[order[a]]].carry >= nodes[tab[order[k - 1]]].carry;
      }
    }
  }

  /** One after the other is picked by its position, and the last one takes its place. */
  function Shuffled(s: seq<string>, picks: seq<nat>): seq<string>
    requires PicksOk(s, picks)
    decreases |s|
  {
    if s == [] then [] else
      var p, last := picks[0], |s| - 1;
      [s[p]] + Shuffled(s[p := s[last]][..last], picks[1..])
  }

  predicate PicksOk(s: seq<string>, picks: seq<nat>) {
    |picks| == |s| && forall k :: 0 <= k < |s| ==> picks[k] < |s| - k
  }

  lemma ShuffledStep(s: seq<string>, picks: seq<nat>, remain: nat, k: nat)
    requires 0 < remain <= |s| && k < |picks| && PicksOk(s[..remain], picks[k..])
    ensures picks[k] < remain
    ensures var rest := s[picks[k] := s[remain - 1]][..remain - 1];
      PicksOk(rest, picks[k + 1..]) && Shuffled(s[..remain], picks[k..]) == [s[picks[k]]] + Shuffled(rest,
        picks[k + 1..])
  {
    var t, ps, last := s[..remain], picks[k..], remain - 1;
    assert ps[0] == picks[k] && ps[1..] == picks[k + 1..];
    assert t[ps[0] := t[last]][..last] == s[picks[k] := s[last]][..last];
    var tail := picks[k + 1..];
    forall i | 0 <= i < |tail| ensures tail[i] < last - i { assert ps[i + 1] < remain - (i + 1); }
  }

  lemma Cancel(a: multiset<string>, b: multiset<string>, x: string)
    requires a + multiset{x} == b + multiset{x}
    ensures a == b
  {
    assert a + multiset{x} - multiset{x} == a && b + multiset{x} - multiset{x} == b;
  }

  lemma ShuffledCons(s: seq<string>, p: nat, tail: seq<nat>)
    requires p < |s| && PicksOk(s[p := s[|s| - 1]][..|s| - 1], tail)
    ensures var rest := s[p := s[|s| - 1]][..|s| - 1];
      PicksOk(s, [p] + tail) && Shuffled(s, [p] + tail) == [s[p]] + Shuffled(rest, tail)
  {
    hide Shuffled;
    var picks := [p] + tail;
    forall k | 0 <= k < |s| ensures picks[k] < |s| - k { if k > 0 { assert picks[k] == tail[k - 1]; } }
    assert s[..|s|] == s && picks[0..] == picks && picks[1..] == tail;
    ShuffledStep(s, picks, |s|, 0);
  }

  /** Every order of the hosts can come out. */
  lemma {:induction false} EveryOrderPossible(s: seq<string>, target: seq<string>) returns (picks: seq<nat>)
    requires multiset(target) == multiset(s)
    ensures PicksOk(s, picks) && Shuffled(s, picks) == target
    decreases |s|
  {
    assert |multiset(s)| == |s| && |multiset(target)| == |target|;
    if s == [] {
      picks := [];
      NoShuffle();
    } else {
      hide Shuffled, PicksOk;
      var p := FindIn(s, target[0]);
      var rest := s[p := s[|s| - 1]][..|s| - 1];
      SwapOut(s, |s|, p);
      assert s[..|s|] == s && target == [target[0]] + target[1..];
      Cancel(multiset(rest), multiset(target[1..]), s[p]);
      var tail := EveryOrderPossible(rest, target[1..]);
      ShuffledCons(s, p, tail);
      picks := [p] + tail;
    }
  }

  lemma FindIn(s: seq<string>, x: string) returns (p: nat)
    requires x in multiset(s)
    ensures p < |s| && s[p] == x
  {
    p :| 0 <= p < |s| && s[p] == x;
  }

  lemma NoShuffle()
    ensures Shuffled([], []) == []
  {
  }

  /** DisOrderArray: picks[k] is the random position among those not yet taken. */
  method DisOrder(hosts: seq<string>, picks: seq<nat>) returns (shuffled: seq<string>)
    requires PicksOk(hosts, picks)
    ensures multiset(shuffled) == multiset(hosts) && |shuffled| == |hosts| && shuffled == Shuffled(hosts, picks)
  {
    hide Shuffled;
    var rest := hosts;
    assert rest[..|hosts|] == hosts && picks[0..] == picks;
    shuffled := [];
    var k := 0;
    while k < |hosts|
      invariant k <= |hosts| && |shuffled| == k && |rest| == |hosts|
      invariant PicksOk(rest[..|hosts| - k], picks[k..])
      invariant Shuffled(hosts, picks) == shuffled + Shuffled(rest[..|hosts| - k], picks[k..])
    {
      var remain := |hosts| - k;
      ShuffledStep(rest, picks, remain, k);
      var p := picks[k];
      shuffled := shuffled + [rest[p]];
      rest := rest[p := rest[remain - 1]];
      k := k + 1;
    }
    assert rest[..0] == [] && picks[k..] == [];
    NoShuffle();
    ShuffledPermutes(hosts, picks);
  }

  lemma {:induction false} ShuffledPermutes(s: seq<string>, picks: seq<nat>)
    requires PicksOk(s, picks)
    ensures multiset(Shuffled(s, picks)) == multiset(s)
    decreases |s|
  {
    if s == [] {
      NoShuffle();
      assert picks == [];
    } else {
      hide Shuffled, PicksOk;
      var p, rest, tail := ShuffledFront(s, picks);
      ShuffledPermutes(rest, tail);
      assert multiset([s[p]] + Shuffled(rest, tail)) == multiset{s[p]} + multiset(Shuffled(rest, tail));
    }
  }

  lemma ShuffledFront(s: seq<string>, picks: seq<nat>) returns (p: nat, rest: seq<string>, tail: seq<nat>)
    requires PicksOk(s, picks) && s != []
    ensures p < |s| && |rest| < |s| && PicksOk(rest, tail) && Shuffled(s, picks) == [s[p]] + Shuffled(rest, tail)
    ensures multiset(rest) + multiset{s[p]} == multiset(s)
  {
    hide Shuffled;
    assert s[..|s|] == s && picks[0..] == picks;
    ShuffledStep(s, picks, |s|, 0);
    SwapOut(s, |s|, picks[0]);
    p, rest, tail := picks[0], s[picks[0] := s[|s| - 1]][..|s| - 1], picks[1..];
  }

  lemma SwapOut(s: seq<string>, remain: nat, p: nat)
    requires p < remain <= |s|
    ensures multiset(s[p := s[remain - 1]][..remain - 1]) + multiset{s[p]} == multiset(s[..remain])
  {
    var t := s[..remain];
    var last := remain - 1;
    assert t == t[..last] + [t[last]];
    if p < last {
      assert s[p := s[last]][..last] == t[..last][p := t[last]];
      assert multiset(t[..last][p := t[last]]) == multiset(t[..last]) - multiset{t[p]} + multiset{t[last]};
    } else {
      assert s[p := s[last]][..last] == t[..last];
    }
  }

  lemma SameMembers(a: seq<string>, b: seq<string>)
    requires multiset(a) == multiset(b)
    ensures |a| == |b| && (forall h :: h in b <==> h in a) && (Different(a) ==> Different(b))
  {
    assert |multiset(a)| == |a| && |multiset(b)| == |b|;
    forall h ensures h in b <==> h in a { assert h in multiset(b) <==> h in b; assert h in multiset(a) <==> h in a; }
    if Different(a) {
      forall i, j | 0 <= i < j < |b| ensures b[i] != b[j] {
        if b[i] == b[j] {
          TwiceCounts(b, i, j);
          OnceCounts(a, b[i]);
        }
      }
    }
  }

  lemma TwiceCounts(b: seq<string>, i: nat, j: nat)
    requires i < j < |b| && b[i] == b[j]
    ensures multiset(b)[b[i]] >= 2
  {
    assert b == b[..j] + [b[j]] + b[j + 1..];
    assert b[i] in b[..j];
  }

  lemma {:induction false} OnceCounts(a: seq<string>, h: string)
    requires Different(a)
    ensures multiset(a)[h] <= 1
    decreases |a|
  {
    if a != [] {
      var n := |a| - 1;
      OnceCounts(a[..n], h);
      assert a == a[..n] + [a[n]];
      if a[n] == h {
        forall i | 0 <= i < n ensures a[..n][i] != h { assert a[i] != a[n]; }
      }
    }
  }
}
