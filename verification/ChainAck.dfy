/** Chain replication of the data nodes: a packet carries the addresses still to visit, every node
    forwards it before executing it, and answers only after the next node has answered. */
module ChainAck {

  // ----- addressing, in 8-bit arithmetic -----

  const UINT8 := 256

  datatype Hop = Mismatch | Last | NextAt(addr: string)

  /** GetNextAddr with the packet's goals and Nodes, both 8-bit. */
  function GetNextAddr(addrs: seq<string>, goals: nat, nodes: nat): Hop
    requires goals < UINT8 && nodes < UINT8 && |addrs| == goals
  {
    var sub := (goals + UINT8 - nodes) % UINT8;
    if sub < 0 || sub > goals || (sub == goals && nodes != 0) then Mismatch
    else if sub == goals && nodes == 0 then Last
    else NextAt(addrs[sub])
  }

  /** Despite the wrap-around, GetNextAddr refuses exactly the packets with more hops left than
      addresses, and otherwise picks the address that many places before the end. */
  lemma NextAddrExact(addrs: seq<string>, goals: nat, nodes: nat)
    requires goals < UINT8 && nodes < UINT8 && |addrs| == goals
    ensures GetNextAddr(addrs, goals, nodes) ==
      if nodes > goals then Mismatch else if nodes == 0 then Last else NextAt(addrs[goals - nodes])
  {
  }

  /** The addresses a packet is sent on to, each forward lowering Nodes by one. */
  function Route(addrs: seq<string>, goals: nat, nodes: nat): seq<string>
    requires goals < UINT8 && nodes < UINT8 && |addrs| == goals
    decreases nodes
  {
    match GetNextAddr(addrs, goals, nodes)
    case NextAt(a) => if nodes == 0 then [] else [a] + Route(addrs, goals, nodes - 1)
    case _ => []
  }

  /** The packet visits the last replicas of the list in order, each once, and stops after the last
      one; a packet with more hops left than addresses goes nowhere. */
  lemma {:induction false} RouteVisits(addrs: seq<string>, goals: nat, nodes: nat)
    requires goals < UINT8 && nodes < UINT8 && |addrs| == goals
    ensures Route(addrs, goals, nodes) == if nodes > goals then [] else addrs[goals - nodes..]
    decreases nodes
  {
    NextAddrExact(addrs, goals, nodes);
    if 0 < nodes <= goals { RouteVisits(addrs, goals, nodes - 1); }
  }

  /** UnmarshalAddrs: goals is the length of the list in eight bits, and only so many are kept. */
  function UnmarshalAddrs(listed: seq<string>): (addrs: seq<string>) {
    listed[..|listed| % UINT8]
  }

  /** A packet sent to all of a list, of any length: it visits as many as the eight-bit count of the
      list says, so it visits them all if and only if the list is shorter than 256. */
  lemma RouteVisitsAll(listed: seq<string>)
    ensures var n := |listed| % UINT8; Route(UnmarshalAddrs(listed), n, n) == listed[..n]
    ensures var n := |listed| % UINT8; Route(UnmarshalAddrs(listed), n, n) == listed <==> |listed| < UINT8
  {
    RouteVisits(UnmarshalAddrs(listed), |listed| % UINT8, |listed| % UINT8);
  }

  // ----- one node's handler -----

  /** What identifies a request on a connection. */
  datatype Key = Key(reqId: nat, partition: nat, file: nat, offset: nat, crc: nat)

  datatype Local = Waiting | Executed | Failed

  /** An in-flight transit request: whether it went out to the next node, and its local result. */
  datatype Sent = Sent(key: Key, out: bool, local: Local)

  datatype Reply = Reply(key: Key, ok: bool)

  /** begun and answered only record history. */
  datatype Node = Node(inbox: seq<Key>, sent: seq<Sent>, tokens: nat, replies: seq<Reply>,
                       done: set<Key>, begun: seq<Key>, answered: seq<Reply>)

  /** sendToNext: the request joins the list before anything else happens to it. */
  function Begin(n: Node, out: bool): Node
    requires n.inbox != []
  {
    n.(inbox := n.inbox[1..], sent := n.sent + [Sent(n.inbox[0], out, Waiting)], begun := n.begun + [n.inbox[0]])
  }

  /** The rest of doRequestCh: execute, then leave a token for the receiver. A packet that could not
      be sent is executed only if it is a delete. */
  function Operate(n: Node, deletes: bool, ok: bool): Node
    requires n.sent != []
  {
    var i := |n.sent| - 1;
    var q := n.sent[i];
    var run := q.out || deletes;
    var local := if run && ok then Executed else Failed;
    n.(sent := n.sent[i := q.(local := local)], tokens := n.tokens + 1,
       done := if run && ok then n.done + {q.key} else n.done)
  }

  /** The answer receiveFromNext gives for the oldest request, given what came from the next node. */
  function Verdict(q: Sent, got: Reply, read: bool): bool {
    q.out && q.local.Executed? && read && got.key == q.key && got.ok
  }

  function Receive(n: Node, ok: bool): Node
    requires n.sent != [] && n.tokens > 0
  {
    var r := Reply(n.sent[0].key, ok);
    n.(sent := n.sent[1..], tokens := n.tokens - 1, replies := n.replies + [r], answered := n.answered + [r])
  }

  /** The last node: execute and answer at once. */
  function Finish(n: Node, ok: bool): Node
    requires n.inbox != []
  {
    var r := Reply(n.inbox[0], ok);
    n.(inbox := n.inbox[1..], done := if ok then n.done + {r.key} else n.done, begun := n.begun + [r.key],
       replies := n.replies + [r], answered := n.answered + [r])
  }

  function ReplyKeys(rs: seq<Reply>): (ks: seq<Key>)
    ensures |ks| == |rs|
  {
    seq(|rs|, i requires 0 <= i < |rs| => rs[i].key)
  }

  function SentKeys(ss: seq<Sent>): (ks: seq<Key>)
    ensures |ks| == |ss|
  {
    seq(|ss|, i requires 0 <= i < |ss| => ss[i].key)
  }

  /** One token per executed request, so the receiver always finds an executed one in front; and
      the answers so far, followed by the requests in flight, are all requests in order. */
  ghost predicate NodeOk(n: Node) {
    && n.tokens <= |n.sent| <= n.tokens + 1
    && (forall i :: 0 <= i < |n.sent| ==> (n.sent[i].local.Waiting? <==> i >= n.tokens))
    && (forall i :: 0 <= i < |n.sent| && n.sent[i].local.Executed? ==> n.sent[i].key in n.done)
    && n.begun == ReplyKeys(n.answered) + SentKeys(n.sent)
    && (forall r :: r in n.replies ==> r in n.answered)
  }

  lemma BeginOk(n: Node, out: bool)
    requires NodeOk(n) && n.inbox != [] && |n.sent| == n.tokens
    ensures NodeOk(Begin(n, out))
  {
    var n' := Begin(n, out);
    assert SentKeys(n'.sent) == SentKeys(n.sent) + [n.inbox[0]];
  }

  lemma OperateOk(n: Node, deletes: bool, ok: bool)
    requires NodeOk(n) && |n.sent| == n.tokens + 1
    ensures NodeOk(Operate(n, deletes, ok))
    ensures var q := n.sent[|n.sent| - 1];
      forall k :: k in Operate(n, deletes, ok).done <==> k in n.done || (k == q.key && ok && (q.out || deletes))
  {
    assert SentKeys(Operate(n, deletes, ok).sent) == SentKeys(n.sent);
  }

  lemma ReceiveOk(n: Node, ok: bool)
    requires NodeOk(n) && n.tokens > 0
    ensures NodeOk(Receive(n, ok)) && n.sent != [] && !n.sent[0].local.Waiting?
  {
    var n' := Receive(n, ok);
    assert ReplyKeys(n'.answered) == ReplyKeys(n.answered) + [n.sent[0].key];
    assert SentKeys(n.sent) == [n.sent[0].key] + SentKeys(n'.sent);
  }

  lemma FinishOk(n: Node, ok: bool)
    requires NodeOk(n) && n.inbox != [] && n.sent == []
    ensures NodeOk(Finish(n, ok))
  {
    var n' := Finish(n, ok);
    assert ReplyKeys(n'.answered) == ReplyKeys(n.answered) + [n.inbox[0]];
    assert SentKeys(n'.sent) == [] && SentKeys(n.sent) == [];
  }

  /** Exactly one answer per request, in the order the requests came. */
  lemma OneReplyEach(n: Node)
    requires NodeOk(n)
    ensures |n.answered| <= |n.begun| && forall i :: 0 <= i < |n.answered| ==> n.answered[i].key == n.begun[i]
    ensures n.sent == [] ==> |n.answered| == |n.begun|
  {
    forall i | 0 <= i < |n.answered|
      ensures n.answered[i].key == n.begun[i]
    {
      assert n.begun[i] == ReplyKeys(n.answered)[i];
    }
  }

  // ----- the chain -----

  datatype Event =
    | Request(key: Key)                              // a request reaches the head
    | BeginAt(k: nat, out: bool)
    | OperateAt(k: nat, deletes: bool, ok: bool)
    | ReceiveAt(k: nat, read: bool)                  // read: the next node's oldest reply was read
    | FinishAt(k: nat, ok: bool)
    | Cut(k: nat)                                    // the connection below k is lost, with its replies

  type Chain = seq<Node>

  predicate Enabled(c: Chain, e: Event) {
    match e
    case Request(_) => |c| > 0
    case BeginAt(k, _) => k + 1 < |c| && c[k].inbox != [] && |c[k].sent| == c[k].tokens
    case OperateAt(k, _, _) => k + 1 < |c| && |c[k].sent| == c[k].tokens + 1
    case ReceiveAt(k, read) => k + 1 < |c| && c[k].sent != [] && c[k].tokens > 0 && (read ==> c[k + 1].replies != [])
    case FinishAt(k, _) => k + 1 == |c| && c[k].inbox != []
    case Cut(k) => k + 1 < |c|
  }

  /** receiveFromNext reads from the connection only when the request went out and succeeded here. */
  predicate Reads(n: Node, read: bool)
    requires n.sent != []
  {
    read && n.sent[0].out && n.sent[0].local.Executed?
  }

  function Step(c: Chain, e: Event): Chain
    requires Enabled(c, e)
  {
    match e
    case Request(key) => c[0 := c[0].(inbox := c[0].inbox + [key])]
    case BeginAt(k, out) =>
      var c' := c[k := Begin(c[k], out)];
      if out then c'[k + 1 := c[k + 1].(inbox := c[k + 1].inbox + [c[k].inbox[0]])] else c'
    case OperateAt(k, deletes, ok) => c[k := Operate(c[k], deletes, ok)]
    case ReceiveAt(k, read) =>
      if Reads(c[k], read) then
        var got := c[k + 1].replies[0];
        c[k := Receive(c[k], Verdict(c[k].sent[0], got, true))][k + 1 := c[k + 1].(replies := c[k + 1].replies[1..])]
      else c[k := Receive(c[k], false)]
    case FinishAt(k, ok) => c[k := Finish(c[k], ok)]
    case Cut(k) => c[k + 1 := c[k + 1].(replies := [])]
  }

  /** An OK answer of node k means that k and every node after it executed the request. */
  ghost predicate OkMeansAll(c: Chain) {
    forall k, r, j :: 0 <= k < |c| && r in c[k].answered && r.ok && k <= j < |c| ==> r.key in c[j].done
  }

  ghost predicate Inv(c: Chain) {
    && (forall k :: 0 <= k < |c| ==> NodeOk(c[k]))
    && (|c| > 0 ==> c[|c| - 1].sent == [])
    && OkMeansAll(c)
  }

  /** A new OK answer of node k is backed by k and by every node after it. */
  ghost predicate Backed(c: Chain, k: nat, n: Node, r: Reply)
    requires k < |c|
  {
    r.key in n.done && forall j :: k < j < |c| ==> r.key in c[j].done
  }

  /** Changing one node keeps the invariant if its answers stay backed. */
  lemma NodeChanged(c: Chain, k: nat, n: Node)
    requires Inv(c) && k < |c| && NodeOk(n) && c[k].done <= n.done && (k == |c| - 1 ==> n.sent == [])
    requires forall r :: r in n.answered && r.ok && r !in c[k].answered ==> Backed(c, k, n, r)
    ensures Inv(c[k := n])
  {
    hide NodeOk;
    var d := c[k := n];
    forall i, r, j | 0 <= i < |d| && r in d[i].answered && r.ok && i <= j < |d| ensures r.key in d[j].done {
      if i != k || r in c[k].answered {
        assert r in c[i].answered && r.key in c[j].done;
      } else {
        assert Backed(c, k, n, r);
      }
    }
    forall i | 0 <= i < |d| ensures NodeOk(d[i]) { if i != k { assert NodeOk(c[i]); } }
  }

  lemma StepKeeps(c: Chain, e: Event)
    requires Inv(c) && Enabled(c, e)
    ensures Inv(Step(c, e)) && |Step(c, e)| == |c|
  {
    hide NodeOk, OkMeansAll;
    match e {
      case Request(key) =>
        assert NodeOk(c[0]);
        InboxOk(c[0], c[0].inbox + [key]);
        NodeChanged(c, 0, c[0].(inbox := c[0].inbox + [key]));
      case BeginAt(k, out) => BeginKeeps(c, k, out);
      case OperateAt(k, deletes, ok) =>
        assert NodeOk(c[k]);
        OperateOk(c[k], deletes, ok);
        NodeChanged(c, k, Operate(c[k], deletes, ok));
      case ReceiveAt(k, read) => ReceiveKeeps(c, k, read);
      case FinishAt(k, ok) =>
        assert NodeOk(c[k]);
        FinishOk(c[k], ok);
        NodeChanged(c, k, Finish(c[k], ok));
      case Cut(k) =>
        assert NodeOk(c[k + 1]);
        RepliesOk(c[k + 1], []);
        NodeChanged(c, k + 1, c[k + 1].(replies := []));
    }
  }

  lemma BeginKeeps(c: Chain, k: nat, out: bool)
    requires Inv(c) && Enabled(c, BeginAt(k, out))
    ensures Inv(Step(c, BeginAt(k, out)))
  {
    hide NodeOk, OkMeansAll;
    assert NodeOk(c[k]) && NodeOk(c[k + 1]);
    BeginOk(c[k], out);
    NodeChanged(c, k, Begin(c[k], out));
    if out {
      var m := c[k + 1].(inbox := c[k + 1].inbox + [c[k].inbox[0]]);
      InboxOk(c[k + 1], m.inbox);
      NodeChanged(c[k := Begin(c[k], out)], k + 1, m);
    }
  }

  lemma InboxOk(n: Node, inbox: seq<Key>)
    requires NodeOk(n)
    ensures NodeOk(n.(inbox := inbox))
  {
  }

  lemma RepliesOk(n: Node, rs: seq<Reply>)
    requires NodeOk(n) && forall r :: r in rs ==> r in n.answered
    ensures NodeOk(n.(replies := rs))
  {
  }

  lemma ReceiveKeeps(c: Chain, k: nat, read: bool)
    requires Inv(c) && Enabled(c, ReceiveAt(k, read))
    ensures Inv(Step(c, ReceiveAt(k, read)))
  {
    hide NodeOk;
    var n, m := c[k], c[k + 1];
    assert NodeOk(n) && NodeOk(m);
    if Reads(n, read) {
      var got := m.replies[0];
      var ok := Verdict(n.sent[0], got, true);
      GotFacts(n, m);
      ReceiveOk(n, ok);
      NodeChanged(c, k, Receive(n, ok));
      RepliesOk(m, m.replies[1..]);
      NodeChanged(c[k := Receive(n, ok)], k + 1, m.(replies := m.replies[1..]));
    } else {
      ReceiveOk(n, false);
      NodeChanged(c, k, Receive(n, false));
    }
  }

  lemma GotFacts(n: Node, m: Node)
    requires NodeOk(n) && NodeOk(m) && m.replies != [] && n.sent != []
    ensures m.replies[0] in m.answered && (n.sent[0].local.Executed? ==> n.sent[0].key in n.done)
    ensures forall r :: r in m.replies[1..] ==> r in m.answered
  {
    assert m.replies[0] in m.replies;
  }

  ghost predicate Reaches(c: Chain, es: seq<Event>, d: Chain)
    decreases |es|
  {
    if es == [] then c == d else Enabled(c, es[0]) && Reaches(Step(c, es[0]), es[1..], d)
  }

  /** In every run, with failures and lost connections anywhere: if the head answers OK, every
      replica on the chain executed the request. */
  lemma {:induction false} EveryRunIsSafe(c: Chain, es: seq<Event>, d: Chain)
    requires Inv(c) && Reaches(c, es, d)
    ensures Inv(d) && |d| == |c|
    decreases |es|
  {
    hide Inv, Enabled, Step;
    if es != [] {
      StepKeeps(c, es[0]);
      EveryRunIsSafe(Step(c, es[0]), es[1..], d);
    }
  }

  function Idle(): Node { Node([], [], 0, [], {}, [], []) }

  lemma HeadOkMeansEveryReplica(n: nat, es: seq<Event>, d: Chain, r: Reply)
    requires n > 0 && Reaches(seq(n, i => Idle()), es, d) && |d| == n && r in d[0].answered && r.ok
    ensures forall j :: 0 <= j < n ==> r.key in d[j].done
  {
    hide NodeOk;
    var c := seq(n, i => Idle());
    assert Inv(c) by { IdleOk(); }
    EveryRunIsSafe(c, es, d);
  }

  lemma IdleOk()
    ensures NodeOk(Idle())
  {
  }

  // ----- what it takes to be answered OK -----

  /** One receive: the oldest request is answered, and with OK if and only if it went out, was executed
      here, and the reply read for it has its key and is OK. */
  lemma ReceiveExactly(c: Chain, k: nat, read: bool)
    requires Enabled(c, ReceiveAt(k, read))
    ensures var q, n, d := c[k].sent[0], |c[k].answered|, Step(c, ReceiveAt(k, read));
      && |d| == |c| && |d[k].answered| == n + 1 && d[k].answered[..n] == c[k].answered && d[k].answered[n].key == q.key
      && (d[k].answered[n].ok <==>
           q.out && q.local.Executed? && read && c[k + 1].replies[0] == Reply(q.key, true))
  {
  }

  /** Nothing goes wrong: packets go out, requests are executed, replies are read, no connection is
      cut. */
  predicate Smooth(e: Event) {
    match e
    case Request(_) => true
    case BeginAt(_, out) => out
    case OperateAt(_, _, ok) => ok
    case ReceiveAt(_, read) => read
    case FinishAt(_, ok) => ok
    case Cut(_) => false
  }

  ghost predicate Well(n: Node) {
    && (forall i :: 0 <= i < |n.sent| ==> n.sent[i].out && !n.sent[i].local.Failed?)
    && (forall r :: r in n.answered ==> r.ok)
  }

  /** The requests a node has in hand, as the node before it counts them: answered and not yet read,
      sent on, not begun. */
  function InHand(n: Node): seq<Key> {
    ReplyKeys(n.replies) + SentKeys(n.sent) + n.inbox
  }

  /** Every node waits for exactly what the next one has in hand, in the same order. */
  ghost predicate SmoothInv(c: Chain) {
    && Inv(c)
    && (forall k :: 0 <= k < |c| ==> Well(c[k]))
    && (forall k :: 0 < k < |c| ==> SentKeys(c[k - 1].sent) == InHand(c[k]))
  }

  lemma RequestWell(n: Node, key: Key)
    requires Well(n)
    ensures Well(n.(inbox := n.inbox + [key])) && InHand(n.(inbox := n.inbox + [key])) == InHand(n) + [key]
  {
  }

  lemma BeginWell(n: Node)
    requires Well(n) && n.inbox != []
    ensures Well(Begin(n, true)) && InHand(Begin(n, true)) == InHand(n)
    ensures SentKeys(Begin(n, true).sent) == SentKeys(n.sent) + [n.inbox[0]]
  {
    assert SentKeys(Begin(n, true).sent) == SentKeys(n.sent) + [n.inbox[0]];
    assert n.inbox == [n.inbox[0]] + n.inbox[1..];
  }

  lemma OperateWell(n: Node, deletes: bool)
    requires NodeOk(n) && Well(n) && |n.sent| == n.tokens + 1
    ensures Well(Operate(n, deletes, true)) && InHand(Operate(n, deletes, true)) == InHand(n)
    ensures SentKeys(Operate(n, deletes, true).sent) == SentKeys(n.sent)
  {
    assert SentKeys(Operate(n, deletes, true).sent) == SentKeys(n.sent);
  }

  lemma FrontKeys(n: Node)
    ensures n.sent != [] ==> SentKeys(n.sent) == [n.sent[0].key] + SentKeys(n.sent[1..])
    ensures n.replies != [] ==> ReplyKeys(n.replies) == [n.replies[0].key] + ReplyKeys(n.replies[1..])
  {
  }

  /** The reply in front is for the oldest request. */
  lemma RepliesMatch(n: Node, next: Node)
    requires NodeOk(n) && NodeOk(next) && Well(n) && Well(next) && SentKeys(n.sent) == InHand(next)
    requires n.tokens > 0 && n.sent != [] && next.replies != []
    ensures Reads(n, true) && Verdict(n.sent[0], next.replies[0], true)
    ensures SentKeys(n.sent[1..]) == InHand(next.(replies := next.replies[1..]))
  {
    FrontKeys(n);
    FrontKeys(next);
    assert SentKeys(n.sent)[0] == ReplyKeys(next.replies)[0];
    assert next.replies[0] in next.replies;
    assert SentKeys(n.sent)[1..] == SentKeys(n.sent[1..]);
    assert InHand(next)[1..] == InHand(next.(replies := next.replies[1..]));
  }

  lemma ReceiveInHand(n: Node)
    requires n.tokens > 0 && n.sent != []
    ensures InHand(Receive(n, true)) == InHand(n)
  {
    FrontKeys(n);
    assert ReplyKeys(Receive(n, true).replies) == ReplyKeys(n.replies) + [n.sent[0].key];
  }

  lemma ReceiveWell(n: Node, next: Node)
    requires NodeOk(n) && NodeOk(next) && Well(n) && Well(next) && SentKeys(n.sent) == InHand(next)
    requires n.tokens > 0 && n.sent != [] && next.replies != []
    ensures Reads(n, true) && Verdict(n.sent[0], next.replies[0], true)
    ensures Well(Receive(n, true)) && InHand(Receive(n, true)) == InHand(n)
    ensures SentKeys(Receive(n, true).sent) == InHand(next.(replies := next.replies[1..]))
  {
    hide InHand, NodeOk, SentKeys, ReplyKeys, Verdict, Reads;
    RepliesMatch(n, next);
    ReceiveInHand(n);
  }

  lemma FinishWell(n: Node)
    requires Well(n) && n.inbox != [] && n.sent == []
    ensures Well(Finish(n, true)) && InHand(Finish(n, true)) == InHand(n) && Finish(n, true).sent == []
  {
    assert ReplyKeys(Finish(n, true).replies) == ReplyKeys(n.replies) + [n.inbox[0]];
    assert n.inbox == [n.inbox[0]] + n.inbox[1..] && SentKeys(n.sent) == [];
  }

  /** One node has changed, and its neighbours do not notice. */
  lemma OneChanged(c: Chain, k: nat, n: Node)
    requires SmoothInv(c) && k < |c| && Well(n) && Inv(c[k := n])
    requires SentKeys(n.sent) == SentKeys(c[k].sent) && (k > 0 ==> InHand(n) == InHand(c[k]))
    ensures SmoothInv(c[k := n])
  {
    hide Inv, Well, InHand;
  }

  /** Two neighbours have changed together. */
  lemma TwoChanged(c: Chain, k: nat, n: Node, m: Node)
    requires SmoothInv(c) && k + 1 < |c| && Well(n) && Well(m) && Inv(c[k := n][k + 1 := m])
    requires InHand(n) == InHand(c[k]) && SentKeys(n.sent) == InHand(m) && SentKeys(m.sent) == SentKeys(c[k + 1].sent)
    ensures SmoothInv(c[k := n][k + 1 := m])
  {
    hide Inv, Well, InHand;
  }

  lemma SmoothStep(c: Chain, e: Event)
    requires SmoothInv(c) && Enabled(c, e) && Smooth(e)
    ensures SmoothInv(Step(c, e)) && |Step(c, e)| == |c|
  {
    hide NodeOk, OkMeansAll, Well, InHand, Begin, Operate, Receive, Finish;
    StepKeeps(c, e);
    match e {
      case Request(key) =>
        RequestWell(c[0], key);
        OneChanged(c, 0, c[0].(inbox := c[0].inbox + [key]));
      case BeginAt(k, _) =>
        var key := c[k].inbox[0];
        BeginWell(c[k]);
        RequestWell(c[k + 1], key);
        TwoChanged(c, k, Begin(c[k], true), c[k + 1].(inbox := c[k + 1].inbox + [key]));
      case OperateAt(k, deletes, _) =>
        assert NodeOk(c[k]);
        OperateWell(c[k], deletes);
        OneChanged(c, k, Operate(c[k], deletes, true));
      case ReceiveAt(k, _) =>
        assert NodeOk(c[k]) && NodeOk(c[k + 1]) && SentKeys(c[k].sent) == InHand(c[k + 1]);
        ReceiveWell(c[k], c[k + 1]);
        TwoChanged(c, k, Receive(c[k], true), c[k + 1].(replies := c[k + 1].replies[1..])) by {
          SameWell(c[k + 1], c[k + 1].(replies := c[k + 1].replies[1..]));
        }
      case FinishAt(k, _) =>
        FinishWell(c[k]);
        OneChanged(c, k, Finish(c[k], true));
    }
  }

  lemma SameWell(n: Node, m: Node)
    requires Well(n) && m.sent == n.sent && m.answered == n.answered
    ensures Well(m)
  {
  }

  /** The requests that reached the head. */
  function Requested(es: seq<Event>): seq<Key> {
    if es == [] then [] else (if es[0].Request? then [es[0].key] else []) + Requested(es[1..])
  }

  ghost predicate AllSmooth(es: seq<Event>) {
    forall i :: 0 <= i < |es| ==> Smooth(es[i])
  }

  /** What the head has begun or has still before it. */
  function Taken(n: Node): seq<Key> { n.begun + n.inbox }

  lemma HeadTakes(c: Chain, e: Event)
    requires Enabled(c, e)
    ensures |Step(c, e)| == |c| > 0 && Taken(Step(c, e)[0]) == Taken(c[0]) + Requested([e])
  {
    assert Requested([e]) == if e.Request? then [e.key] else [];
    match e {
      case Request(key) =>
      case BeginAt(k, out) => FirstTaken(c[k]);
      case OperateAt(k, deletes, ok) =>
      case ReceiveAt(k, read) =>
      case FinishAt(k, ok) => FirstTaken(c[k]);
      case Cut(k) =>
    }
  }

  lemma FirstTaken(n: Node)
    requires n.inbox != []
    ensures n.begun + [n.inbox[0]] + n.inbox[1..] == n.begun + n.inbox
  {
  }

  /** In every run in which nothing goes wrong, of any length and on a chain of any length, every answer
      of every node is OK, and the head has taken the requests in their order. */
  lemma {:induction false} SmoothRunAnswersOk(c: Chain, es: seq<Event>, d: Chain)
    requires SmoothInv(c) && c != [] && Reaches(c, es, d) && AllSmooth(es)
    ensures SmoothInv(d) && |d| == |c| && Taken(d[0]) == Taken(c[0]) + Requested(es)
    decreases |es|
  {
    hide SmoothInv, Enabled, Step, Taken, Smooth;
    if es != [] {
      assert Smooth(es[0]);
      HeadTakes(c, es[0]);
      SmoothStep(c, es[0]);
      SmoothRunAnswersOk(Step(c, es[0]), es[1..], d);
      assert Requested([es[0]]) + Requested(es[1..]) == Requested(es);
    }
  }

  // ----- such a run comes to its end -----

  /** Nothing is left to do. */
  ghost predicate Quiet(c: Chain) {
    forall k :: 0 <= k < |c| ==> c[k].inbox == [] && c[k].sent == []
  }

  /** Unless nothing is left to do, some node can go on without anything going wrong. */
  lemma SmoothGoesOn(c: Chain) returns (e: Event)
    requires SmoothInv(c) && !Quiet(c)
    ensures Enabled(c, e) && Smooth(e) && !e.Request?
  {
    var last := |c| - 1;
    assert forall k :: 0 <= k < |c| ==> NodeOk(c[k]);
    if k :| 0 <= k < |c| && |c[k].sent| == c[k].tokens + 1 {
      e := OperateAt(k, false, true);
    } else if k :| 0 <= k < |c| && c[k].inbox != [] {
      e := if k == last then FinishAt(k, true) else BeginAt(k, true);
    } else {
      var k := LastSending(c, |c|);
      assert SentKeys(c[k].sent) == InHand(c[k + 1]) == ReplyKeys(c[k + 1].replies);
      e := ReceiveAt(k, true);
    }
  }

  /** The last node before n that waits for something. */
  lemma {:induction false} LastSending(c: Chain, n: nat) returns (k: nat)
    requires n <= |c| && (exists i :: 0 <= i < n && c[i].sent != [])
    ensures k < n && c[k].sent != [] && forall i :: k < i < n ==> c[i].sent == []
  {
    if c[n - 1].sent != [] { k := n - 1; } else { k := LastSending(c, n - 1); }
  }

  /** Steps that the requests of a node still take, rank nodes before the last. */
  function Cost(n: Node, rank: nat): int { (3 * rank + 1) * |n.inbox| + 2 * |n.sent| - n.tokens }

  function Left(c: Chain): int {
    if c == [] then 0 else Cost(c[0], |c| - 1) + Left(c[1..])
  }

  lemma {:induction false} LeftChanged(c: Chain, k: nat, n: Node)
    requires k < |c|
    ensures Left(c[k := n]) == Left(c) - Cost(c[k], |c| - 1 - k) + Cost(n, |c| - 1 - k)
    decreases k
  {
    hide Cost;
    if k == 0 {
      assert c[0 := n][1..] == c[1..];
    } else {
      assert c[k := n][1..] == c[1..][k - 1 := n];
      LeftChanged(c[1..], k - 1, n);
    }
  }

  /** Every step but a new request brings the end nearer by exactly one. */
  lemma SmoothStepCounts(c: Chain, e: Event)
    requires SmoothInv(c) && Enabled(c, e) && Smooth(e) && !e.Request?
    ensures Left(Step(c, e)) == Left(c) - 1
  {
    hide NodeOk, OkMeansAll, Well, InHand, Left;
    match e {
      case BeginAt(k, _) =>
        var m := c[k + 1].(inbox := c[k + 1].inbox + [c[k].inbox[0]]);
        LeftChanged(c, k, Begin(c[k], true));
        LeftChanged(c[k := Begin(c[k], true)], k + 1, m);
      case OperateAt(k, deletes, _) => LeftChanged(c, k, Operate(c[k], deletes, true));
      case ReceiveAt(k, _) =>
        assert NodeOk(c[k]) && NodeOk(c[k + 1]) && SentKeys(c[k].sent) == InHand(c[k + 1]);
        ReceiveWell(c[k], c[k + 1]);
        LeftChanged(c, k, Receive(c[k], true));
        LeftChanged(c[k := Receive(c[k], true)], k + 1, c[k + 1].(replies := c[k + 1].replies[1..]));
      case FinishAt(k, _) => LeftChanged(c, k, Finish(c[k], true));
    }
  }

  lemma {:induction false} LeftNatural(c: Chain)
    requires forall k :: 0 <= k < |c| ==> c[k].tokens <= |c[k].sent|
    ensures Left(c) >= 0
  {
    if c != [] {
      LeftNatural(c[1..]);
      assert (3 * (|c| - 1) + 1) * |c[0].inbox| >= 0;
    }
  }

  lemma TokensBound(c: Chain)
    requires SmoothInv(c)
    ensures Left(c) >= 0
  {
    forall k | 0 <= k < |c| ensures c[k].tokens <= |c[k].sent| { assert NodeOk(c[k]); }
    LeftNatural(c);
  }

  /** So the requests under way are all answered, after exactly that many steps. */
  lemma {:induction false} SmoothEnds(c: Chain) returns (es: seq<Event>, d: Chain)
    requires SmoothInv(c)
    ensures Reaches(c, es, d) && AllSmooth(es) && Requested(es) == [] && Quiet(d) && |es| == Left(c)
    decreases Left(c)
  {
    hide SmoothInv, Enabled, Step, Smooth, Left;
    TokensBound(c);
    if Quiet(c) {
      es, d := [], c;
      QuietLeft(c);
    } else {
      var e := SmoothGoesOn(c);
      SmoothStep(c, e);
      SmoothStepCounts(c, e);
      TokensBound(Step(c, e));
      var rest;
      rest, d := SmoothEnds(Step(c, e));
      es := [e] + rest;
      assert es[1..] == rest;
    }
  }

  lemma {:induction false} QuietLeft(c: Chain)
    requires SmoothInv(c) && Quiet(c)
    ensures Left(c) == 0
  {
    forall k | 0 <= k < |c| ensures c[k].tokens == 0 { assert NodeOk(c[k]); }
    NothingLeft(c);
  }

  lemma {:induction false} NothingLeft(c: Chain)
    requires forall k :: 0 <= k < |c| ==> c[k].tokens == 0 && c[k].inbox == [] && c[k].sent == []
    ensures Left(c) == 0
  {
    if c != [] { NothingLeft(c[1..]); }
  }

  function OkReplies(keys: seq<Key>): (rs: seq<Reply>)
    ensures |rs| == |keys|
  {
    seq(|keys|, i requires 0 <= i < |keys| => Reply(keys[i], true))
  }

  /** On a chain of any length: a run in which nothing goes wrong, carried to its end, has the head answer
      all requests that reached it with OK, once each and in their order. */
  lemma HeadAnswersAll(n: nat, es: seq<Event>, d: Chain)
    requires n > 0 && Reaches(seq(n, i => Idle()), es, d) && AllSmooth(es) && |d| == n && Quiet(d)
    ensures d[0].answered == OkReplies(Requested(es))
  {
    hide Inv;
    var c := seq(n, i => Idle());
    IdleSmooth(n);
    SmoothRunAnswersOk(c, es, d);
    assert NodeOk(d[0]) by { assert Inv(d); InvNode(d, 0); }
    assert d[0].begun == ReplyKeys(d[0].answered) by { assert SentKeys(d[0].sent) == []; }
    assert Taken(c[0]) == [] && d[0].begun == Requested(es);
    forall i | 0 <= i < |d[0].answered| ensures d[0].answered[i] == Reply(Requested(es)[i], true) {
      assert d[0].answered[i] in d[0].answered && ReplyKeys(d[0].answered)[i] == d[0].answered[i].key;
    }
  }

  lemma InvNode(c: Chain, k: nat)
    requires Inv(c) && k < |c|
    ensures NodeOk(c[k])
  {
  }

  lemma IdleSmooth(n: nat)
    requires n > 0
    ensures SmoothInv(seq(n, i => Idle()))
  {
    IdleOk();
  }

  // ----- the list of in-flight requests as the source keeps it -----

  /** DelListElement compares everything but the checksum. */
  predicate SameRequest(a: Key, b: Key) {
    a.reqId == b.reqId && a.partition == b.partition && a.file == b.file && a.offset == b.offset
  }

  ghost predicate FirstMatch(sent: seq<Sent>, reply: Key, i: nat)
    requires i < |sent|
  {
    SameRequest(sent[i].key, reply) && forall j :: 0 <= j < i ==> !SameRequest(sent[j].key, reply)
  }

  /** Taking request i to the front is a different order exactly if it was not there already. */
  lemma OvertakesExactly(sent: seq<Sent>, reply: Key, i: nat)
    requires i < |sent| && FirstMatch(sent, reply, i)
    ensures [sent[i].key] + SentKeys(sent[..i] + sent[i + 1..]) == SentKeys(sent) <==> i == 0
    ensures multiset([sent[i].key] + SentKeys(sent[..i] + sent[i + 1..])) == multiset(SentKeys(sent))
  {
    var ks := SentKeys(sent);
    var rest := SentKeys(sent[..i] + sent[i + 1..]);
    assert ks == ks[..i] + [ks[i]] + ks[i + 1..];
    assert rest == ks[..i] + ks[i + 1..];
    if i > 0 { assert ([sent[i].key] + rest)[0] != ks[0]; }
  }

  class MessageHandler {
    var sentList: seq<Sent>
    var replyCh: seq<Key>
    ghost var begun: seq<Key>

    constructor ()
      ensures sentList == [] && replyCh == [] && begun == [] && InOrder()
    {
      sentList, replyCh, begun := [], [], [];
    }

    /** Every request is waiting or answered, once. */
    ghost predicate Accounted()
      reads this
    {
      multiset(begun) == multiset(replyCh + SentKeys(sentList))
    }

    /** The answers, followed by the requests still waiting, are all requests in order. */
    ghost predicate InOrder()
      reads this
    {
      begun == replyCh + SentKeys(sentList)
    }

    /** A new request is behind all others. This is what Begin does to a node of the chain. */
    method PushListElement(q: Sent)
      modifies this
      ensures begun == old(begun) + [q.key] && replyCh == old(replyCh)
      ensures (InOrder() <==> old(InOrder())) && (old(Accounted()) ==> Accounted())
      ensures forall n: Node :: n.sent == old(sentList) && n.inbox != [] && q == Sent(n.inbox[0], q.out, Waiting) ==>
        sentList == Begin(n, q.out).sent
    {
      ghost var ks := replyCh + SentKeys(sentList);
      sentList, begun := sentList + [q], begun + [q.key];
      assert replyCh + SentKeys(sentList) == ks + [q.key];
      assert begun[..|begun| - 1] == old(begun) && (ks + [q.key])[..|ks|] == ks;
    }

    /** The oldest request that the reply matches leaves the list and is answered; a reply that
        matches none changes nothing. No request is lost or answered twice, and the answers stay in
        order exactly if no other request was ahead. For a reply to the oldest request this is what
        Receive does to a node of the chain. */
    method DelListElement(reply: Key)
      modifies this`sentList, this`replyCh
      ensures (forall i :: 0 <= i < |old(sentList)| ==> !SameRequest(old(sentList)[i].key, reply)) ==>
        sentList == old(sentList) && replyCh == old(replyCh)
      ensures forall i :: 0 <= i < |old(sentList)| && FirstMatch(old(sentList), reply, i) ==>
        && sentList == old(sentList)[..i] + old(sentList)[i + 1..] && replyCh == old(replyCh) + [old(sentList)[i].key]
        && (old(InOrder()) ==> (InOrder() <==> i == 0))
      ensures old(Accounted()) ==> Accounted()
      ensures forall n: Node, ok: bool ::
        n.sent == old(sentList) && n.sent != [] && n.tokens > 0 && SameRequest(n.sent[0].key, reply) ==>
          sentList == Receive(n, ok).sent
    {
      var i := 0;
      while i < |sentList|
        invariant i <= |sentList| && sentList == old(sentList) && replyCh == old(replyCh)
        invariant forall j :: 0 <= j < i ==> !SameRequest(sentList[j].key, reply)
      {
        if SameRequest(sentList[i].key, reply) {
          OvertakesExactly(sentList, reply, i);
          replyCh := replyCh + [sentList[i].key];
          sentList := sentList[..i] + sentList[i + 1..];
          assert replyCh + SentKeys(sentList) == old(replyCh) + ([old(sentList)[i].key] + SentKeys(sentList));
          SameTail(old(replyCh), [old(sentList)[i].key] + SentKeys(sentList), old(SentKeys(sentList)));
          return;
        }
        i := i + 1;
      }
    }
  }

  lemma SameTail(a: seq<Key>, b: seq<Key>, c: seq<Key>)
    ensures a + b == a + c <==> b == c
  {
    assert (a + b)[|a|..] == b && (a + c)[|a|..] == c;
  }
}
