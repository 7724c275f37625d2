/** Any number of peers joined by links that come and go: the step relation of the whole
    network and the invariant that every step keeps.

    Each ordered pair of peers has a channel of messages in flight, in order.  A link comes up
    and goes down at both ends at once, but each end is told of it in a step of its own
    (`NoticeUp`, `NoticeDown`) at any later time.  Assumed of the transport: a link comes up
    again only after both ends were told of its loss, nothing is handed to a peer before it was
    told that the link is up, and a link that goes down loses what is in flight. */
module MqNetwork {
  import opened MqNode

  /** An ordered pair of peers. */
  datatype Pair = Pair(src: Addr, dst: Addr)

  /** One direction of a link.  Only `up` and `chan` drive the steps; the other fields record
      history so that properties of runs can be stated. */
  datatype Link = Link(
    up: bool,
    chan: seq<Msg>,         // in flight, oldest first
    listed: set<Topic>,     // topics of all subscription lists sent since the link came up
    posted: seq<Pub>,       // publications sent since the link came up, in order
    base: seq<Pub>,         // publications that had arrived when the link came up, in order
    sent: multiset<Pub>,    // publications ever sent
    lost: multiset<Pub>)    // publications that were in flight when the link went down, or sent while it was down

  datatype Net = Net(nodes: map<Addr, NodeState>, links: map<Pair, Link>)

  datatype Step =
    | LinkUp(a: Addr, b: Addr)
    | NoticeUp(a: Addr, b: Addr)      // `a` is told that it is connected to `b`
    | LinkDown(a: Addr, b: Addr)
    | NoticeDown(a: Addr, b: Addr)    // `a` is told that it lost `b`
    | Subscribe(a: Addr, topics: seq<Topic>)
    | PublishAt(a: Addr, kind: int, pub: Pub)
    | Deliver(a: Addr, b: Addr)       // the oldest message from `a` reaches `b`

  // ---------------------------------------------------------------- messages in a channel

  function ListedBy(msgs: seq<Msg>): set<Topic> {
    if msgs == [] then {}
    else (match msgs[0] case SubMsg(ts) => TopicSet(ts) case PubMsg(_) => {}) + ListedBy(msgs[1..])
  }

  function PubSeq(msgs: seq<Msg>): seq<Pub> {
    if msgs == [] then []
    else (match msgs[0] case SubMsg(_) => [] case PubMsg(p) => [p]) + PubSeq(msgs[1..])
  }

  function MsgsTo(out: seq<Envelope>, b: Addr): seq<Msg> {
    if out == [] then []
    else (if out[0].dest == b then [out[0].msg] else []) + MsgsTo(out[1..], b)
  }

  /** The publications node `n` has received from `a`, in order. */
  function ReceivedFrom(inbox: seq<AppMsg>, a: Addr): seq<Pub> {
    if inbox == [] then []
    else
      var last := inbox[|inbox| - 1];
      ReceivedFrom(inbox[..|inbox| - 1], a) +
      (if last.appType == a.nodeType && last.appID == a.nodeID then [last.pub] else [])
  }

  // ---------------------------------------------------------------- steps

  function Post(l: Link, msgs: seq<Msg>): Link {
    var pubs := PubSeq(msgs);
    if l.up then
      l.(chan := l.chan + msgs, listed := l.listed + ListedBy(msgs), posted := l.posted + pubs,
         sent := l.sent + multiset(pubs))
    else
      l.(sent := l.sent + multiset(pubs), lost := l.lost + multiset(pubs))
  }

  /** Node `a` moves to `o.node` and its messages enter the channels. */
  function AfterSend(net: Net, a: Addr, o: Outcome): Net {
    Net(net.nodes[a := o.node],
        map p | p in net.links ::
          if p.src == a then Post(net.links[p], MsgsTo(o.out, p.dst)) else net.links[p])
  }

  function Opened(l: Link, base: seq<Pub>): Link {
    l.(up := true, chan := [], listed := {}, posted := [], base := base)
  }

  function Cut(l: Link): Link {
    l.(up := false, chan := [], lost := l.lost + multiset(PubSeq(l.chan)))
  }

  function Arrive(n: NodeState, m: Msg, src: Addr): NodeState {
    match m
    case SubMsg(topics) => RemoteSubscribe(n, topics, src)
    case PubMsg(pub) => Receive(n, pub, src)
  }

  /** A link in both directions between two known peers. */
  predicate Joined(net: Net, a: Addr, b: Addr) {
    a in net.nodes && b in net.nodes && Pair(a, b) in net.links && Pair(b, a) in net.links && a != b
  }

  predicate Enabled(net: Net, s: Step) {
    match s
    case LinkUp(a, b) =>
      && Joined(net, a, b) && !net.links[Pair(a, b)].up
      && b !in net.nodes[a].remotes && a !in net.nodes[b].remotes
    case NoticeUp(a, b) => Joined(net, a, b) && net.links[Pair(a, b)].up
    case LinkDown(a, b) => Joined(net, a, b) && net.links[Pair(a, b)].up
    case NoticeDown(a, b) => Joined(net, a, b) && !net.links[Pair(a, b)].up
    case Subscribe(a, _) => a in net.nodes
    case PublishAt(a, _, _) => a in net.nodes
    case Deliver(a, b) => Joined(net, a, b) && net.links[Pair(a, b)].chan != [] && a in net.nodes[b].remotes
  }

  /** The effect of a step; a step that is not enabled changes nothing. */
  function Apply(net: Net, s: Step): Net {
    if !Enabled(net, s) then net
    else
      match s
      case LinkUp(a, b) =>
        var ab := Opened(net.links[Pair(a, b)], ReceivedFrom(net.nodes[b].inbox, a));
        var ba := Opened(net.links[Pair(b, a)], ReceivedFrom(net.nodes[a].inbox, b));
        net.(links := net.links[Pair(a, b) := ab][Pair(b, a) := ba])
      case NoticeUp(a, b) => AfterSend(net, a, Connected(net.nodes[a], b.nodeType, b.nodeID))
      case LinkDown(a, b) =>
        net.(links := net.links[Pair(a, b) := Cut(net.links[Pair(a, b)])][Pair(b, a) := Cut(net.links[Pair(b, a)])])
      case NoticeDown(a, b) =>
        net.(nodes := net.nodes[a := Disconnected(net.nodes[a], b.nodeType, b.nodeID)])
      case Subscribe(a, topics) => AfterSend(net, a, LocalSubscribe(net.nodes[a], topics))
      case PublishAt(a, kind, pub) => AfterSend(net, a, Publish(net.nodes[a], kind, pub))
      case Deliver(a, b) =>
        var l := net.links[Pair(a, b)];
        Net(net.nodes[b := Arrive(net.nodes[b], l.chan[0], a)],
            net.links[Pair(a, b) := l.(chan := l.chan[1..])])
  }

  function Run(net: Net, steps: seq<Step>): Net
    decreases |steps|
  {
    if steps == [] then net else Run(Apply(net, steps[0]), steps[1..])
  }

  // ---------------------------------------------------------------- the invariant

  /** Subscriptions of one direction: the sender's list, the lists in flight and the
      receiver's registry. */
  ghost predicate ListInv(a: Addr, na: NodeState, b: Addr, nb: NodeState, l: Link) {
    // only a sender that knows of a live link has messages in flight
    && (l.chan != [] ==> l.up && b in na.remotes)
    // a sender that knows of the link has sent its current list over it
    && (l.up && b in na.remotes ==> TopicSet(na.topics) <= l.listed)
    && (l.up && b !in na.remotes ==> l.listed == {})
    // what was listed is registered or in flight, and nothing else is
    && (l.up ==> Registered(nb, a) + ListedBy(l.chan) == l.listed)
  }

  ghost predicate Shape(net: Net) {
    && (forall a, b :: Pair(a, b) in net.links <==> a in net.nodes && b in net.nodes && a != b)
    && (forall a :: a in net.nodes ==> IsCallbackAddr(a))
    && (forall a, b :: Pair(a, b) in net.links && Pair(b, a) in net.links ==>
          net.links[Pair(a, b)].up == net.links[Pair(b, a)].up)
  }

  ghost predicate NodesInv(net: Net) {
    && (forall a :: a in net.nodes ==> NodeInv(net.nodes[a]))
    && (forall a, b :: a in net.nodes && b in net.nodes[a].remotes ==> b in net.nodes && b != a)
  }

  ghost predicate Inv(net: Net) {
    && Shape(net)
    && NodesInv(net)
    && (forall a, b :: Pair(a, b) in net.links ==>
          ListInv(a, net.nodes[a], b, net.nodes[b], net.links[Pair(a, b)]))
  }

  /** The start: services that know nobody, have no topics and have received nothing. */
  ghost predicate Init(net: Net) {
    && Shape(net)
    && (forall a :: a in net.nodes ==> net.nodes[a] == NodeState([], [], map[], []))
    && (forall p :: p in net.links ==> net.links[p] == Link(false, [], {}, [], [], multiset{}, multiset{}))
  }

  // ---------------------------------------------------------------- small facts

  lemma {:induction false} ListedByAppend(x: seq<Msg>, y: seq<Msg>)
    ensures ListedBy(x + y) == ListedBy(x) + ListedBy(y)
  {
    if x == [] {
      assert x + y == y;
    } else {
      ListedByAppend(x[1..], y);
      assert (x + y)[1..] == x[1..] + y;
    }
  }

  lemma {:induction false} NothingTo(out: seq<Envelope>, b: Addr)
    requires forall e :: e in out ==> e.dest != b
    ensures MsgsTo(out, b) == []
  {
    if out != [] {
      assert out[0] in out;
      NothingTo(out[1..], b);
    }
  }

  /** A message to every member of an ordered set reaches each member once and nobody else. */
  lemma {:induction false} SendEachReaches(dests: seq<Addr>, m: Msg, b: Addr)
    requires Sorted(dests)
    ensures MsgsTo(SendEach(dests, m), b) == if b in dests then [m] else []
  {
    var out := SendEach(dests, m);
    if dests != [] {
      assert out[1..] == SendEach(dests[1..], m);
      assert dests == [dests[0]] + dests[1..];
      SendEachReaches(dests[1..], m, b);
      forall i | 0 <= i < |dests[1..]|
        ensures dests[1..][i] != dests[0]
      {
        SortedIsDistinct(dests, 0, i + 1);
      }
    }
  }

  // ---------------------------------------------------------------- every step keeps the invariant

  lemma PostKeepsLists(a: Addr, na: NodeState, na': NodeState, b: Addr, nb: NodeState, l: Link, msgs: seq<Msg>)
    requires ListInv(a, na, b, nb, l)
    requires b in na.remotes ==> b in na'.remotes
    requires msgs != [] ==> b in na'.remotes
    requires l.up && b in na'.remotes ==> TopicSet(na'.topics) <= l.listed + ListedBy(msgs)
    ensures ListInv(a, na', b, nb, Post(l, msgs))
  {
    ListedByAppend(l.chan, msgs);
  }

  /** What a handler may do to its node for the network invariant to survive its messages. */
  ghost predicate SendsProperly(net: Net, a: Addr, o: Outcome)
    requires a in net.nodes
  {
    var na := net.nodes[a];
    && NodeInv(o.node) && o.node.inbox == na.inbox
    && (forall x :: Registered(o.node, x) == Registered(na, x))
    && (forall x :: x in na.remotes ==> x in o.node.remotes)
    && (forall x :: x in o.node.remotes ==> x in net.nodes && x != a)
    && (forall e :: e in o.out ==> e.dest in o.node.remotes)
    && (forall b :: Pair(a, b) in net.links && net.links[Pair(a, b)].up && b in o.node.remotes ==>
          TopicSet(o.node.topics) <= net.links[Pair(a, b)].listed + ListedBy(MsgsTo(o.out, b)))
  }

  lemma SendKeepsPair(net: Net, a: Addr, o: Outcome, y: Addr)
    requires Inv(net) && a in net.nodes && SendsProperly(net, a, o) && Pair(a, y) in net.links
    ensures ListInv(a, o.node, y, net.nodes[y], Post(net.links[Pair(a, y)], MsgsTo(o.out, y)))
  {
    var l := net.links[Pair(a, y)];
    assert ListInv(a, net.nodes[a], y, net.nodes[y], l);
    if y !in o.node.remotes {
      NothingTo(o.out, y);
    }
    PostKeepsLists(a, net.nodes[a], o.node, y, net.nodes[y], l, MsgsTo(o.out, y));
  }

  lemma SendKeepsAnyPair(net: Net, a: Addr, o: Outcome, x: Addr, y: Addr)
    requires Inv(net) && a in net.nodes && SendsProperly(net, a, o) && Pair(x, y) in net.links
    ensures var net' := AfterSend(net, a, o);
            ListInv(x, net'.nodes[x], y, net'.nodes[y], net'.links[Pair(x, y)])
  {
    if x == a {
      SendKeepsPair(net, a, o, y);
    } else {
      assert ListInv(x, net.nodes[x], y, net.nodes[y], net.links[Pair(x, y)]);
    }
  }

  lemma SendKeepsNodes(net: Net, a: Addr, o: Outcome)
    requires Shape(net) && NodesInv(net) && a in net.nodes && SendsProperly(net, a, o)
    ensures Shape(AfterSend(net, a, o)) && NodesInv(AfterSend(net, a, o))
  {
  }

  lemma SendKeeps(net: Net, a: Addr, o: Outcome)
    requires Inv(net) && a in net.nodes && SendsProperly(net, a, o)
    ensures Inv(AfterSend(net, a, o))
  {
    SendKeepsNodes(net, a, o);
    var net' := AfterSend(net, a, o);
    forall x, y | Pair(x, y) in net'.links
      ensures ListInv(x, net'.nodes[x], y, net'.nodes[y], net'.links[Pair(x, y)])
    {
      SendKeepsAnyPair(net, a, o, x, y);
    }
  }

  lemma NoticeSendsProperly(net: Net, a: Addr, b: Addr)
    requires Inv(net) && Enabled(net, NoticeUp(a, b))
    ensures SendsProperly(net, a, Connected(net.nodes[a], b.nodeType, b.nodeID))
  {
    var na := net.nodes[a];
    var o := Connected(na, b.nodeType, b.nodeID);
    ConnectedKeeps(na, b.nodeType, b.nodeID);
    forall y | Pair(a, y) in net.links && net.links[Pair(a, y)].up && y in o.node.remotes
      ensures TopicSet(o.node.topics) <= net.links[Pair(a, y)].listed + ListedBy(MsgsTo(o.out, y))
    {
      assert ListInv(a, na, y, net.nodes[y], net.links[Pair(a, y)]);
      if y !in na.remotes {
        NoticeSendsList(na, b);
      }
    }
  }

  lemma NoticeUpKeeps(net: Net, a: Addr, b: Addr)
    requires Inv(net) && Enabled(net, NoticeUp(a, b))
    ensures Inv(Apply(net, NoticeUp(a, b)))
  {
    NoticeSendsProperly(net, a, b);
    SendKeeps(net, a, Connected(net.nodes[a], b.nodeType, b.nodeID));
  }

  /** A list sent to every connected peer lists its topics at each of them. */
  lemma ListReaches(dests: seq<Addr>, topics: seq<Topic>, y: Addr)
    requires Sorted(dests) && y in dests
    ensures ListedBy(MsgsTo(SendEach(dests, SubMsg(topics)), y)) == TopicSet(topics)
  {
    SendEachReaches(dests, SubMsg(topics), y);
    assert [SubMsg(topics)][1..] == [];
  }

  lemma SubscribeSendsProperly(net: Net, a: Addr, topics: seq<Topic>)
    requires NodesInv(net) && a in net.nodes
    ensures SendsProperly(net, a, LocalSubscribe(net.nodes[a], topics))
  {
    var na := net.nodes[a];
    forall y | y in na.remotes
      ensures ListedBy(MsgsTo(LocalSubscribe(na, topics).out, y)) == TopicSet(topics)
    {
      ListReaches(na.remotes, topics, y);
    }
  }

  lemma SubscribeKeeps(net: Net, a: Addr, topics: seq<Topic>)
    requires Inv(net) && a in net.nodes
    ensures Inv(Apply(net, Subscribe(a, topics)))
  {
    SubscribeSendsProperly(net, a, topics);
    SendKeeps(net, a, LocalSubscribe(net.nodes[a], topics));
  }

  lemma PublishSendsProperly(net: Net, a: Addr, kind: int, pub: Pub)
    requires Inv(net) && a in net.nodes
    ensures SendsProperly(net, a, Publish(net.nodes[a], kind, pub))
  {
    var na := net.nodes[a];
    var o := Publish(na, kind, pub);
    PublishReaches(na, kind, pub);
    forall y | Pair(a, y) in net.links && net.links[Pair(a, y)].up && y in o.node.remotes
      ensures TopicSet(o.node.topics) <= net.links[Pair(a, y)].listed + ListedBy(MsgsTo(o.out, y))
    {
      assert ListInv(a, na, y, net.nodes[y], net.links[Pair(a, y)]);
    }
  }

  lemma PublishKeeps(net: Net, a: Addr, kind: int, pub: Pub)
    requires Inv(net) && a in net.nodes
    ensures Inv(Apply(net, PublishAt(a, kind, pub)))
  {
    PublishSendsProperly(net, a, kind, pub);
    SendKeeps(net, a, Publish(net.nodes[a], kind, pub));
  }

  lemma LinkUpKeeps(net: Net, a: Addr, b: Addr)
    requires Inv(net) && Enabled(net, LinkUp(a, b))
    ensures Inv(Apply(net, LinkUp(a, b)))
  {
    var net' := Apply(net, LinkUp(a, b));
    forall x, y | Pair(x, y) in net'.links
      ensures ListInv(x, net'.nodes[x], y, net'.nodes[y], net'.links[Pair(x, y)])
    {
      assert ListInv(x, net.nodes[x], y, net.nodes[y], net.links[Pair(x, y)]);
      if (x == a && y == b) || (x == b && y == a) {
        assert Registered(net.nodes[y], x) == {};
        assert net'.links[Pair(x, y)] == Opened(net.links[Pair(x, y)], ReceivedFrom(net.nodes[y].inbox, x));
      }
    }
  }

  lemma LinkDownKeeps(net: Net, a: Addr, b: Addr)
    requires Inv(net) && Enabled(net, LinkDown(a, b))
    ensures Inv(Apply(net, LinkDown(a, b)))
  {
    var net' := Apply(net, LinkDown(a, b));
    forall x, y | Pair(x, y) in net'.links
      ensures ListInv(x, net'.nodes[x], y, net'.nodes[y], net'.links[Pair(x, y)])
    {
      var l := net.links[Pair(x, y)];
      assert ListInv(x, net.nodes[x], y, net.nodes[y], l);
      CutKeepsLists(x, net.nodes[x], y, net.nodes[y], l);
    }
  }

  lemma CutKeepsLists(a: Addr, na: NodeState, b: Addr, nb: NodeState, l: Link)
    ensures ListInv(a, na, b, nb, Cut(l))
  {
  }

  lemma NoticeDownKeeps(net: Net, a: Addr, b: Addr)
    requires Inv(net) && Enabled(net, NoticeDown(a, b))
    ensures Inv(Apply(net, NoticeDown(a, b)))
  {
    var net' := Apply(net, NoticeDown(a, b));
    DisconnectedKeeps(net.nodes[a], b.nodeType, b.nodeID);
    forall x, y | Pair(x, y) in net'.links
      ensures ListInv(x, net'.nodes[x], y, net'.nodes[y], net'.links[Pair(x, y)])
    {
      assert ListInv(x, net.nodes[x], y, net.nodes[y], net.links[Pair(x, y)]);
    }
  }

  lemma DeliverKeeps(net: Net, a: Addr, b: Addr)
    requires Inv(net) && Enabled(net, Deliver(a, b))
    ensures Inv(Apply(net, Deliver(a, b)))
  {
    var net' := Apply(net, Deliver(a, b));
    var m := net.links[Pair(a, b)].chan[0];
    var nb, nb' := net.nodes[b], net'.nodes[b];
    ArriveEffect(nb, m, a);
    forall x, y | Pair(x, y) in net'.links
      ensures ListInv(x, net'.nodes[x], y, net'.nodes[y], net'.links[Pair(x, y)])
    {
      assert ListInv(x, net.nodes[x], y, net.nodes[y], net.links[Pair(x, y)]);
      if x == a && y == b {
        HeadArrivesLists(a, net.nodes[a], b, nb, net.links[Pair(a, b)]);
      }
    }
  }

  /** A message that arrives changes the registrations of its sender only. */
  lemma ArriveEffect(n: NodeState, m: Msg, src: Addr)
    requires NodeInv(n) && src in n.remotes
    ensures var r := Arrive(n, m, src);
            && NodeInv(r) && r.remotes == n.remotes && r.topics == n.topics
            && Registered(r, src) == Registered(n, src) + (match m case SubMsg(ts) => TopicSet(ts) case PubMsg(_) => {})
            && (forall a :: a != src ==> Registered(r, a) == Registered(n, a))
  {
    match m {
      case SubMsg(topics) => RemoteSubscribeKeeps(n, topics, src);
      case PubMsg(pub) =>
        assert forall a :: Registered(Receive(n, pub, src), a) == Registered(n, a);
    }
  }

  lemma HeadArrivesLists(a: Addr, na: NodeState, b: Addr, nb: NodeState, l: Link)
    requires ListInv(a, na, b, nb, l) && NodeInv(nb) && a in nb.remotes && l.chan != []
    ensures ListInv(a, na, b, Arrive(nb, l.chan[0], a), l.(chan := l.chan[1..]))
  {
    ArriveEffect(nb, l.chan[0], a);
  }

  lemma StepKeeps(net: Net, s: Step)
    requires Inv(net)
    ensures Inv(Apply(net, s))
  {
    if Enabled(net, s) {
      match s {
        case LinkUp(a, b) => LinkUpKeeps(net, a, b);
        case NoticeUp(a, b) => NoticeUpKeeps(net, a, b);
        case LinkDown(a, b) => LinkDownKeeps(net, a, b);
        case NoticeDown(a, b) => NoticeDownKeeps(net, a, b);
        case Subscribe(a, topics) => SubscribeKeeps(net, a, topics);
        case PublishAt(a, kind, pub) => PublishKeeps(net, a, kind, pub);
        case Deliver(a, b) => DeliverKeeps(net, a, b);
      }
    }
  }

  lemma InitHolds(net: Net)
    requires Init(net)
    ensures Inv(net)
  {
    forall a, b | Pair(a, b) in net.links
      ensures ListInv(a, net.nodes[a], b, net.nodes[b], net.links[Pair(a, b)])
    {
      assert Registered(net.nodes[b], a) == {};
    }
  }

  lemma {:induction false} RunKeeps(net: Net, steps: seq<Step>)
    requires Inv(net)
    ensures Inv(Run(net, steps))
    decreases |steps|
  {
    if steps != [] {
      StepKeeps(net, steps[0]);
      RunKeeps(Apply(net, steps[0]), steps[1..]);
    }
  }

  /** Every state of every run from the start satisfies the invariant. */
  lemma Safety(start: Net, steps: seq<Step>)
    requires Init(start)
    ensures Inv(Run(start, steps))
  {
    InitHolds(start);
    RunKeeps(start, steps);
  }

  // ---------------------------------------------------------------- what follows for every run

  /** Both ends of the link are alive and `a` has been told. */
  ghost predicate Knows(net: Net, a: Addr, b: Addr) {
    Joined(net, a, b) && net.links[Pair(a, b)].up && b in net.nodes[a].remotes
  }

  /** No subscription list is on its way from `a` to `b`. */
  ghost predicate ListsSettled(net: Net, a: Addr, b: Addr)
    requires Pair(a, b) in net.links
  {
    forall m :: m in net.links[Pair(a, b)].chan ==> m.PubMsg?
  }

  lemma {:induction false} ListedOnlyByLists(msgs: seq<Msg>)
    ensures (forall m :: m in msgs ==> m.PubMsg?) ==> ListedBy(msgs) == {}
    ensures forall t :: t in ListedBy(msgs) <==> exists m :: m in msgs && m.SubMsg? && t in m.topics
  {
    if msgs != [] {
      ListedOnlyByLists(msgs[1..]);
      assert msgs == [msgs[0]] + msgs[1..];
      assert forall t :: t in ListedBy(msgs) ==> exists m :: m in msgs && m.SubMsg?;
    }
  }

  /** Convergence: whenever `a` knows of a live link to `b`, each of its current topics is
      registered for it at `b` or is in a list on its way to `b`; once no list is on its way,
      `b` has it registered for all of them. */
  lemma SubscriptionsConverge(start: Net, steps: seq<Step>, a: Addr, b: Addr)
    requires Init(start)
    ensures var net := Run(start, steps);
            Knows(net, a, b) ==>
              && TopicSet(net.nodes[a].topics) <= Registered(net.nodes[b], a) + ListedBy(net.links[Pair(a, b)].chan)
              && (ListsSettled(net, a, b) ==> TopicSet(net.nodes[a].topics) <= Registered(net.nodes[b], a))
  {
    Safety(start, steps);
    var net := Run(start, steps);
    if Knows(net, a, b) {
      assert ListInv(a, net.nodes[a], b, net.nodes[b], net.links[Pair(a, b)]);
      ListedOnlyByLists(net.links[Pair(a, b)].chan);
    }
  }

  /** Exactness: while the link is alive, what `b` has registered for `a` together with what is
      in flight is exactly what `a` has listed since the link came up; a peer is never
      registered at a node that does not count it as connected. */
  lemma RegistryIsExact(start: Net, steps: seq<Step>, a: Addr, b: Addr)
    requires Init(start)
    ensures var net := Run(start, steps);
            Joined(net, a, b) ==>
              && (net.links[Pair(a, b)].up ==>
                    Registered(net.nodes[b], a) + ListedBy(net.links[Pair(a, b)].chan) == net.links[Pair(a, b)].listed)
              && (a !in net.nodes[b].remotes ==> Registered(net.nodes[b], a) == {})
  {
    Safety(start, steps);
    var net := Run(start, steps);
    if Joined(net, a, b) {
      assert ListInv(a, net.nodes[a], b, net.nodes[b], net.links[Pair(a, b)]);
      if a !in net.nodes[b].remotes {
        assert forall t :: t !in Registered(net.nodes[b], a);
      }
    }
  }

  /** Steps during which the link between `a` and `b` does not go down. */
  predicate Lasts(steps: seq<Step>, a: Addr, b: Addr) {
    forall s :: s in steps ==> s != LinkDown(a, b) && s != LinkDown(b, a)
  }

  predicate Alive(net: Net, a: Addr, b: Addr) {
    Joined(net, a, b) && net.links[Pair(a, b)].up && net.links[Pair(b, a)].up
  }

  // ---------------------------------------------------------------- what the calls amount to

  /** The topics of a subscription call of `a`, if the step is one. */
  function AskedBy(s: Step, a: Addr): set<Topic> {
    if s.Subscribe? && s.a == a then TopicSet(s.topics) else {}
  }

  /** The topics of all subscription calls of `a` in a run. */
  function AskedIn(steps: seq<Step>, a: Addr): set<Topic> {
    if steps == [] then {} else AskedBy(steps[0], a) + AskedIn(steps[1..], a)
  }

  lemma {:induction false} PubsCarryNoLists(out: seq<Envelope>, b: Addr)
    requires forall e :: e in out ==> e.msg.PubMsg?
    ensures ListedBy(MsgsTo(out, b)) == {}
  {
    if out != [] {
      assert out[0] in out;
      PubsCarryNoLists(out[1..], b);
      ListedByAppend(if out[0].dest == b then [out[0].msg] else [], MsgsTo(out[1..], b));
      assert [out[0].msg][1..] == [];
    }
  }

  lemma AfterSendLists(net: Net, a: Addr, o: Outcome, b: Addr)
    requires Knows(net, a, b) && b in o.node.remotes
    ensures var net' := AfterSend(net, a, o);
            && Knows(net', a, b)
            && net'.links[Pair(a, b)].listed == net.links[Pair(a, b)].listed + ListedBy(MsgsTo(o.out, b))
  {
  }

  /** From `net` to `net'` the link is kept and known, and nothing is listed for `a`. */
  ghost predicate ListsNothing(net: Net, net': Net, a: Addr, b: Addr)
    requires Knows(net, a, b)
  {
    && Knows(net', a, b)
    && net'.nodes[a].topics == net.nodes[a].topics
    && net'.links[Pair(a, b)].listed == net.links[Pair(a, b)].listed
  }

  lemma NoticeListsNothing(net: Net, a: Addr, y: Addr, b: Addr)
    requires Inv(net) && Knows(net, a, b) && Enabled(net, NoticeUp(a, y))
    ensures ListsNothing(net, Apply(net, NoticeUp(a, y)), a, b)
  {
    NoticeCarriesNoLists(net.nodes[a], y, b);
    AfterSendLists(net, a, Connected(net.nodes[a], y.nodeType, y.nodeID), b);
  }

  lemma NoticeCarriesNoLists(n: NodeState, y: Addr, b: Addr)
    requires IsCallbackAddr(y) && b in n.remotes
    ensures var o := Connected(n, y.nodeType, y.nodeID);
            b in o.node.remotes && o.node.topics == n.topics && ListedBy(MsgsTo(o.out, b)) == {}
  {
    if y != b {
      NothingTo(Connected(n, y.nodeType, y.nodeID).out, b);
    }
  }

  lemma PublicationListsNothing(net: Net, a: Addr, kind: int, pub: Pub, b: Addr)
    requires Inv(net) && Knows(net, a, b)
    ensures ListsNothing(net, Apply(net, PublishAt(a, kind, pub)), a, b)
  {
    PublicationCarriesNoLists(net.nodes[a], kind, pub, b);
    AfterSendLists(net, a, Publish(net.nodes[a], kind, pub), b);
  }

  lemma PublicationCarriesNoLists(n: NodeState, kind: int, pub: Pub, b: Addr)
    ensures var o := Publish(n, kind, pub);
            o.node.remotes == n.remotes && o.node.topics == n.topics && ListedBy(MsgsTo(o.out, b)) == {}
  {
    PubsCarryNoLists(Publish(n, kind, pub).out, b);
  }

  lemma CallListsItsTopics(net: Net, a: Addr, topics: seq<Topic>, b: Addr)
    requires Inv(net) && Knows(net, a, b)
    ensures ListedBy(MsgsTo(LocalSubscribe(net.nodes[a], topics).out, b)) == TopicSet(topics)
  {
    ListReaches(net.nodes[a].remotes, topics, b);
  }

  /** A step that lists nothing for `a`: everything but its subscription calls. */
  lemma StepListsNothing(net: Net, s: Step, a: Addr, b: Addr)
    requires Inv(net) && Knows(net, a, b) && s != LinkDown(a, b) && s != LinkDown(b, a)
    requires !(s.Subscribe? && s.a == a)
    ensures ListsNothing(net, Apply(net, s), a, b)
  {
    if Enabled(net, s) {
      match s {
        case NoticeUp(x, y) =>
          if x == a {
            NoticeListsNothing(net, a, y, b);
          }
        case PublishAt(x, kind, pub) =>
          if x == a {
            PublicationListsNothing(net, a, kind, pub, b);
          }
        case NoticeDown(x, y) => NoticeDownOfOther(net, x, y, a, b);
        case Deliver(x, y) => DeliveryListsNothing(net, x, y, a, b);
        case _ =>
      }
    }
  }

  lemma DeliveryListsNothing(net: Net, x: Addr, y: Addr, a: Addr, b: Addr)
    requires Inv(net) && Knows(net, a, b) && Enabled(net, Deliver(x, y))
    ensures ListsNothing(net, Apply(net, Deliver(x, y)), a, b)
  {
  }

  lemma NoticeDownOfOther(net: Net, x: Addr, y: Addr, a: Addr, b: Addr)
    requires Inv(net) && Knows(net, a, b) && Enabled(net, NoticeDown(x, y))
    ensures ListsNothing(net, Apply(net, NoticeDown(x, y)), a, b)
  {
    if x == a {
      DisconnectedKeeps(net.nodes[a], y.nodeType, y.nodeID);
    }
  }

  /** On a link its sender knows of, a step lists exactly what the sender asks for in it. */
  lemma StepListsAsked(net: Net, s: Step, a: Addr, b: Addr)
    requires Inv(net) && Knows(net, a, b) && s != LinkDown(a, b) && s != LinkDown(b, a)
    ensures var net' := Apply(net, s);
            && Knows(net', a, b)
            && net'.nodes[a].topics == (if s.Subscribe? && s.a == a then s.topics else net.nodes[a].topics)
            && net'.links[Pair(a, b)].listed == net.links[Pair(a, b)].listed + AskedBy(s, a)
  {
    if s.Subscribe? && s.a == a {
      CallListsItsTopics(net, a, s.topics, b);
      AfterSendLists(net, a, LocalSubscribe(net.nodes[a], s.topics), b);
    } else {
      StepListsNothing(net, s, a, b);
    }
  }

  lemma Unite(x: set<Topic>, y: set<Topic>, z: set<Topic>)
    ensures (x + y) + z == x + (y + z)
  {
  }

  lemma {:induction false} RunListsAsked(net: Net, steps: seq<Step>, a: Addr, b: Addr)
    requires Inv(net) && Knows(net, a, b) && Lasts(steps, a, b)
    ensures var net' := Run(net, steps);
            && Inv(net') && Knows(net', a, b)
            && net'.links[Pair(a, b)].listed == net.links[Pair(a, b)].listed + AskedIn(steps, a)
    decreases |steps|
  {
    if steps != [] {
      assert steps[0] in steps;
      StepKeeps(net, steps[0]);
      StepListsAsked(net, steps[0], a, b);
      assert forall s :: s in steps[1..] ==> s in steps;
      RunListsAsked(Apply(net, steps[0]), steps[1..], a, b);
      Unite(net.links[Pair(a, b)].listed, AskedBy(steps[0], a), AskedIn(steps[1..], a));
    }
  }

  /** A registry grows by exactly the lists asked for: while the link lasts, what is registered or
      on its way at the end is what was at the beginning and every topic of every subscription
      call since. */
  lemma RegistryGrowsByCalls(start: Net, steps: seq<Step>, a: Addr, b: Addr, more: seq<Step>)
    requires Init(start) && Knows(Run(start, steps), a, b) && Lasts(more, a, b)
    ensures var net := Run(start, steps);
            var net' := Run(net, more);
            && Knows(net', a, b)
            && Registered(net'.nodes[b], a) + ListedBy(net'.links[Pair(a, b)].chan)
               == Registered(net.nodes[b], a) + ListedBy(net.links[Pair(a, b)].chan) + AskedIn(more, a)
  {
    var net := Run(start, steps);
    Safety(start, steps);
    RunListsAsked(net, more, a, b);
    var net' := Run(net, more);
    assert ListInv(a, net.nodes[a], b, net.nodes[b], net.links[Pair(a, b)]);
    assert ListInv(a, net'.nodes[a], b, net'.nodes[b], net'.links[Pair(a, b)]);
  }

  /** A new subscription list only adds at the peers: for as long as the link lasts, whatever the
      previous list named stays registered or on its way, wanted or not. */
  lemma ResubscribingOnlyAdds(start: Net, steps: seq<Step>, a: Addr, b: Addr, topics: seq<Topic>, more: seq<Step>)
    requires Init(start) && Knows(Run(start, steps), a, b) && Lasts(more, a, b)
    ensures var net := Run(start, steps);
            var net' := Run(Apply(net, Subscribe(a, topics)), more);
            && Joined(net', a, b)
            && TopicSet(net.nodes[a].topics) + TopicSet(topics)
               <= Registered(net'.nodes[b], a) + ListedBy(net'.links[Pair(a, b)].chan)
  {
    var net := Run(start, steps);
    var call := [Subscribe(a, topics)] + more;
    assert call[1..] == more;
    Safety(start, steps);
    assert ListInv(a, net.nodes[a], b, net.nodes[b], net.links[Pair(a, b)]);
    RegistryGrowsByCalls(start, steps, a, b, call);
  }

  /** `b` has nothing but `a`'s current list registered for it, and nothing else is on its way. */
  ghost predicate InStep(net: Net, a: Addr, b: Addr) {
    && Knows(net, a, b) && ListsSettled(net, a, b)
    && Registered(net.nodes[b], a) == TopicSet(net.nodes[a].topics)
  }

  /** The list `a` has after a run that starts with `topics`: that of its last call. */
  function ListAfter(topics: seq<Topic>, steps: seq<Step>, a: Addr): seq<Topic>
    decreases |steps|
  {
    if steps == [] then topics
    else ListAfter(if steps[0].Subscribe? && steps[0].a == a then steps[0].topics else topics, steps[1..], a)
  }

  lemma {:induction false} RunKeepsList(net: Net, steps: seq<Step>, a: Addr, b: Addr)
    requires Inv(net) && Knows(net, a, b) && Lasts(steps, a, b)
    ensures Knows(Run(net, steps), a, b) && Run(net, steps).nodes[a].topics == ListAfter(net.nodes[a].topics, steps, a)
    decreases |steps|
  {
    if steps != [] {
      assert steps[0] in steps;
      StepKeeps(net, steps[0]);
      StepListsAsked(net, steps[0], a, b);
      assert forall s :: s in steps[1..] ==> s in steps;
      RunKeepsList(Apply(net, steps[0]), steps[1..], a, b);
    }
  }

  /** When subscription calls are honoured: `a` and `b` are in step and the link lasts.  Whatever
      calls `a` makes, once its lists have arrived `b` is in step with it again if and only if the
      last list names every topic of the first one and of all calls. */
  lemma InStepAgainIff(start: Net, steps: seq<Step>, a: Addr, b: Addr, more: seq<Step>)
    requires Init(start) && InStep(Run(start, steps), a, b) && Lasts(more, a, b)
    ensures var first := Run(start, steps).nodes[a].topics;
            var last := ListAfter(first, more, a);
            var net' := Run(Run(start, steps), more);
            && Knows(net', a, b) && net'.nodes[a].topics == last
            && (ListsSettled(net', a, b) ==>
                  && Registered(net'.nodes[b], a) == TopicSet(first) + AskedIn(more, a)
                  && (InStep(net', a, b) <==> TopicSet(first) + AskedIn(more, a) <= TopicSet(last)))
  {
    var net := Run(start, steps);
    var net' := Run(net, more);
    Safety(start, steps);
    RegistryGrowsByCalls(start, steps, a, b, more);
    RunKeepsList(net, more, a, b);
    ListedOnlyByLists(net.links[Pair(a, b)].chan);
    InStepWhenCovered(net', a, b, net.nodes[a].topics, more);
  }

  /** `net'` is where `a`'s calls have led from the list `first`. */
  lemma InStepWhenCovered(net': Net, a: Addr, b: Addr, first: seq<Topic>, more: seq<Step>)
    requires Knows(net', a, b) && net'.nodes[a].topics == ListAfter(first, more, a)
    requires Registered(net'.nodes[b], a) + ListedBy(net'.links[Pair(a, b)].chan) == TopicSet(first) + AskedIn(more, a)
    ensures ListsSettled(net', a, b) ==>
              && Registered(net'.nodes[b], a) == TopicSet(first) + AskedIn(more, a)
              && (InStep(net', a, b) <==> TopicSet(first) + AskedIn(more, a) <= TopicSet(ListAfter(first, more, a)))
  {
    ListedOnlyByLists(net'.links[Pair(a, b)].chan);
    LastListIsAsked(first, more, a);
  }

  lemma {:induction false} LastListIsAsked(topics: seq<Topic>, steps: seq<Step>, a: Addr)
    ensures TopicSet(ListAfter(topics, steps, a)) <= TopicSet(topics) + AskedIn(steps, a)
    decreases |steps|
  {
    if steps != [] {
      LastListIsAsked(if steps[0].Subscribe? && steps[0].a == a then steps[0].topics else topics, steps[1..], a);
    }
  }

  /** `a` is told of `b`: from then on, in the words of its calls alone. */
  lemma FirstNotice(net: Net, a: Addr, b: Addr)
    requires Inv(net) && Enabled(net, NoticeUp(a, b)) && b !in net.nodes[a].remotes
    ensures var net' := Apply(net, NoticeUp(a, b));
            && Inv(net') && Knows(net', a, b)
            && net'.nodes[a].topics == net.nodes[a].topics
            && net'.links[Pair(a, b)].listed == TopicSet(net.nodes[a].topics)
  {
    assert net.links[Pair(a, b)].listed == {} by {
      assert ListInv(a, net.nodes[a], b, net.nodes[b], net.links[Pair(a, b)]);
    }
    StepKeeps(net, NoticeUp(a, b));
    NoticeStartsListing(net, a, b);
  }

  lemma NoticeStartsListing(net: Net, a: Addr, b: Addr)
    requires Enabled(net, NoticeUp(a, b)) && IsCallbackAddr(b) && b !in net.nodes[a].remotes
    requires net.links[Pair(a, b)].listed == {}
    ensures var net' := Apply(net, NoticeUp(a, b));
            && Knows(net', a, b)
            && net'.nodes[a].topics == net.nodes[a].topics
            && net'.links[Pair(a, b)].listed == TopicSet(net.nodes[a].topics)
  {
    NoticeSendsList(net.nodes[a], b);
  }

  lemma NoticeSendsList(n: NodeState, b: Addr)
    requires IsCallbackAddr(b) && b !in n.remotes
    ensures var o := Connected(n, b.nodeType, b.nodeID);
            && b in o.node.remotes && o.node.topics == n.topics
            && MsgsTo(o.out, b) == [SubMsg(n.topics)] && ListedBy(MsgsTo(o.out, b)) == TopicSet(n.topics)
  {
    assert Connected(n, b.nodeType, b.nodeID).out[1..] == [] && [SubMsg(n.topics)][1..] == [];
  }

  /** The whole life of a link: from the moment `a` is told of `b`, what `b` has registered for it
      or is still to learn is exactly the list `a` had then and every list it asked for since; so
      once settled the registry equals the current list if and only if that list names them all. */
  lemma RegistryOverLinkLifeIff(start: Net, steps: seq<Step>, a: Addr, b: Addr, more: seq<Step>)
    requires Init(start) && Lasts(more, a, b)
    requires Enabled(Run(start, steps), NoticeUp(a, b)) && b !in Run(start, steps).nodes[a].remotes
    ensures var first := Run(start, steps).nodes[a].topics;
            var net' := Run(Apply(Run(start, steps), NoticeUp(a, b)), more);
            && Knows(net', a, b)
            && Registered(net'.nodes[b], a) + ListedBy(net'.links[Pair(a, b)].chan)
               == TopicSet(first) + AskedIn(more, a)
            && (ListsSettled(net', a, b) ==>
                  (InStep(net', a, b) <==> TopicSet(first) + AskedIn(more, a) <= TopicSet(ListAfter(first, more, a))))
  {
    var net := Run(start, steps);
    var told := Apply(net, NoticeUp(a, b));
    var net' := Run(told, more);
    Safety(start, steps);
    FirstNotice(net, a, b);
    RunListsAsked(told, more, a, b);
    RunKeepsList(told, more, a, b);
    assert ListInv(a, net'.nodes[a], b, net'.nodes[b], net'.links[Pair(a, b)]);
    InStepWhenCovered(net', a, b, net.nodes[a].topics, more);
  }

  /** A single call: the new list is honoured if and only if it names every topic of the old one. */
  lemma ResubscribingIsExactIff(start: Net, steps: seq<Step>, a: Addr, b: Addr, topics: seq<Topic>, more: seq<Step>)
    requires Init(start) && InStep(Run(start, steps), a, b)
    requires Lasts(more, a, b) && forall s :: s in more ==> !(s.Subscribe? && s.a == a)
    ensures var net' := Run(Run(start, steps), [Subscribe(a, topics)] + more);
            Knows(net', a, b) &&
              (ListsSettled(net', a, b) ==>
                (Registered(net'.nodes[b], a) == TopicSet(topics)
                 <==> TopicSet(Run(start, steps).nodes[a].topics) <= TopicSet(topics)))
  {
    var call := [Subscribe(a, topics)] + more;
    assert call[1..] == more;
    NothingAsked(more, a);
    InStepAgainIff(start, steps, a, b, call);
  }

  lemma {:induction false} NothingAsked(steps: seq<Step>, a: Addr)
    requires forall s :: s in steps ==> !(s.Subscribe? && s.a == a)
    ensures AskedIn(steps, a) == {}
  {
    if steps != [] {
      assert steps[0] in steps;
      NothingAsked(steps[1..], a);
    }
  }
}
