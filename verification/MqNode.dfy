/** The state of one peer of the peer-to-peer message queue and the effect of each of its
    handlers, as pure functions.  `MqCallbackService.dfy` holds the stateful service that is
    proved to compute them; `MqNetwork.dfy` composes many such peers into a network. */
module MqNode {
  import opened Cyclic
  import opened Wrappers

  datatype ServiceType = MqCallback | OtherService(code: nat)

  /** A message address: node type, node id, service type, service id. */
  datatype Addr = Addr(nodeType: int, nodeID: int, serviceType: ServiceType, serviceID: int)

  /** The address the service builds for the peer behind a connection; the service is
      registered with id 1 on every node, so it is also the source address of that peer. */
  function CallbackAddr(nodeType: int, nodeID: int): Addr {
    Addr(nodeType, nodeID, MqCallback, 1)
  }

  predicate IsCallbackAddr(a: Addr) {
    a == CallbackAddr(a.nodeType, a.nodeID)
  }

  function TypeCode(s: ServiceType): nat {
    match s
    case MqCallback => 0
    case OtherService(code) => code + 1
  }

  /** The strict order that keys the address sets. */
  predicate Less(a: Addr, b: Addr) {
    || a.nodeType < b.nodeType
    || (a.nodeType == b.nodeType &&
        (|| a.nodeID < b.nodeID
         || (a.nodeID == b.nodeID &&
             (|| TypeCode(a.serviceType) < TypeCode(b.serviceType)
              || (TypeCode(a.serviceType) == TypeCode(b.serviceType) && a.serviceID < b.serviceID)))))
  }

  lemma LessTrichotomy(a: Addr, b: Addr)
    ensures Less(a, b) || a == b || Less(b, a)
    ensures !(Less(a, b) && Less(b, a)) && !Less(a, a)
  {
  }

  // ---------------------------------------------------------------- ordered address sets

  /** An ordered set is the sequence of its elements in iteration order. */
  ghost predicate Sorted(s: seq<Addr>) {
    forall i, j :: 0 <= i < j < |s| ==> Less(s[i], s[j])
  }

  lemma SortedIsDistinct(s: seq<Addr>, i: nat, j: nat)
    requires Sorted(s) && i < j < |s|
    ensures s[i] != s[j]
  {
    assert Less(s[i], s[j]);
  }

  /** Insertion keeps the order; an element already there is not inserted again. */
  function SetInsert(s: seq<Addr>, a: Addr): (r: seq<Addr>)
    ensures forall x :: x in r <==> x in s || x == a
    ensures Sorted(s) ==> Sorted(r)
    ensures a in s && Sorted(s) ==> r == s
    ensures |r| <= |s| + 1
  {
    if s == [] then [a]
    else if a == s[0] then s
    else if Less(a, s[0]) then
      assert forall x :: x in [a] + s <==> x in s || x == a;
      [a] + s
    else
      var t := SetInsert(s[1..], a);
      assert forall x :: x in s <==> x == s[0] || x in s[1..];
      assert Sorted(s) ==> Sorted(s[1..]) && forall i :: 0 <= i < |t| ==> t[i] in s[1..] || t[i] == a;
      LessTrichotomy(a, s[0]);
      [s[0]] + t
  }

  function SetErase(s: seq<Addr>, a: Addr): (r: seq<Addr>)
    ensures forall x :: x in r <==> x in s && x != a
    ensures Sorted(s) ==> Sorted(r)
    ensures a !in s ==> r == s
    ensures |r| <= |s|
  {
    if s == [] then []
    else
      var t := SetErase(s[1..], a);
      assert forall x :: x in s <==> x == s[0] || x in s[1..];
      assert Sorted(s) ==> Sorted(s[1..]) && forall i :: 0 <= i < |t| ==> t[i] in s[1..];
      if s[0] == a then t else [s[0]] + t
  }

  // ---------------------------------------------------------------- subscribers of one topic

  /** The subscribers of one topic and the polling cursor; `it == |addrs|` is the end position. */
  datatype Sub = Sub(addrs: seq<Addr>, it: nat)

  const EMPTY_SUB := Sub([], 0)

  ghost predicate SubValid(s: Sub) {
    Sorted(s.addrs) && s.it <= |s.addrs|
  }

  /** A new subscriber restarts the rotation; a known one leaves it alone. */
  function SubInsert(s: Sub, a: Addr): Sub {
    if a in s.addrs then s else Sub(SetInsert(s.addrs, a), 0)
  }

  function SubErase(s: Sub, a: Addr): Sub {
    if a in s.addrs then Sub(SetErase(s.addrs, a), 0) else s
  }

  /** One poll: the subscriber under the cursor, and the cursor moved behind it. */
  function SubGet(s: Sub): (Option<Addr>, Sub) {
    if s.addrs == [] then (None, s)
    else
      var it := if s.it < |s.addrs| then s.it else 0;
      (Some(s.addrs[it]), Sub(s.addrs, it + 1))
  }

  /** The subscribers chosen by `k` consecutive polls. */
  function Polls(s: Sub, k: nat): seq<Addr>
    requires s.addrs != []
    decreases k
  {
    if k == 0 then [] else [SubGet(s).0.value] + Polls(SubGet(s).1, k - 1)
  }

  /** Between membership changes the polls walk the subscribers in ascending cyclic order. */
  lemma {:induction false} PollRotation(s: Sub, k: nat, i: nat)
    requires SubValid(s) && s.addrs != [] && i < k
    ensures |Polls(s, k)| == k
    ensures Polls(s, k)[i] == s.addrs[(s.it + i) % |s.addrs|]
    decreases k
  {
    var n := |s.addrs|;
    var it := if s.it < n then s.it else 0;
    if s.it == n {
      ModUnique(s.it, n, 1, 0);
    } else {
      ModUnique(s.it, n, 0, s.it);
    }
    ModOfSum(s.it, i, n);
    if k > 1 {
      PollRotation(SubGet(s).1, k - 1, if i == 0 then 0 else i - 1);
    }
    if i == 0 {
      ModUnique(it, n, 0, it);
    } else {
      assert it + 1 + (i - 1) == it + i;
    }
  }

  lemma {:induction false} PollsAreTurns(s: Sub, k: nat)
    requires s.it <= |s.addrs| && s.addrs != []
    ensures Polls(s, k) == Turns(s.addrs, s.it, k)
    decreases k
  {
    if k > 0 {
      PollsAreTurns(SubGet(s).1, k - 1);
    }
  }

  /** Every subscriber is polled as often as the cursor passes it. */
  lemma PollCounts(s: Sub, k: nat, j: nat)
    requires SubValid(s) && j < |s.addrs|
    ensures Count(Polls(s, k), s.addrs[j]) == Hits(s.it, k, |s.addrs|, j)
  {
    forall c | 0 <= c < |s.addrs| && c != j
      ensures s.addrs[c] != s.addrs[j]
    {
      SortedIsDistinct(s.addrs, if c < j then c else j, if c < j then j else c);
    }
    PollsAreTurns(s, k);
    TurnsCount(s.addrs, s.it, k, j);
  }

  /** A full round of polls serves every subscriber exactly once, and any number of polls
      spreads evenly. */
  lemma PollsAreFair(s: Sub, k: nat, j: nat)
    requires SubValid(s) && j < |s.addrs|
    ensures Count(Polls(s, |s.addrs|), s.addrs[j]) == 1
    ensures k / |s.addrs| <= Count(Polls(s, k), s.addrs[j]) <= k / |s.addrs| + 1
  {
    PollCounts(s, |s.addrs|, j);
    HitsOneTurn(s.it, |s.addrs|, j);
    PollCounts(s, k, j);
    HitsBalanced(s.it, k, |s.addrs|, j);
  }

  // ---------------------------------------------------------------- messages and handlers

  /** A topic number. */
  datatype Topic = Topic(id: int)

  /** A publication: a topic and the bytes published under it. */
  datatype Pub = Pub(topic: Topic, payload: seq<bv8>)

  /** What travels between peers: a subscription list or a publication. */
  datatype Msg = SubMsg(topics: seq<Topic>) | PubMsg(pub: Pub)

  datatype Envelope = Envelope(dest: Addr, msg: Msg)

  /** What the application's callback receives. */
  datatype AppMsg = AppMsg(appType: int, appID: int, pub: Pub)

  const EN_BROADCAST_TYPE := 0
  const EN_POLL_TYPE := 1

  /** Stands for the content of a default-constructed address, which this model does not
      know; `PublishReaches` shows that no message is ever sent to it. */
  const UNSET_ADDR := Addr(0, 0, OtherService(0), 0)

  datatype NodeState = NodeState(
    remotes: seq<Addr>,          // peers whose connection this node has been told of
    topics: seq<Topic>,            // the topics this node currently subscribes to
    registry: map<Topic, Sub>,     // topic -> subscribed peers
    inbox: seq<AppMsg>)          // everything handed to the application so far

  /** A handler's result: the new state and the messages it sends, in order. */
  datatype Outcome = Outcome(node: NodeState, out: seq<Envelope>)

  function SendEach(dests: seq<Addr>, m: Msg): seq<Envelope> {
    seq(|dests|, i requires 0 <= i < |dests| => Envelope(dests[i], m))
  }

  function Connected(n: NodeState, nodeType: int, nodeID: int): Outcome {
    var addr := CallbackAddr(nodeType, nodeID);
    if addr in n.remotes then Outcome(n, [])
    else Outcome(n.(remotes := SetInsert(n.remotes, addr)), [Envelope(addr, SubMsg(n.topics))])
  }

  /** The registry without `addr`: topics it was the last subscriber of disappear. */
  function Prune(registry: map<Topic, Sub>, addr: Addr): map<Topic, Sub> {
    map t | t in registry && SubErase(registry[t], addr).addrs != [] :: SubErase(registry[t], addr)
  }

  function Disconnected(n: NodeState, nodeType: int, nodeID: int): NodeState {
    var addr := CallbackAddr(nodeType, nodeID);
    if addr !in n.remotes then n
    else n.(remotes := SetErase(n.remotes, addr), registry := Prune(n.registry, addr))
  }

  function LocalSubscribe(n: NodeState, topics: seq<Topic>): Outcome {
    Outcome(n.(topics := topics), SendEach(n.remotes, SubMsg(topics)))
  }

  function SubscribeOne(registry: map<Topic, Sub>, topic: Topic, src: Addr): map<Topic, Sub> {
    registry[topic := SubInsert(if topic in registry then registry[topic] else EMPTY_SUB, src)]
  }

  function SubscribeAll(registry: map<Topic, Sub>, topics: seq<Topic>, src: Addr): map<Topic, Sub> {
    if topics == [] then registry
    else SubscribeOne(SubscribeAll(registry, topics[..|topics| - 1], src), topics[|topics| - 1], src)
  }

  function RemoteSubscribe(n: NodeState, topics: seq<Topic>, src: Addr): NodeState {
    n.(registry := SubscribeAll(n.registry, topics, src))
  }

  function Publish(n: NodeState, kind: int, pub: Pub): Outcome {
    if pub.topic !in n.registry then Outcome(n, [])
    else
      var sub := n.registry[pub.topic];
      if kind == EN_POLL_TYPE then
        var (dest, sub') := SubGet(sub);
        var addr := match dest case Some(a) => a case None => UNSET_ADDR;
        Outcome(n.(registry := n.registry[pub.topic := sub']), [Envelope(addr, PubMsg(pub))])
      else
        Outcome(n, SendEach(sub.addrs, PubMsg(pub)))
  }

  function Receive(n: NodeState, pub: Pub, src: Addr): NodeState {
    n.(inbox := n.inbox + [AppMsg(src.nodeType, src.nodeID, pub)])
  }

  /** What can happen to one peer. */
  datatype Event =
    | Up(nodeType: int, nodeID: int)
    | Down(nodeType: int, nodeID: int)
    | Wants(topics: seq<Topic>)
    | Listed(topics: seq<Topic>, src: Addr)
    | Publishes(kind: int, pub: Pub)
    | Gets(pub: Pub, src: Addr)

  function Handle(n: NodeState, e: Event): Outcome {
    match e
    case Up(nodeType, nodeID) => Connected(n, nodeType, nodeID)
    case Down(nodeType, nodeID) => Outcome(Disconnected(n, nodeType, nodeID), [])
    case Wants(topics) => LocalSubscribe(n, topics)
    case Listed(topics, src) => Outcome(RemoteSubscribe(n, topics, src), [])
    case Publishes(kind, pub) => Publish(n, kind, pub)
    case Gets(pub, src) => Outcome(Receive(n, pub, src), [])
  }

  /** A series of events: the last state and everything sent, in order. */
  function HandleAll(n: NodeState, events: seq<Event>): Outcome
    decreases |events|
  {
    if events == [] then Outcome(n, [])
    else
      var first := Handle(n, events[0]);
      var rest := HandleAll(first.node, events[1..]);
      Outcome(rest.node, first.out + rest.out)
  }

  // ---------------------------------------------------------------- what every handler keeps

  /** Sets are ordered, cursors are inside or one past the end. */
  ghost predicate NodeValid(n: NodeState) {
    Sorted(n.remotes) && forall t :: t in n.registry ==> SubValid(n.registry[t])
  }

  /** No topic is left without a subscriber. */
  ghost predicate NoEmptyTopic(n: NodeState) {
    forall t :: t in n.registry ==> n.registry[t].addrs != []
  }

  /** Only connected peers are registered. */
  ghost predicate RegisteredAreRemotes(n: NodeState) {
    forall t, a :: t in n.registry && a in n.registry[t].addrs ==> a in n.remotes
  }

  ghost predicate NodeInv(n: NodeState) {
    NodeValid(n) && NoEmptyTopic(n) && RegisteredAreRemotes(n)
  }

  /** The topics `a` is registered for at node `n`. */
  ghost function Registered(n: NodeState, a: Addr): set<Topic> {
    set t | t in n.registry && a in n.registry[t].addrs
  }

  function TopicSet(topics: seq<Topic>): set<Topic> {
    set t | t in topics
  }

  /** Handling a subscription list adds exactly its topics for exactly its sender; every
      entry that already knows the sender, or that the list does not name, is untouched. */
  lemma {:induction false} SubscribeAllEffect(registry: map<Topic, Sub>, topics: seq<Topic>, src: Addr)
    ensures var r := SubscribeAll(registry, topics, src);
            && r.Keys == registry.Keys + TopicSet(topics)
            && (forall t, a :: t in r ==> (a in r[t].addrs <==>
                  (t in registry && a in registry[t].addrs) || (a == src && t in topics)))
            && (forall t :: t in registry && (t !in topics || src in registry[t].addrs) ==> r[t] == registry[t])
            && ((forall t :: t in registry ==> SubValid(registry[t])) ==> forall t :: t in r ==> SubValid(r[t]))
            && ((forall t :: t in registry ==> registry[t].addrs != []) ==> forall t :: t in r ==> r[t].addrs != [])
  {
    if topics != [] {
      var k := |topics| - 1;
      SubscribeAllEffect(registry, topics[..k], src);
      assert forall t :: t in topics <==> t in topics[..k] || t == topics[k] by {
        assert topics == topics[..k] + [topics[k]];
      }
      var q := SubscribeAll(registry, topics[..k], src);
      var e := if topics[k] in q then q[topics[k]] else EMPTY_SUB;
      assert SubInsert(e, src).addrs != [] by {
        assert src in SubInsert(e, src).addrs;
      }
    }
  }

  /** A list that brings a topic a new subscriber puts its cursor back to the first one. */
  lemma {:induction false} ListRestarts(registry: map<Topic, Sub>, topics: seq<Topic>, src: Addr, t: Topic)
    requires t in topics && (t in registry ==> src !in registry[t].addrs)
    ensures t in SubscribeAll(registry, topics, src) && SubscribeAll(registry, topics, src)[t].it == 0
  {
    var k := |topics| - 1;
    SubscribeAllEffect(registry, topics, src);
    SubscribeAllEffect(registry, topics[..k], src);
    assert topics == topics[..k] + [topics[k]];
    if t in topics[..k] {
      ListRestarts(registry, topics[..k], src, t);
    }
  }

  /** The loss of a subscriber puts the cursor of each of its topics back to the first one left. */
  lemma PruneRestarts(registry: map<Topic, Sub>, addr: Addr, t: Topic)
    requires t in Prune(registry, addr) && addr in registry[t].addrs
    ensures Prune(registry, addr)[t].it == 0
  {
  }

  /** Polls from the first subscriber on: the least one first, then in ascending cyclic order. */
  lemma PollsFromStart(s: Sub, k: nat, i: nat)
    requires SubValid(s) && s.it == 0 && s.addrs != [] && i < k
    ensures |Polls(s, k)| == k && Polls(s, k)[i] == s.addrs[i % |s.addrs|]
    ensures forall j :: 0 < j < |s.addrs| ==> Less(s.addrs[0], s.addrs[j])
  {
    PollRotation(s, k, i);
  }

  /** Polling after a list that brings a topic a new subscriber starts over with the least one,
      whatever it had reached before. */
  lemma ListRestartsPolling(registry: map<Topic, Sub>, topics: seq<Topic>, src: Addr, t: Topic, k: nat, i: nat)
    requires forall u :: u in registry ==> SubValid(registry[u])
    requires t in topics && (t in registry ==> src !in registry[t].addrs) && i < k
    ensures var r := SubscribeAll(registry, topics, src);
            && t in r && r[t].addrs != []
            && |Polls(r[t], k)| == k && Polls(r[t], k)[i] == r[t].addrs[i % |r[t].addrs|]
  {
    SubscribeAllEffect(registry, topics, src);
    var sub := SubscribeAll(registry, topics, src)[t];
    assert src in sub.addrs;
    ListRestarts(registry, topics, src, t);
    PollsFromStart(sub, k, i);
  }

  /** And so does polling after the loss of one of several subscribers. */
  lemma PruneRestartsPolling(registry: map<Topic, Sub>, addr: Addr, t: Topic, k: nat, i: nat)
    requires t in registry && SubValid(registry[t])
    requires t in Prune(registry, addr) && addr in registry[t].addrs && i < k
    ensures var r := Prune(registry, addr);
            && r[t].addrs != []
            && |Polls(r[t], k)| == k && Polls(r[t], k)[i] == r[t].addrs[i % |r[t].addrs|]
  {
    PruneRestarts(registry, addr, t);
    PollsFromStart(Prune(registry, addr)[t], k, i);
  }

  /** Losing a peer removes it from every topic, deletes exactly the topics it alone kept
      alive, and leaves every other subscriber where it was. */
  lemma PruneEffect(registry: map<Topic, Sub>, addr: Addr)
    requires forall t :: t in registry ==> registry[t].addrs != []
    ensures var r := Prune(registry, addr);
            && (forall t :: t in r <==> t in registry && exists a :: a in registry[t].addrs && a != addr)
            && (forall t, a :: t in r ==> (a in r[t].addrs <==> a in registry[t].addrs && a != addr))
            && (forall t :: t in registry && addr !in registry[t].addrs ==> t in r && r[t] == registry[t])
            && ((forall t :: t in registry ==> SubValid(registry[t])) ==> forall t :: t in r ==> SubValid(r[t]))
            && (forall t :: t in r ==> r[t].addrs != [])
  {
    forall t | t in registry
      ensures SubErase(registry[t], addr).addrs != [] <==> exists a :: a in registry[t].addrs && a != addr
    {
      var e := SubErase(registry[t], addr).addrs;
      if e != [] {
        assert e[0] in e;
      } else {
        assert forall a :: a !in e;
        assert addr in registry[t].addrs ==> forall a :: a in registry[t].addrs ==> a == addr;
      }
      if addr !in registry[t].addrs {
        assert registry[t].addrs[0] in registry[t].addrs;
      }
    }
  }

  lemma ConnectedKeeps(n: NodeState, nodeType: int, nodeID: int)
    requires NodeInv(n)
    ensures var r := Connected(n, nodeType, nodeID);
            && NodeInv(r.node)
            && (forall a :: a in r.node.remotes <==> a in n.remotes || a == Addr(nodeType, nodeID, MqCallback, 1))
            && (forall a :: Registered(r.node, a) == Registered(n, a))
  {
  }

  lemma DisconnectedKeeps(n: NodeState, nodeType: int, nodeID: int)
    requires NodeInv(n)
    ensures var r := Disconnected(n, nodeType, nodeID);
            var addr := CallbackAddr(nodeType, nodeID);
            && NodeInv(r)
            && (forall a :: a in r.remotes <==> a in n.remotes && a != addr)
            && Registered(r, addr) == {}
            && (forall a :: a != addr ==> Registered(r, a) == Registered(n, a))
  {
    var r := Disconnected(n, nodeType, nodeID);
    var addr := CallbackAddr(nodeType, nodeID);
    if addr in n.remotes {
      PruneEffect(n.registry, addr);
      forall a | a != addr
        ensures Registered(r, a) == Registered(n, a)
      {
        forall t
          ensures t in Registered(r, a) <==> t in Registered(n, a)
        {
        }
      }
      assert forall t :: t !in Registered(r, addr);
    } else {
      assert forall t :: t !in Registered(n, addr);
    }
  }

  lemma RemoteSubscribeKeeps(n: NodeState, topics: seq<Topic>, src: Addr)
    requires NodeInv(n) && src in n.remotes
    ensures var r := RemoteSubscribe(n, topics, src);
            && NodeInv(r)
            && Registered(r, src) == Registered(n, src) + TopicSet(topics)
            && (forall a :: a != src ==> Registered(r, a) == Registered(n, a))
  {
    var r := RemoteSubscribe(n, topics, src);
    SubscribeAllEffect(n.registry, topics, src);
    forall a
      ensures Registered(r, a) == Registered(n, a) + (if a == src then TopicSet(topics) else {})
    {
      forall t
        ensures t in Registered(r, a) <==> t in Registered(n, a) || (a == src && t in topics)
      {
      }
    }
  }

  /** The handler does not ask whether the sender is connected, so a list that arrives from a peer
      not counted as connected registers it all the same: the invariant survives exactly when the
      sender is connected or the list is empty. */
  lemma ListKeepsInvariantIff(n: NodeState, topics: seq<Topic>, src: Addr)
    requires NodeInv(n)
    ensures NodeInv(RemoteSubscribe(n, topics, src)) <==> src in n.remotes || topics == []
  {
    if src in n.remotes {
      RemoteSubscribeKeeps(n, topics, src);
    } else if topics != [] {
      SubscribeAllEffect(n.registry, topics, src);
      assert topics[0] in topics;
      assert src in RemoteSubscribe(n, topics, src).registry[topics[0]].addrs;
    }
  }

  /** A publication of kind 1, a poll, goes to exactly one registered peer; any other goes once to every
      one of them. */
  lemma PublishReaches(n: NodeState, kind: int, pub: Pub)
    requires NodeInv(n)
    ensures var r := Publish(n, kind, pub);
            && NodeInv(r.node)
            && (forall a :: Registered(r.node, a) == Registered(n, a))
            && (forall e :: e in r.out ==> e.msg == PubMsg(pub) && pub.topic in Registered(n, e.dest))
            && (kind == 1 ==> |r.out| == if pub.topic in n.registry then 1 else 0)
            && (kind != 1 ==>
                  forall a :: pub.topic in Registered(n, a) ==> Envelope(a, PubMsg(pub)) in r.out)
  {
    if pub.topic in n.registry {
      var sub := n.registry[pub.topic];
      if kind != 1 {
        forall a | a in sub.addrs
          ensures Envelope(a, PubMsg(pub)) in SendEach(sub.addrs, PubMsg(pub))
        {
          var i :| 0 <= i < |sub.addrs| && sub.addrs[i] == a;
          assert SendEach(sub.addrs, PubMsg(pub))[i] == Envelope(a, PubMsg(pub));
        }
      }
    }
  }
}
