/** The callback service as it runs: subscriber sets and handlers that update their fields in
    place.  Every handler is proved to compute the function of the same name in `MqNode`. */
module MqCallbackService {
  import opened Maps
  import opened MqNode
  import opened Wrappers

  /** The subscribers of one topic with their polling cursor. */
  class SubMsgAddr {
    var addrSet: seq<Addr>
    var it: nat

    ghost function State(): Sub
      reads this
    {
      Sub(addrSet, it)
    }

    constructor ()
      ensures State() == EMPTY_SUB
    {
      addrSet, it := [], 0;
    }

    method Insert(addr: Addr) returns (rc: int)
      modifies this
      ensures State() == SubInsert(old(State()), addr)
      ensures rc == if addr in old(addrSet) then -1 else 0
    {
      if addr !in addrSet {
        addrSet := SetInsert(addrSet, addr);
        it := 0;
        rc := 0;
      } else {
        rc := -1;
      }
    }

    method Erase(addr: Addr) returns (rc: int)
      modifies this
      ensures State() == SubErase(old(State()), addr)
      ensures rc == if addr in old(addrSet) then 0 else -1
    {
      if addr !in addrSet {
        rc := -1;
      } else {
        addrSet := SetErase(addrSet, addr);
        it := 0;
        rc := 0;
      }
    }

    method Empty() returns (r: bool)
      ensures r <==> addrSet == []
    {
      r := addrSet == [];
    }

    /** Polls one subscriber; with none, `addr` is left as the caller passed it. */
    method GetAddr(addr: Addr) returns (rc: int, chosen: Addr)
      requires it <= |addrSet|
      modifies this`it
      ensures State() == SubGet(old(State())).1
      ensures match SubGet(old(State())).0
              case Some(a) => rc == 0 && chosen == a
              case None => rc == -1 && chosen == addr
    {
      if addrSet == [] {
        return -1, addr;
      }
      if it == |addrSet| {
        it := 0;
      }
      rc, chosen := 0, addrSet[it];
      it := it + 1;
    }
  }

  /** `now` agrees with `was` on `todo`; everywhere else `addr` has been pruned from it. */
  ghost predicate PrunedOutside(now: map<Topic, Sub>, was: map<Topic, Sub>, todo: set<Topic>, addr: Addr) {
    && (forall t :: t in todo ==> t in now && t in was && now[t] == was[t])
    && (forall t :: t in now && t !in todo ==> t in was && now[t] == SubErase(was[t], addr) && now[t].addrs != [])
    && (forall t :: t in was && t !in now ==> SubErase(was[t], addr).addrs == [])
  }

  /** The registry after the loop has dealt with topic `t`. */
  function EraseFrom(registry: map<Topic, Sub>, t: Topic, addr: Addr): map<Topic, Sub>
    requires t in registry
  {
    var e := SubErase(registry[t], addr);
    if e.addrs == [] then registry - {t} else registry[t := e]
  }

  lemma PruneStep(now: map<Topic, Sub>, was: map<Topic, Sub>, todo: set<Topic>, t: Topic, addr: Addr)
    requires t in todo && PrunedOutside(now, was, todo, addr)
    ensures PrunedOutside(EraseFrom(now, t, addr), was, todo - {t}, addr)
  {
  }

  lemma PruneDone(now: map<Topic, Sub>, was: map<Topic, Sub>, addr: Addr)
    requires PrunedOutside(now, was, {}, addr)
    ensures now == Prune(was, addr)
  {
    forall t
      ensures t in now <==> t in Prune(was, addr)
    {
    }
  }

  class CallbackService {
    var remoteAddrs: seq<Addr>
    var topicRegistry: map<Topic, SubMsgAddr>
    var msgIDs: seq<Topic>
    var outbox: seq<Envelope>             // every message handed to the transport
    var inbox: seq<AppMsg>                // every message handed to the application
    ghost var liveSubs: set<SubMsgAddr>   // subscriber sets allocated and not yet freed

    ghost function Registry(): map<Topic, Sub>
      reads this`topicRegistry, topicRegistry.Values
    {
      map t | t in topicRegistry :: topicRegistry[t].State()
    }

    ghost function State(): NodeState
      reads this, topicRegistry.Values
    {
      NodeState(remoteAddrs, msgIDs, Registry(), inbox)
    }

    /** Every topic has a subscriber set of its own, and the sets that are alive are exactly
        those in the registry: none leaks, none is freed while in use. */
    ghost predicate Valid()
      reads this, topicRegistry.Values
    {
      && Sorted(remoteAddrs)
      && (forall t :: t in topicRegistry ==> SubValid(topicRegistry[t].State()))
      && liveSubs == topicRegistry.Values
      && (forall t, u :: t in topicRegistry && u in topicRegistry && t != u ==>
            topicRegistry[t] != topicRegistry[u])
    }

    constructor ()
      ensures Valid() && fresh(topicRegistry.Values)
      ensures State() == NodeState([], [], map[], []) && outbox == []
    {
      remoteAddrs, topicRegistry, msgIDs, outbox, inbox := [], map[], [], [], [];
      liveSubs := {};
    }

    method SendDscMessage(msg: Msg, addr: Addr)
      modifies this`outbox
      ensures outbox == old(outbox) + [Envelope(addr, msg)]
    {
      outbox := outbox + [Envelope(addr, msg)];
    }

    /** The loop over an address set that sends every member the same message. */
    method SendToEach(dests: seq<Addr>, msg: Msg)
      modifies this`outbox
      ensures outbox == old(outbox) + SendEach(dests, msg)
    {
      var i := 0;
      while i < |dests|
        invariant 0 <= i <= |dests|
        invariant outbox == old(outbox) + SendEach(dests, msg)[..i]
      {
        SendDscMessage(msg, dests[i]);
        i := i + 1;
      }
    }

    method OnConnected(nodeType: int, nodeID: int)
      requires Valid()
      modifies this
      ensures Valid() && topicRegistry == old(topicRegistry)
      ensures var r := Connected(old(State()), nodeType, nodeID);
              State() == r.node && outbox == old(outbox) + r.out
    {
      var addr := CallbackAddr(nodeType, nodeID);
      if addr !in remoteAddrs {
        remoteAddrs := SetInsert(remoteAddrs, addr);
        SendDscMessage(SubMsg(msgIDs), addr);
      }
    }

    method OnDisConnected(nodeType: int, nodeID: int)
      requires Valid()
      modifies this, topicRegistry.Values
      ensures Valid() && topicRegistry.Values <= old(topicRegistry.Values)
      ensures State() == Disconnected(old(State()), nodeType, nodeID)
      ensures outbox == old(outbox)
    {
      var addr := CallbackAddr(nodeType, nodeID);
      if addr in remoteAddrs {
        remoteAddrs := SetErase(remoteAddrs, addr);
        PruneTopics(addr);
      }
    }

    /** The loop erases registry entries while it walks them; `todo` is what the iterator has
        not reached yet, in whatever order the hash map keeps its keys. */
    method PruneTopics(addr: Addr)
      requires Valid()
      modifies this`topicRegistry, this`liveSubs, topicRegistry.Values
      ensures Valid() && topicRegistry.Values <= old(topicRegistry.Values)
      ensures Registry() == Prune(old(Registry()), addr)
    {
      ghost var was := Registry();
      var todo := topicRegistry.Keys;
      assert todo == was.Keys;
      while todo != {}
        invariant Valid() && topicRegistry.Values <= old(topicRegistry.Values)
        invariant PrunedOutside(Registry(), was, todo, addr)
      {
        var t :| t in todo;
        PruneStep(Registry(), was, todo, t, addr);
        EraseFromTopic(t, addr);
        todo := todo - {t};
      }
      PruneDone(Registry(), was, addr);
    }

    /** One turn of that loop. */
    method EraseFromTopic(t: Topic, addr: Addr)
      requires Valid() && t in topicRegistry
      modifies this`topicRegistry, this`liveSubs, topicRegistry[t]
      ensures Valid() && topicRegistry.Values <= old(topicRegistry.Values)
      ensures Registry() == EraseFrom(old(Registry()), t, addr)
    {
      ghost var was := Registry();
      EraseAddr(t, addr);
      assert topicRegistry == old(topicRegistry);
      var isEmpty := topicRegistry[t].Empty();
      if isEmpty {
        PutThenDropped(was, t, SubErase(was[t], addr));
        Forget(t);
      }
    }

    /** Takes `addr` out of one topic's subscriber set, which may be left empty. */
    method EraseAddr(t: Topic, addr: Addr)
      requires Valid() && t in topicRegistry
      modifies topicRegistry[t]
      ensures Valid() && Registry() == old(Registry())[t := SubErase(old(Registry())[t], addr)]
    {
      var _ := topicRegistry[t].Erase(addr);
    }

    /** Frees the subscriber set of `t` and drops the topic. */
    method Forget(t: Topic)
      requires Valid() && t in topicRegistry
      modifies this`topicRegistry, this`liveSubs
      ensures Valid() && topicRegistry.Values <= old(topicRegistry.Values)
      ensures Registry() == old(Registry()) - {t}
    {
      ValuesWithout(topicRegistry, t);
      assert topicRegistry[t] in liveSubs;
      liveSubs := liveSubs - {topicRegistry[t]};
      topicRegistry := topicRegistry - {t};
    }

    /** The application replaces its subscription list; every connected peer is told. */
    method OnLocalSubscribe(topics: seq<Topic>)
      requires Valid()
      modifies this
      ensures Valid() && topicRegistry == old(topicRegistry)
      ensures var r := LocalSubscribe(old(State()), topics);
              State() == r.node && outbox == old(outbox) + r.out
    {
      msgIDs := topics;
      SendToEach(remoteAddrs, SubMsg(topics));
    }

    /** A peer's subscription list arrives. */
    method OnRemoteSubscribe(topics: seq<Topic>, src: Addr)
      requires Valid()
      modifies this, topicRegistry.Values
      ensures Valid() && fresh(topicRegistry.Values - old(topicRegistry.Values))
      ensures State() == RemoteSubscribe(old(State()), topics, src)
      ensures outbox == old(outbox)
    {
      var i := 0;
      assert topics[..0] == [];
      while i < |topics|
        invariant 0 <= i <= |topics|
        invariant Valid() && fresh(topicRegistry.Values - old(topicRegistry.Values))
        invariant State() == RemoteSubscribe(old(State()), topics[..i], src)
        invariant outbox == old(outbox)
      {
        assert topics[..i + 1][..i] == topics[..i];
        SubscribeTopic(topics[i], src);
        i := i + 1;
      }
      assert topics[..i] == topics;
    }

    /** One turn of that loop. */
    method SubscribeTopic(t: Topic, src: Addr)
      requires Valid()
      modifies this`topicRegistry, this`liveSubs, topicRegistry.Values
      ensures Valid() && fresh(topicRegistry.Values - old(topicRegistry.Values))
      ensures Registry() == SubscribeOne(old(Registry()), t, src)
    {
      ghost var was := Registry();
      if t !in topicRegistry {
        var sub := new SubMsgAddr();
        liveSubs := liveSubs + {sub};
        ValuesWith(topicRegistry, t, sub);
        topicRegistry := topicRegistry[t := sub];
        var _ := sub.Insert(src);
        assert Registry() == was[t := SubInsert(EMPTY_SUB, src)];
      } else {
        var _ := topicRegistry[t].Insert(src);
        assert topicRegistry == old(topicRegistry);
        assert Registry() == was[t := SubInsert(was[t], src)];
      }
    }

    /** The application publishes: to one subscriber in turn, or to all of them. */
    method OnPublish(kind: int, pub: Pub)
      requires Valid()
      modifies this, topicRegistry.Values
      ensures Valid() && topicRegistry == old(topicRegistry)
      ensures var r := Publish(old(State()), kind, pub);
              State() == r.node && outbox == old(outbox) + r.out
    {
      if pub.topic in topicRegistry {
        var sub := topicRegistry[pub.topic];
        if kind == EN_POLL_TYPE {
          var _, addr := sub.GetAddr(UNSET_ADDR);
          SendDscMessage(PubMsg(pub), addr);
          assert Registry() == old(Registry())[pub.topic := SubGet(old(sub.State())).1];
        } else {
          SendToEach(sub.addrSet, PubMsg(pub));
        }
      }
    }

    /** A publication arrives and is handed to the application with its origin. */
    method OnPubMsg(pub: Pub, src: Addr)
      requires Valid()
      modifies this`inbox
      ensures Valid()
      ensures State() == Receive(old(State()), pub, src)
    {
      inbox := inbox + [AppMsg(src.nodeType, src.nodeID, pub)];
    }
  }

  /** One event. */
  method DriveOne(s: CallbackService, e: Event)
    requires s.Valid()
    modifies s, s.topicRegistry.Values
    ensures s.Valid() && fresh(s.topicRegistry.Values - old(s.topicRegistry.Values))
    ensures s.State() == Handle(old(s.State()), e).node
    ensures s.outbox == old(s.outbox) + Handle(old(s.State()), e).out
  {
    match e {
      case Up(nodeType, nodeID) => s.OnConnected(nodeType, nodeID);
      case Down(nodeType, nodeID) => s.OnDisConnected(nodeType, nodeID);
      case Wants(topics) => s.OnLocalSubscribe(topics);
      case Listed(topics, src) => s.OnRemoteSubscribe(topics, src);
      case Publishes(kind, pub) => s.OnPublish(kind, pub);
      case Gets(pub, src) => s.OnPubMsg(pub, src);
    }
  }

  /** Any series of events through the service is that series through the node's functions. */
  method Drive(s: CallbackService, events: seq<Event>)
    requires s.Valid()
    modifies s, s.topicRegistry.Values
    ensures s.Valid() && fresh(s.topicRegistry.Values - old(s.topicRegistry.Values))
    ensures s.State() == HandleAll(old(s.State()), events).node
    ensures s.outbox == old(s.outbox) + HandleAll(old(s.State()), events).out
    decreases |events|
  {
    if events != [] {
      ghost var first := Handle(s.State(), events[0]);
      SentInOrder(s.outbox, first.out, HandleAll(first.node, events[1..]).out);
      DriveOne(s, events[0]);
      Drive(s, events[1..]);
    }
  }

  lemma SentInOrder(before: seq<Envelope>, first: seq<Envelope>, rest: seq<Envelope>)
    ensures (before + first) + rest == before + (first + rest)
  {
  }
}
