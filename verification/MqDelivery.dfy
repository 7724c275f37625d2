/** Publications: what is sent is delivered in order and exactly once while the link lasts, every
    message is accounted for in every run, and a publication reaches exactly its subscribers. */
module MqDelivery {
  import opened MqNode
  import opened Wrappers
  import opened MqNetwork

  // ---------------------------------------------------------------- the flow invariant

  /** While the link lasts, publications arrive in order, without gaps or repetitions: what the
      receiver has is a prefix of what it had when the link came up and what was sent since. */
  ghost predicate OrderInv(received: seq<Pub>, l: Link) {
    && (!l.up ==> l.chan == [])
    && (l.up ==> received + PubSeq(l.chan) == l.base + l.posted)
  }

  /** Every publication ever sent is received, lost with a link, or in flight. */
  ghost predicate BagInv(received: seq<Pub>, l: Link) {
    && (!l.up ==> l.chan == [])
    && l.sent == multiset(received) + l.lost + multiset(PubSeq(l.chan))
  }

  ghost predicate PubInv(received: seq<Pub>, l: Link) {
    OrderInv(received, l) && BagInv(received, l)
  }

  ghost predicate PairFlow(net: Net, a: Addr, b: Addr) {
    Pair(a, b) in net.links && b in net.nodes ==>
      PubInv(ReceivedFrom(net.nodes[b].inbox, a), net.links[Pair(a, b)])
  }

  ghost predicate FlowInv(net: Net) {
    Shape(net) && forall a, b :: PairFlow(net, a, b)
  }

  lemma {:induction false} PubSeqAppend(x: seq<Msg>, y: seq<Msg>)
    ensures PubSeq(x + y) == PubSeq(x) + PubSeq(y)
  {
    if x == [] {
      assert x + y == y;
    } else {
      PubSeqAppend(x[1..], y);
      assert (x + y)[0] == x[0] && (x + y)[1..] == x[1..] + y;
      Assoc(Arrived(x[0]), PubSeq(x[1..]), PubSeq(y));
    }
  }

  lemma {:induction false} ListsCarryNoPubs(out: seq<Envelope>, b: Addr)
    requires forall e :: e in out ==> e.msg.SubMsg?
    ensures PubSeq(MsgsTo(out, b)) == []
  {
    if out != [] {
      assert out[0] in out;
      ListsCarryNoPubs(out[1..], b);
      PubSeqAppend(if out[0].dest == b then [out[0].msg] else [], MsgsTo(out[1..], b));
      assert PubSeq([out[0].msg]) == [] by {
        assert [out[0].msg][1..] == [];
      }
    }
  }

  lemma ReceivedOneMore(inbox: seq<AppMsg>, pub: Pub, src: Addr, a: Addr)
    requires IsCallbackAddr(a) && IsCallbackAddr(src)
    ensures ReceivedFrom(inbox + [AppMsg(src.nodeType, src.nodeID, pub)], a)
         == ReceivedFrom(inbox, a) + (if a == src then [pub] else [])
  {
    var m := AppMsg(src.nodeType, src.nodeID, pub);
    assert (inbox + [m])[..|inbox + [m]| - 1] == inbox;
  }

  lemma Assoc(a: seq<Pub>, b: seq<Pub>, c: seq<Pub>)
    ensures a + (b + c) == (a + b) + c
  {
  }

  lemma PostKeepsOrder(received: seq<Pub>, l: Link, msgs: seq<Msg>)
    requires OrderInv(received, l)
    ensures OrderInv(received, Post(l, msgs))
  {
    if l.up {
      PubSeqAppend(l.chan, msgs);
      Assoc(received, PubSeq(l.chan), PubSeq(msgs));
      Assoc(l.base, l.posted, PubSeq(msgs));
    }
  }

  lemma PostKeepsBag(received: seq<Pub>, l: Link, msgs: seq<Msg>)
    requires BagInv(received, l)
    ensures BagInv(received, Post(l, msgs))
  {
    if l.up {
      PubSeqAppend(l.chan, msgs);
    }
  }

  lemma OpenedAndCutKeepFlow(received: seq<Pub>, l: Link)
    requires PubInv(received, l)
    ensures !l.up ==> PubInv(received, Opened(l, received))
    ensures PubInv(received, Cut(l))
  {
  }

  function Arrived(m: Msg): seq<Pub> {
    match m case PubMsg(pub) => [pub] case SubMsg(_) => []
  }

  lemma HeadArrivesInOrder(received: seq<Pub>, l: Link)
    requires OrderInv(received, l) && l.chan != []
    ensures OrderInv(received + Arrived(l.chan[0]), l.(chan := l.chan[1..]))
  {
    Assoc(received, Arrived(l.chan[0]), PubSeq(l.chan[1..]));
  }

  lemma HeadArrivesInBag(received: seq<Pub>, l: Link)
    requires BagInv(received, l) && l.chan != []
    ensures BagInv(received + Arrived(l.chan[0]), l.(chan := l.chan[1..]))
  {
  }

  lemma SendKeepsFlow(net: Net, a: Addr, o: Outcome)
    requires FlowInv(net) && a in net.nodes && o.node.inbox == net.nodes[a].inbox
    ensures FlowInv(AfterSend(net, a, o))
  {
    var net' := AfterSend(net, a, o);
    forall x, y
      ensures PairFlow(net', x, y)
    {
      assert PairFlow(net, x, y);
      if Pair(x, y) in net.links && x == a {
        PostKeepsOrder(ReceivedFrom(net.nodes[y].inbox, a), net.links[Pair(a, y)], MsgsTo(o.out, y));
        PostKeepsBag(ReceivedFrom(net.nodes[y].inbox, a), net.links[Pair(a, y)], MsgsTo(o.out, y));
      }
    }
  }

  lemma LinkUpKeepsPair(net: Net, a: Addr, b: Addr, x: Addr, y: Addr)
    requires Shape(net) && PairFlow(net, x, y) && Enabled(net, LinkUp(a, b))
    ensures PairFlow(Apply(net, LinkUp(a, b)), x, y)
  {
    if (x == a && y == b) || (x == b && y == a) {
      OpenedAndCutKeepFlow(ReceivedFrom(net.nodes[y].inbox, x), net.links[Pair(x, y)]);
    }
  }

  lemma LinkUpKeepsFlow(net: Net, a: Addr, b: Addr)
    requires FlowInv(net) && Enabled(net, LinkUp(a, b))
    ensures FlowInv(Apply(net, LinkUp(a, b)))
  {
    forall x, y
      ensures PairFlow(Apply(net, LinkUp(a, b)), x, y)
    {
      assert PairFlow(net, x, y);
      LinkUpKeepsPair(net, a, b, x, y);
    }
  }

  lemma LinkDownKeepsPair(net: Net, a: Addr, b: Addr, x: Addr, y: Addr)
    requires PairFlow(net, x, y) && Enabled(net, LinkDown(a, b))
    ensures PairFlow(Apply(net, LinkDown(a, b)), x, y)
  {
    if (x == a && y == b) || (x == b && y == a) {
      OpenedAndCutKeepFlow(ReceivedFrom(net.nodes[y].inbox, x), net.links[Pair(x, y)]);
    }
  }

  lemma LinkDownKeepsFlow(net: Net, a: Addr, b: Addr)
    requires FlowInv(net) && Enabled(net, LinkDown(a, b))
    ensures FlowInv(Apply(net, LinkDown(a, b)))
  {
    forall x, y
      ensures PairFlow(Apply(net, LinkDown(a, b)), x, y)
    {
      assert PairFlow(net, x, y);
      LinkDownKeepsPair(net, a, b, x, y);
    }
  }

  lemma DeliverKeepsOtherFlow(net: Net, a: Addr, b: Addr, x: Addr)
    requires FlowInv(net) && Enabled(net, Deliver(a, b)) && x != a && x in net.nodes
    ensures ReceivedFrom(Apply(net, Deliver(a, b)).nodes[b].inbox, x) == ReceivedFrom(net.nodes[b].inbox, x)
  {
    match net.links[Pair(a, b)].chan[0] {
      case PubMsg(pub) => ReceivedOneMore(net.nodes[b].inbox, pub, a, x);
      case SubMsg(_) =>
    }
  }

  lemma DeliverKeepsOwnFlow(net: Net, a: Addr, b: Addr)
    requires FlowInv(net) && Enabled(net, Deliver(a, b))
    ensures PairFlow(Apply(net, Deliver(a, b)), a, b)
  {
    assert PairFlow(net, a, b);
    var received, l := ReceivedFrom(net.nodes[b].inbox, a), net.links[Pair(a, b)];
    HeadArrivesInOrder(received, l);
    HeadArrivesInBag(received, l);
    match l.chan[0] {
      case PubMsg(pub) => ReceivedOneMore(net.nodes[b].inbox, pub, a, a);
      case SubMsg(_) => assert received + [] == received;
    }
  }

  lemma DeliverKeepsFlow(net: Net, a: Addr, b: Addr)
    requires FlowInv(net) && Enabled(net, Deliver(a, b))
    ensures FlowInv(Apply(net, Deliver(a, b)))
  {
    var net' := Apply(net, Deliver(a, b));
    forall x, y
      ensures PairFlow(net', x, y)
    {
      if x == a && y == b {
        DeliverKeepsOwnFlow(net, a, b);
      } else {
        assert PairFlow(net, x, y);
        if y == b && x in net.nodes && x != a {
          DeliverKeepsOtherFlow(net, a, b, x);
        }
      }
    }
  }

  lemma StepKeepsFlow(net: Net, s: Step)
    requires FlowInv(net)
    ensures FlowInv(Apply(net, s))
  {
    if Enabled(net, s) {
      match s {
        case LinkUp(a, b) => LinkUpKeepsFlow(net, a, b);
        case NoticeUp(a, b) => SendKeepsFlow(net, a, Connected(net.nodes[a], b.nodeType, b.nodeID));
        case LinkDown(a, b) => LinkDownKeepsFlow(net, a, b);
        case NoticeDown(a, b) =>
          forall x, y
            ensures PairFlow(Apply(net, s), x, y)
          {
            assert PairFlow(net, x, y);
          }
        case Subscribe(a, topics) => SendKeepsFlow(net, a, LocalSubscribe(net.nodes[a], topics));
        case PublishAt(a, kind, pub) => SendKeepsFlow(net, a, Publish(net.nodes[a], kind, pub));
        case Deliver(a, b) => DeliverKeepsFlow(net, a, b);
      }
    }
  }

  lemma {:induction false} RunKeepsFlow(net: Net, steps: seq<Step>)
    requires FlowInv(net)
    ensures FlowInv(Run(net, steps))
    decreases |steps|
  {
    if steps != [] {
      StepKeepsFlow(net, steps[0]);
      RunKeepsFlow(Apply(net, steps[0]), steps[1..]);
    }
  }

  lemma FlowSafety(start: Net, steps: seq<Step>)
    requires Init(start)
    ensures FlowInv(Run(start, steps))
  {
    RunKeepsFlow(start, steps);
  }

  /** In every run: while a link lasts, what arrived over it followed by what is in flight is
      exactly what had arrived before it came up followed by what was sent over it since, in
      order; and over the whole run every publication sent is received, lost with a link, or in
      flight. */
  lemma PublicationsAreConserved(start: Net, steps: seq<Step>, a: Addr, b: Addr)
    requires Init(start)
    ensures var net := Run(start, steps);
            Joined(net, a, b) ==>
              var received := ReceivedFrom(net.nodes[b].inbox, a);
              var l := net.links[Pair(a, b)];
              && (l.up ==> received + PubSeq(l.chan) == l.base + l.posted)
              && l.sent == multiset(received) + l.lost + multiset(PubSeq(l.chan))
  {
    FlowSafety(start, steps);
    assert PairFlow(Run(start, steps), a, b);
  }

  // ---------------------------------------------------------------- end to end

  /** The peers a publication is meant for: all subscribers, or the one whose turn it is. */
  ghost predicate Chosen(n: NodeState, kind: int, pub: Pub, b: Addr) {
    && pub.topic in Registered(n, b)
    && (kind == 1 ==> SubGet(n.registry[pub.topic]).0 == Some(b))
  }

  lemma PublishTargets(n: NodeState, kind: int, pub: Pub, b: Addr)
    requires NodeInv(n)
    ensures MsgsTo(Publish(n, kind, pub).out, b) == if Chosen(n, kind, pub, b) then [PubMsg(pub)] else []
  {
    if pub.topic in n.registry {
      var sub := n.registry[pub.topic];
      if kind == 1 {
        var out := Publish(n, kind, pub).out;
        assert out[1..] == [];
      } else {
        SendEachReaches(sub.addrs, PubMsg(pub), b);
      }
    }
  }

  /** A poll has exactly one recipient whenever the topic has any subscriber at all. */
  lemma PollChoosesOne(n: NodeState, pub: Pub, b: Addr, c: Addr)
    requires NodeInv(n)
    ensures Chosen(n, 1, pub, b) && Chosen(n, 1, pub, c) ==> b == c
    ensures pub.topic in Registered(n, b) ==> exists d :: Chosen(n, 1, pub, d)
  {
    if pub.topic in Registered(n, b) {
      var d := SubGet(n.registry[pub.topic]).0.value;
      assert Chosen(n, 1, pub, d);
    }
  }

  /** What a step of `a` publishes to `b`. */
  ghost function PublishedIn(net: Net, s: Step, a: Addr, b: Addr): seq<Pub>
    requires a in net.nodes
  {
    if s.PublishAt? && s.a == a && Chosen(net.nodes[a], s.kind, s.pub, b) then [s.pub] else []
  }

  /** Everything a run publishes from `a` to `b`, in order: the publications `b` was chosen for at
      the time they were made. */
  ghost function Published(net: Net, steps: seq<Step>, a: Addr, b: Addr): seq<Pub>
    decreases |steps|
  {
    if steps == [] || a !in net.nodes then []
    else PublishedIn(net, steps[0], a, b) + Published(Apply(net, steps[0]), steps[1..], a, b)
  }

  lemma AfterSendPosts(net: Net, a: Addr, o: Outcome, b: Addr)
    requires Alive(net, a, b)
    ensures var net' := AfterSend(net, a, o);
            var l, l' := net.links[Pair(a, b)], net'.links[Pair(a, b)];
            && Alive(net', a, b) && l'.base == l.base
            && l'.posted == l.posted + PubSeq(MsgsTo(o.out, b))
  {
  }

  lemma PubSeqOne(pub: Pub)
    ensures PubSeq([PubMsg(pub)]) == [pub] && PubSeq([]) == []
  {
    assert [PubMsg(pub)][1..] == [];
  }

  /** On a link that stays up, a step adds to what is posted exactly what its sender publishes. */
  lemma StepPosts(net: Net, s: Step, a: Addr, b: Addr)
    requires Alive(net, a, b) && NodeInv(net.nodes[a]) && s != LinkDown(a, b) && s != LinkDown(b, a)
    ensures var net' := Apply(net, s);
            var l, l' := net.links[Pair(a, b)], net'.links[Pair(a, b)];
            Alive(net', a, b) && l'.base == l.base && l'.posted == l.posted + PublishedIn(net, s, a, b)
  {
    if Enabled(net, s) {
      match s {
        case NoticeUp(x, y) =>
          var o := Connected(net.nodes[x], y.nodeType, y.nodeID);
          ListsCarryNoPubs(o.out, b);
          if x == a {
            AfterSendPosts(net, a, o, b);
          }
        case Subscribe(x, topics) =>
          var o := LocalSubscribe(net.nodes[x], topics);
          ListsCarryNoPubs(o.out, b);
          if x == a {
            AfterSendPosts(net, a, o, b);
          }
        case PublishAt(x, kind, pub) =>
          if x == a {
            AfterSendPosts(net, a, Publish(net.nodes[a], kind, pub), b);
            PublishTargets(net.nodes[a], kind, pub, b);
            PubSeqOne(pub);
          }
        case _ =>
      }
    }
  }

  lemma {:induction false} RunPosts(net: Net, steps: seq<Step>, a: Addr, b: Addr)
    requires Inv(net) && Alive(net, a, b) && Lasts(steps, a, b)
    ensures Alive(Run(net, steps), a, b)
    ensures var l, l' := net.links[Pair(a, b)], Run(net, steps).links[Pair(a, b)];
            l'.base == l.base && l'.posted == l.posted + Published(net, steps, a, b)
    decreases |steps|
  {
    var posted := net.links[Pair(a, b)].posted;
    if steps == [] {
      assert posted + [] == posted;
    } else {
      assert steps[0] in steps;
      StepPosts(net, steps[0], a, b);
      StepKeeps(net, steps[0]);
      assert forall s :: s in steps[1..] ==> s in steps;
      RunPosts(Apply(net, steps[0]), steps[1..], a, b);
      Assoc(posted, PublishedIn(net, steps[0], a, b), Published(Apply(net, steps[0]), steps[1..], a, b));
    }
  }

  lemma ArrivedIsPosted(net: Net, net': Net, a: Addr, b: Addr, tail: seq<Pub>)
    requires Joined(net, a, b) && Joined(net', a, b) && PairFlow(net, a, b) && PairFlow(net', a, b)
    requires var l, l' := net.links[Pair(a, b)], net'.links[Pair(a, b)];
             l.up && l'.up && l'.base == l.base && l'.posted == l.posted + tail
    ensures ReceivedFrom(net'.nodes[b].inbox, a) + PubSeq(net'.links[Pair(a, b)].chan)
         == ReceivedFrom(net.nodes[b].inbox, a) + PubSeq(net.links[Pair(a, b)].chan) + tail
  {
    Assoc(net.links[Pair(a, b)].base, net.links[Pair(a, b)].posted, tail);
  }

  /** End to end, for any run over a link that lasts, whatever `a` and everybody else does: what `b`
      has received from `a` at the end and what is still in flight is, in order, what it had
      received, what was in flight, and exactly the publications it was chosen for since. */
  lemma DeliveryIsExact(start: Net, steps: seq<Step>, a: Addr, b: Addr, more: seq<Step>)
    requires Init(start) && Lasts(more, a, b)
    requires Joined(Run(start, steps), a, b) && Run(start, steps).links[Pair(a, b)].up
    ensures var net := Run(start, steps);
            var net' := Run(net, more);
            && Alive(net', a, b)
            && ReceivedFrom(net'.nodes[b].inbox, a) + PubSeq(net'.links[Pair(a, b)].chan)
               == ReceivedFrom(net.nodes[b].inbox, a) + PubSeq(net.links[Pair(a, b)].chan) + Published(net, more, a, b)
  {
    var net := Run(start, steps);
    Safety(start, steps);
    FlowSafety(start, steps);
    RunPosts(net, more, a, b);
    RunKeepsFlow(net, more);
    assert PairFlow(net, a, b) && PairFlow(Run(net, more), a, b);
    ArrivedIsPosted(net, Run(net, more), a, b, Published(net, more, a, b));
  }

  /** One publication: `a` publishes in any reachable state; whatever follows while the link lasts,
      `b` receives it exactly once if it was chosen and not at all otherwise, behind what was in
      flight and before what `a` publishes later. */
  lemma PublicationArrives(start: Net, steps: seq<Step>, a: Addr, b: Addr, kind: int, pub: Pub, more: seq<Step>)
    requires Init(start) && Lasts(more, a, b)
    requires Joined(Run(start, steps), a, b) && Run(start, steps).links[Pair(a, b)].up
    ensures var net := Run(start, steps);
            var sent := Apply(net, PublishAt(a, kind, pub));
            var net' := Run(sent, more);
            && Alive(net', a, b)
            && ReceivedFrom(net'.nodes[b].inbox, a) + PubSeq(net'.links[Pair(a, b)].chan)
               == ReceivedFrom(net.nodes[b].inbox, a) + PubSeq(net.links[Pair(a, b)].chan)
                  + ((if Chosen(net.nodes[a], kind, pub, b) then [pub] else []) + Published(sent, more, a, b))
  {
    var call := [PublishAt(a, kind, pub)] + more;
    assert call[1..] == more;
    DeliveryIsExact(start, steps, a, b, call);
  }

  /** Who is chosen: a peer that knows of its link to `a`, has `t` in its current list and has no
      list on its way to `a` is chosen by every broadcast of `t`; a peer that `a` does not count
      as connected, or that never listed `t` since the link came up, never is. */
  lemma SubscribersAreChosen(start: Net, steps: seq<Step>, a: Addr, b: Addr, pub: Pub)
    requires Init(start) && Joined(Run(start, steps), a, b)
    ensures var net := Run(start, steps);
            && (Knows(net, b, a) && ListsSettled(net, b, a) && pub.topic in net.nodes[b].topics ==>
                  Chosen(net.nodes[a], 0, pub, b))
            && (forall kind :: Chosen(net.nodes[a], kind, pub, b) ==>
                  b in net.nodes[a].remotes &&
                  (net.links[Pair(b, a)].up ==> pub.topic in net.links[Pair(b, a)].listed))
  {
    SubscriptionsConverge(start, steps, b, a);
    RegistryIsExact(start, steps, b, a);
  }

  /** Publish to everybody: in any reachable state a broadcast of a topic adds the publication exactly
      once to what each peer in step with `a` receives that has the topic in its list, and adds
      nothing to what any other peer in step receives. */
  lemma BroadcastReachesExactlySubscribers(start: Net, steps: seq<Step>, a: Addr, pub: Pub, b: Addr, more: seq<Step>)
    requires Init(start) && InStep(Run(start, steps), b, a) && Lasts(more, a, b)
    requires Joined(Run(start, steps), a, b) && Run(start, steps).links[Pair(a, b)].up
    ensures var net := Run(start, steps);
            var sent := Apply(net, PublishAt(a, 0, pub));
            var net' := Run(sent, more);
            var pubs := if pub.topic in net.nodes[b].topics then [pub] else [];
            && Alive(net', a, b)
            && ReceivedFrom(net'.nodes[b].inbox, a) + PubSeq(net'.links[Pair(a, b)].chan)
               == ReceivedFrom(net.nodes[b].inbox, a) + PubSeq(net.links[Pair(a, b)].chan)
                  + (pubs + Published(sent, more, a, b))
  {
    var net := Run(start, steps);
    Safety(start, steps);
    assert Chosen(net.nodes[a], 0, pub, b) <==> pub.topic in TopicSet(net.nodes[b].topics);
    PublicationArrives(start, steps, a, b, 0, pub, more);
  }
}
