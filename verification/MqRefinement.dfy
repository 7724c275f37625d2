/** The network moves as its peers' services do: every step is one event of one service, whose state
    becomes what the service's handler makes of it and whose messages enter the channels. */
module MqRefinement {
  import opened MqNode
  import opened MqNetwork

  /** A step that some service handles, and not the link alone. */
  predicate IsHandled(s: Step) {
    !s.LinkUp? && !s.LinkDown?
  }

  /** Whose service handles a step. */
  function Actor(s: Step): Addr {
    match s
    case Deliver(_, b) => b
    case _ => s.a
  }

  /** And what it is told. */
  function EventOf(net: Net, s: Step): Event
    requires IsHandled(s) && Enabled(net, s)
  {
    match s
    case NoticeUp(_, b) => Up(b.nodeType, b.nodeID)
    case NoticeDown(_, b) => Down(b.nodeType, b.nodeID)
    case Subscribe(_, topics) => Wants(topics)
    case PublishAt(_, kind, pub) => Publishes(kind, pub)
    case Deliver(a, b) =>
      match net.links[Pair(a, b)].chan[0]
      case SubMsg(topics) => Listed(topics, a)
      case PubMsg(pub) => Gets(pub, a)
  }

  /** What is taken out of a channel by a step: the message that is delivered. */
  function Taken(s: Step, p: Pair): nat {
    if s.Deliver? && p == Pair(s.a, s.b) then 1 else 0
  }

  /** What the handler's messages do to the channels it sends on. */
  lemma SentOn(net: Net, s: Step, x: Addr, y: Addr)
    requires Enabled(net, s) && IsHandled(s) && !s.Deliver? && x in net.nodes
    requires Pair(x, y) in net.links && net.links[Pair(x, y)].up
    ensures Pair(x, y) in Apply(net, s).links
    ensures Apply(net, s).links[Pair(x, y)].chan ==
            net.links[Pair(x, y)].chan
            + (if x == Actor(s) then MsgsTo(Handle(net.nodes[x], EventOf(net, s)).out, y) else [])
  {
    var chan := net.links[Pair(x, y)].chan;
    assert chan + [] == chan;
  }

  /** A delivery takes out the first message of its channel, and nothing is sent for it. */
  lemma TakenFrom(net: Net, s: Step, x: Addr, y: Addr)
    requires Enabled(net, s) && s.Deliver? && x in net.nodes
    requires Pair(x, y) in net.links && net.links[Pair(x, y)].up
    ensures Pair(x, y) in Apply(net, s).links
    ensures Taken(s, Pair(x, y)) <= |net.links[Pair(x, y)].chan|
    ensures Apply(net, s).links[Pair(x, y)].chan == net.links[Pair(x, y)].chan[Taken(s, Pair(x, y))..]
    ensures Handle(net.nodes[Actor(s)], EventOf(net, s)).out == []
  {
  }

  lemma ActorMoves(net: Net, s: Step, x: Addr)
    requires Enabled(net, s) && IsHandled(s) && x in net.nodes
    ensures x in Apply(net, s).nodes
    ensures Apply(net, s).nodes[x] ==
            if x == Actor(s) then Handle(net.nodes[x], EventOf(net, s)).node else net.nodes[x]
  {
  }

  /** A step is the handling of its event: the acting node becomes what its handler makes of it, all
      others stay as they are; the handler's messages enter the channels of the links that are up,
      behind what is there, and only a delivered message leaves one. */
  lemma StepIsHandle(net: Net, s: Step, x: Addr, y: Addr)
    requires Enabled(net, s) && x in net.nodes
    ensures !IsHandled(s) ==> Apply(net, s).nodes == net.nodes
    ensures IsHandled(s) ==>
              && x in Apply(net, s).nodes
              && Apply(net, s).nodes[x] ==
                 if x == Actor(s) then Handle(net.nodes[x], EventOf(net, s)).node else net.nodes[x]
    ensures IsHandled(s) && Pair(x, y) in net.links && net.links[Pair(x, y)].up ==>
              && Taken(s, Pair(x, y)) <= |net.links[Pair(x, y)].chan|
              && Pair(x, y) in Apply(net, s).links
              && Apply(net, s).links[Pair(x, y)].chan ==
                 net.links[Pair(x, y)].chan[Taken(s, Pair(x, y))..]
                 + (if x == Actor(s) then MsgsTo(Handle(net.nodes[x], EventOf(net, s)).out, y) else [])
  {
    if IsHandled(s) {
      ActorMoves(net, s, x);
      if Pair(x, y) in net.links && net.links[Pair(x, y)].up {
        if s.Deliver? {
          TakenFrom(net, s, x, y);
          assert MsgsTo([], y) == [];
          var rest := net.links[Pair(x, y)].chan[Taken(s, Pair(x, y))..];
          assert rest + [] == rest;
        } else {
          SentOn(net, s, x, y);
          assert net.links[Pair(x, y)].chan[0..] == net.links[Pair(x, y)].chan;
        }
      }
    }
  }

  /** What one peer is told in a run, in order. */
  function EventsAt(net: Net, steps: seq<Step>, x: Addr): seq<Event>
    decreases |steps|
  {
    if steps == [] then []
    else
      var s := steps[0];
      (if Enabled(net, s) && IsHandled(s) && Actor(s) == x then [EventOf(net, s)] else [])
      + EventsAt(Apply(net, s), steps[1..], x)
  }

  /** A peer's state after any run is what its service makes of the events it was told. */
  lemma {:induction false} RunIsHandleAll(net: Net, steps: seq<Step>, x: Addr)
    requires x in net.nodes
    ensures x in Run(net, steps).nodes
    ensures Run(net, steps).nodes[x] == HandleAll(net.nodes[x], EventsAt(net, steps, x)).node
    decreases |steps|
  {
    if steps != [] {
      var s := steps[0];
      var rest := EventsAt(Apply(net, s), steps[1..], x);
      if Enabled(net, s) {
        StepIsHandle(net, s, x, x);
        if IsHandled(s) && Actor(s) == x {
          assert ([EventOf(net, s)] + rest)[1..] == rest;
        }
      }
      assert [] + rest == rest;
      RunIsHandleAll(Apply(net, s), steps[1..], x);
    }
  }
}
