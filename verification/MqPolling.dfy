/** Polling in a running network: as long as the subscribers of a topic at a peer stay the same, the
    peer's polls of it take them in turn, whatever else happens in the network. */
module MqPolling {
  import opened Cyclic
  import opened MqNode
  import opened MqNetwork

  predicate PollsTopic(s: Step, a: Addr, t: Topic) {
    s.PublishAt? && s.a == a && s.kind == EN_POLL_TYPE && s.pub.topic == t
  }

  function PollCount(steps: seq<Step>, a: Addr, t: Topic): nat {
    if steps == [] then 0 else (if PollsTopic(steps[0], a, t) then 1 else 0) + PollCount(steps[1..], a, t)
  }

  /** The subscribers of `t` at `a`, in polling order. */
  function Subscribers(net: Net, a: Addr, t: Topic): seq<Addr> {
    if a in net.nodes && t in net.nodes[a].registry then net.nodes[a].registry[t].addrs else []
  }

  /** They are `addrs` in every state of the run. */
  predicate Steady(net: Net, steps: seq<Step>, a: Addr, t: Topic, addrs: seq<Addr>)
    decreases |steps|
  {
    Subscribers(net, a, t) == addrs && (steps == [] || Steady(Apply(net, steps[0]), steps[1..], a, t, addrs))
  }

  /** Where the polls of `t` by `a` in a run go, in order. */
  function Polled(net: Net, steps: seq<Step>, a: Addr, t: Topic): seq<Addr>
    decreases |steps|
  {
    if steps == [] || a !in net.nodes then []
    else
      (if PollsTopic(steps[0], a, t) then Dests(Publish(net.nodes[a], EN_POLL_TYPE, steps[0].pub).out) else [])
      + Polled(Apply(net, steps[0]), steps[1..], a, t)
  }

  function Dests(out: seq<Envelope>): seq<Addr> {
    seq(|out|, i requires 0 <= i < |out| => out[i].dest)
  }

  /** A list from `src` that leaves the subscribers of a topic as they were leaves its cursor alone. */
  lemma ListKeepsCursor(registry: map<Topic, Sub>, topics: seq<Topic>, src: Addr, t: Topic)
    requires t in registry
    requires t in SubscribeAll(registry, topics, src)
    requires SubscribeAll(registry, topics, src)[t].addrs == registry[t].addrs
    ensures SubscribeAll(registry, topics, src)[t] == registry[t]
  {
    SubscribeAllEffect(registry, topics, src);
    if t in topics {
      assert src in SubscribeAll(registry, topics, src)[t].addrs;
    }
  }

  /** So does the loss of a peer. */
  lemma PruneKeepsCursor(registry: map<Topic, Sub>, addr: Addr, t: Topic)
    requires t in registry && t in Prune(registry, addr) && Prune(registry, addr)[t].addrs == registry[t].addrs
    ensures Prune(registry, addr)[t] == registry[t]
  {
    assert addr !in Prune(registry, addr)[t].addrs;
  }

  /** While the subscribers stay the same only a poll of the topic moves its cursor. */
  lemma SteadyStep(net: Net, s: Step, a: Addr, t: Topic)
    requires Subscribers(net, a, t) == Subscribers(Apply(net, s), a, t) != []
    ensures var sub := net.nodes[a].registry[t];
            Apply(net, s).nodes[a].registry[t] == if PollsTopic(s, a, t) then SubGet(sub).1 else sub
  {
    if Enabled(net, s) {
      match s {
        case Deliver(x, y) =>
          if y == a {
            match net.links[Pair(x, y)].chan[0] {
              case SubMsg(topics) => ListKeepsCursor(net.nodes[a].registry, topics, x, t);
              case PubMsg(_) =>
            }
          }
        case NoticeDown(x, y) =>
          if x == a && CallbackAddr(y.nodeType, y.nodeID) in net.nodes[a].remotes {
            PruneKeepsCursor(net.nodes[a].registry, CallbackAddr(y.nodeType, y.nodeID), t);
          }
        case _ =>
      }
    }
  }

  lemma {:induction false} PolledArePolls(net: Net, steps: seq<Step>, a: Addr, t: Topic, addrs: seq<Addr>)
    requires addrs != [] && Steady(net, steps, a, t, addrs)
    ensures Polled(net, steps, a, t) == Polls(net.nodes[a].registry[t], PollCount(steps, a, t))
    decreases |steps|
  {
    if steps != [] {
      SteadyStep(net, steps[0], a, t);
      PolledArePolls(Apply(net, steps[0]), steps[1..], a, t, addrs);
    }
  }

  /** Fair polling over runs: from any reachable state, while the subscribers of `t` at `a` stay the
      same, `a`'s polls of `t` take them in turn from where the cursor stands, and of k polls each
      of n subscribers gets k/n or k/n + 1, whatever else happens meanwhile. */
  lemma PollingIsFair(start: Net, steps: seq<Step>, more: seq<Step>, a: Addr, t: Topic, j: nat)
    requires Init(start)
    requires var addrs := Subscribers(Run(start, steps), a, t);
             j < |addrs| && Steady(Run(start, steps), more, a, t, addrs)
    ensures var net, k := Run(start, steps), PollCount(more, a, t);
            var addrs, polled := Subscribers(net, a, t), Polled(net, more, a, t);
            && polled == Polls(net.nodes[a].registry[t], k)
            && k / |addrs| <= Count(polled, addrs[j]) <= k / |addrs| + 1
  {
    Safety(start, steps);
    var net := Run(start, steps);
    PolledArePolls(net, more, a, t, Subscribers(net, a, t));
    PollsAreFair(net.nodes[a].registry[t], PollCount(more, a, t), j);
  }

  /** The step gives `t` at `a` another set of subscribers and leaves it some. */
  predicate Changes(net: Net, s: Step, a: Addr, t: Topic) {
    var before, after := Subscribers(net, a, t), Subscribers(Apply(net, s), a, t);
    after != [] && after != before
  }

  /** Such a step is a list from a new subscriber or the loss of one, and puts the cursor back. */
  lemma ChangeRestarts(net: Net, s: Step, a: Addr, t: Topic)
    requires Inv(net) && Changes(net, s, a, t)
    ensures Apply(net, s).nodes[a].registry[t].it == 0
  {
    var registry := net.nodes[a].registry;
    match s {
      case Deliver(x, y) =>
        match net.links[Pair(x, y)].chan[0] {
          case SubMsg(topics) =>
            SubscribeAllEffect(registry, topics, x);
            ListRestarts(registry, topics, x, t);
          case PubMsg(_) =>
        }
      case NoticeDown(x, y) =>
        var addr := CallbackAddr(y.nodeType, y.nodeID);
        PruneEffect(registry, addr);
        PruneRestarts(registry, addr, t);
      case _ =>
    }
  }

  /** Polling after a change, over runs: in any reachable state, once the subscribers of `t` at `a`
      have changed, and while they stay as they are now, poll `i` of it goes to subscriber
      `i mod n`, so the least one comes first, whatever the cursor had reached before. */
  lemma PollingStartsOver(start: Net, steps: seq<Step>, s: Step, more: seq<Step>, a: Addr, t: Topic, i: nat)
    requires Init(start) && Changes(Run(start, steps), s, a, t) && i < PollCount(more, a, t)
    requires var net := Apply(Run(start, steps), s); Steady(net, more, a, t, Subscribers(net, a, t))
    ensures var net := Apply(Run(start, steps), s);
            var addrs, polled := Subscribers(net, a, t), Polled(net, more, a, t);
            && |polled| == PollCount(more, a, t) && polled[i] == addrs[i % |addrs|]
            && forall j :: 0 < j < |addrs| ==> Less(addrs[0], addrs[j])
  {
    var net := Run(start, steps);
    Safety(start, steps);
    CursorAfterChange(net, s, a, t);
    var net' := Apply(net, s);
    PolledArePolls(net', more, a, t, Subscribers(net', a, t));
    PollsFromStart(net'.nodes[a].registry[t], PollCount(more, a, t), i);
  }

  lemma CursorAfterChange(net: Net, s: Step, a: Addr, t: Topic)
    requires Inv(net) && Changes(net, s, a, t)
    ensures var sub := Apply(net, s).nodes[a].registry[t];
            SubValid(sub) && sub.it == 0
  {
    ChangeRestarts(net, s, a, t);
    StepKeeps(net, s);
  }
}
