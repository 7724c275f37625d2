/** A run that shows that a topic cannot be given up: of two peers one subscribes to a topic, is
    registered for it, replaces its list by the empty one and stays registered. */
module MqRetraction {
  import opened MqNode
  import opened MqNetwork

  const PEER_A := CallbackAddr(0, 1)
  const PEER_B := CallbackAddr(0, 2)

  const NEW_NODE := NodeState([], [], map[], [])
  const NEW_LINK := Link(false, [], {}, [], [], multiset{}, multiset{})
  const START := Net(map[PEER_A := NEW_NODE, PEER_B := NEW_NODE],
                     map[Pair(PEER_A, PEER_B) := NEW_LINK, Pair(PEER_B, PEER_A) := NEW_LINK])

  /** The peers are connected and `A`'s first list, which is empty, has arrived. */
  const JOINING := [LinkUp(PEER_A, PEER_B), NoticeUp(PEER_A, PEER_B), NoticeUp(PEER_B, PEER_A), Deliver(PEER_A, PEER_B)]

  /** `A` replaces its list, and the new one arrives. */
  function Calling(topics: seq<Topic>): seq<Step> {
    [Subscribe(PEER_A, topics), Deliver(PEER_A, PEER_B)]
  }

  /** Both ends know each other, `A` has `topics`, `B` has `registered` for it, and nothing is in
      flight from `A` to `B`. */
  ghost predicate Quiet(net: Net, topics: seq<Topic>, registered: set<Topic>) {
    && Inv(net) && Knows(net, PEER_A, PEER_B) && PEER_A in net.nodes[PEER_B].remotes
    && net.nodes[PEER_A].topics == topics && net.links[Pair(PEER_A, PEER_B)].chan == []
    && Registered(net.nodes[PEER_B], PEER_A) == registered
  }

  lemma RunTwo(net: Net, s: Step, t: Step)
    ensures Run(net, [s, t]) == Apply(Apply(net, s), t)
  {
    assert [s, t][1..] == [t] && [t][1..] == [];
    assert Run(net, [s, t]) == Run(Apply(net, s), [t]);
    assert Run(Apply(net, s), [t]) == Run(Apply(Apply(net, s), t), []);
  }

  lemma RunFour(net: Net, s: Step, t: Step, u: Step, v: Step)
    ensures Run(net, [s, t, u, v]) == Apply(Apply(Apply(Apply(net, s), t), u), v)
  {
    assert [s, t, u, v][1..][1..] == [u, v];
    RunTwo(Apply(Apply(net, s), t), u, v);
  }

  /** The only message in flight arrives. */
  lemma LastArrives(net: Net, topics: seq<Topic>)
    requires Inv(net) && Knows(net, PEER_A, PEER_B) && PEER_A in net.nodes[PEER_B].remotes
    requires |net.links[Pair(PEER_A, PEER_B)].chan| == 1 && net.nodes[PEER_A].topics == topics
    ensures Quiet(Apply(net, Deliver(PEER_A, PEER_B)), topics, net.links[Pair(PEER_A, PEER_B)].listed)
  {
    var s := Deliver(PEER_A, PEER_B);
    var net' := Apply(net, s);
    StepKeeps(net, s);
    ArriveEffect(net.nodes[PEER_B], net.links[Pair(PEER_A, PEER_B)].chan[0], PEER_A);
    assert ListInv(PEER_A, net'.nodes[PEER_A], PEER_B, net'.nodes[PEER_B], net'.links[Pair(PEER_A, PEER_B)]);
  }

  lemma CallIsSent(net: Net, topics: seq<Topic>)
    requires Inv(net) && Knows(net, PEER_A, PEER_B) && net.links[Pair(PEER_A, PEER_B)].chan == []
    ensures var net' := Apply(net, Subscribe(PEER_A, topics));
            && |net'.links[Pair(PEER_A, PEER_B)].chan| == 1
            && net'.nodes[PEER_B] == net.nodes[PEER_B]
  {
    SendEachReaches(net.nodes[PEER_A].remotes, SubMsg(topics), PEER_B);
  }

  lemma CallArrives(net: Net, before: seq<Topic>, registered: set<Topic>, topics: seq<Topic>)
    requires Quiet(net, before, registered)
    ensures Quiet(Run(net, Calling(topics)), topics, registered + TopicSet(topics))
  {
    var s := Subscribe(PEER_A, topics);
    assert net.links[Pair(PEER_A, PEER_B)].listed == registered by {
      assert ListInv(PEER_A, net.nodes[PEER_A], PEER_B, net.nodes[PEER_B], net.links[Pair(PEER_A, PEER_B)]);
    }
    StepKeeps(net, s);
    StepListsAsked(net, s, PEER_A, PEER_B);
    CallIsSent(net, topics);
    LastArrives(Apply(net, s), topics);
    RunTwo(net, s, Deliver(PEER_A, PEER_B));
  }

  lemma LinkComesUp()
    ensures Init(START)
    ensures var net := Apply(START, LinkUp(PEER_A, PEER_B));
            && Enabled(net, NoticeUp(PEER_A, PEER_B)) && net.nodes == START.nodes
            && net.links[Pair(PEER_A, PEER_B)].chan == []
  {
  }

  /** `A` is told of the link first, then `B`. */
  lemma BothAreTold(net: Net)
    requires Inv(net) && Enabled(net, NoticeUp(PEER_A, PEER_B))
    requires net.nodes == START.nodes && net.links[Pair(PEER_A, PEER_B)].chan == []
    ensures var net' := Apply(Apply(net, NoticeUp(PEER_A, PEER_B)), NoticeUp(PEER_B, PEER_A));
            && Inv(net') && Knows(net', PEER_A, PEER_B) && PEER_A in net'.nodes[PEER_B].remotes
            && net'.nodes[PEER_A].topics == [] && |net'.links[Pair(PEER_A, PEER_B)].chan| == 1
            && net'.links[Pair(PEER_A, PEER_B)].listed == {}
  {
    FirstNotice(net, PEER_A, PEER_B);
    var told := Apply(net, NoticeUp(PEER_A, PEER_B));
    NoticeSendsList(NEW_NODE, PEER_B);
    assert |told.links[Pair(PEER_A, PEER_B)].chan| == 1;
    StepKeeps(told, NoticeUp(PEER_B, PEER_A));
  }

  lemma PeersJoin()
    ensures Init(START) && Quiet(Run(START, JOINING), [], {})
  {
    LinkComesUp();
    InitHolds(START);
    var up := Apply(START, LinkUp(PEER_A, PEER_B));
    StepKeeps(START, LinkUp(PEER_A, PEER_B));
    BothAreTold(up);
    LastArrives(Apply(Apply(up, NoticeUp(PEER_A, PEER_B)), NoticeUp(PEER_B, PEER_A)), []);
    RunFour(START, JOINING[0], JOINING[1], JOINING[2], JOINING[3]);
  }

  lemma GivesUp(net: Net, t: Topic)
    requires Quiet(net, [], {})
    ensures var before := Run(net, Calling([t]));
            var after := Run(before, Calling([]));
            && Quiet(before, [t], {t}) && InStep(before, PEER_A, PEER_B)
            && Quiet(after, [], {t}) && !InStep(after, PEER_A, PEER_B)
  {
    CallArrives(net, [], {}, [t]);
    assert {} + TopicSet([t]) == {t} == TopicSet([t]);
    CallArrives(Run(net, Calling([t])), [t], {t}, []);
    assert {t} + TopicSet([]) == {t};
    assert t !in TopicSet([]);
  }

  /** `A` is registered for `t`, gives up all topics, and with the empty list arrived and nothing
      in flight `B` still has it registered for `t`. */
  lemma GivenUpTopicStays(t: Topic)
    ensures Init(START)
    ensures var before := Run(Run(START, JOINING), Calling([t]));
            var after := Run(before, Calling([]));
            && InStep(before, PEER_A, PEER_B) && before.nodes[PEER_A].topics == [t]
            && Knows(after, PEER_A, PEER_B) && after.links[Pair(PEER_A, PEER_B)].chan == []
            && after.nodes[PEER_A].topics == [] && Registered(after.nodes[PEER_B], PEER_A) == {t}
            && !InStep(after, PEER_A, PEER_B)
  {
    PeersJoin();
    GivesUp(Run(START, JOINING), t);
  }
}
