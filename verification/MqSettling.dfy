/** From every reachable state the network can settle by its own steps: every end of a live link
    is told of it and every message in flight arrives.  Then every peer is registered for all of
    its topics at everyone it is connected to. */
module MqSettling {
  import opened MqNode
  import opened MqNetwork

  /** Steps the transport takes without any application or link acting. */
  predicate Internal(s: Step) {
    s.NoticeUp? || s.Deliver?
  }

  predicate AllInternal(steps: seq<Step>) {
    forall s :: s in steps ==> Internal(s)
  }

  /** Nothing but messages and knowledge of live links moved. */
  ghost predicate SameTopology(net: Net, net': Net) {
    && net'.nodes.Keys == net.nodes.Keys && net'.links.Keys == net.links.Keys
    && (forall p :: p in net.links ==> net'.links[p].up == net.links[p].up)
    && (forall a :: a in net.nodes ==> net'.nodes[a].topics == net.nodes[a].topics)
    && (forall a, b :: a in net.nodes && b in net.nodes[a].remotes ==> b in net'.nodes[a].remotes)
  }

  /** The ends of live links that have not been told. */
  function Untold(net: Net): set<Pair> {
    set p | p in net.links && net.links[p].up && (p.src in net.nodes ==> p.dst !in net.nodes[p.src].remotes)
  }

  function Busy(net: Net): set<Pair> {
    set p | p in net.links && net.links[p].chan != []
  }

  lemma {:induction false} RunAppend(net: Net, x: seq<Step>, y: seq<Step>)
    ensures Run(net, x + y) == Run(Run(net, x), y)
    decreases |x|
  {
    if x == [] {
      assert x + y == y;
    } else {
      RunAppend(Apply(net, x[0]), x[1..], y);
      assert (x + y)[1..] == x[1..] + y;
    }
  }

  lemma RunOne(net: Net, s: Step)
    ensures Run(net, [s]) == Apply(net, s)
  {
    assert [s][1..] == [];
  }

  /** `net'` differs from `net` in that `a` has been told of `b`. */
  ghost predicate Told(net: Net, net': Net, a: Addr, b: Addr) {
    && SameTopology(net, net')
    && (forall x, y :: x in net.nodes ==>
          (y in net'.nodes[x].remotes <==> y in net.nodes[x].remotes || (x == a && y == b)))
  }

  lemma NoticeUpEffect(net: Net, a: Addr, b: Addr)
    requires Enabled(net, NoticeUp(a, b)) && NodeInv(net.nodes[a]) && IsCallbackAddr(b)
    ensures Told(net, Apply(net, NoticeUp(a, b)), a, b)
  {
    ConnectedKeeps(net.nodes[a], b.nodeType, b.nodeID);
  }

  lemma ToldShrinks(net: Net, net': Net, a: Addr, b: Addr)
    requires Told(net, net', a, b)
    requires forall p :: p in net.links ==> p.src in net.nodes
    ensures Untold(net') == Untold(net) - {Pair(a, b)}
  {
    forall q
      ensures q in Untold(net') <==> q in Untold(net) && q != Pair(a, b)
    {
    }
  }

  lemma TellOne(net: Net, p: Pair)
    requires Inv(net) && p in Untold(net)
    ensures Enabled(net, NoticeUp(p.src, p.dst))
    ensures var net' := Apply(net, NoticeUp(p.src, p.dst));
            Inv(net') && SameTopology(net, net') && Untold(net') == Untold(net) - {p}
  {
    var a, b := p.src, p.dst;
    assert p == Pair(a, b);
    StepKeeps(net, NoticeUp(a, b));
    NoticeUpEffect(net, a, b);
    forall q | q in net.links
      ensures q.src in net.nodes
    {
      assert q == Pair(q.src, q.dst);
    }
    ToldShrinks(net, Apply(net, NoticeUp(a, b)), a, b);
  }

  lemma TellAll(net: Net) returns (steps: seq<Step>)
    requires Inv(net)
    ensures AllInternal(steps)
    ensures var net' := Run(net, steps);
            Inv(net') && SameTopology(net, net') && Untold(net') == {}
    decreases Untold(net)
  {
    if Untold(net) == {} {
      steps := [];
    } else {
      var p :| p in Untold(net);
      TellOne(net, p);
      var s := NoticeUp(p.src, p.dst);
      var rest := TellAll(Apply(net, s));
      steps := [s] + rest;
      RunOne(net, s);
      RunAppend(net, [s], rest);
    }
  }

  /** With every end told, the oldest message of any channel can arrive. */
  lemma DeliverEffect(net: Net, a: Addr, b: Addr)
    requires Inv(net) && Pair(a, b) in net.links && Untold(net) == {} && net.links[Pair(a, b)].chan != []
    ensures Enabled(net, Deliver(a, b))
    ensures var net' := Apply(net, Deliver(a, b));
            && SameTopology(net, net')
            && (forall x :: x in net.nodes ==> net'.nodes[x].remotes == net.nodes[x].remotes)
            && net'.links[Pair(a, b)].chan == net.links[Pair(a, b)].chan[1..]
            && (forall q :: q in net.links && q != Pair(a, b) ==> net'.links[q] == net.links[q])
  {
    assert a in net.nodes[b].remotes by {
      assert ListInv(a, net.nodes[a], b, net.nodes[b], net.links[Pair(a, b)]);
      assert net.links[Pair(b, a)].up;
      assert Pair(b, a) !in Untold(net);
    }
    ArriveEffect(net.nodes[b], net.links[Pair(a, b)].chan[0], a);
  }

  lemma DeliverOne(net: Net, a: Addr, b: Addr)
    requires Inv(net) && Pair(a, b) in net.links && Untold(net) == {} && net.links[Pair(a, b)].chan != []
    ensures var net' := Apply(net, Deliver(a, b));
            && Inv(net') && SameTopology(net, net') && Untold(net') == {}
            && Busy(net') - {Pair(a, b)} == Busy(net) - {Pair(a, b)}
            && |net'.links[Pair(a, b)].chan| < |net.links[Pair(a, b)].chan|
  {
    DeliverEffect(net, a, b);
    StepKeeps(net, Deliver(a, b));
    assert forall q :: q in Untold(Apply(net, Deliver(a, b))) ==> q in Untold(net);
  }

  lemma {:induction false} DrainOne(net: Net, p: Pair) returns (steps: seq<Step>)
    requires Inv(net) && p in net.links && Untold(net) == {}
    ensures AllInternal(steps)
    ensures var net' := Run(net, steps);
            Inv(net') && SameTopology(net, net') && Untold(net') == {} && Busy(net') == Busy(net) - {p}
    decreases |net.links[p].chan|
  {
    if net.links[p].chan == [] {
      steps := [];
    } else {
      var s := Deliver(p.src, p.dst);
      DeliverOne(net, p.src, p.dst);
      var rest := DrainOne(Apply(net, s), p);
      steps := [s] + rest;
      RunOne(net, s);
      RunAppend(net, [s], rest);
    }
  }

  lemma DrainAll(net: Net) returns (steps: seq<Step>)
    requires Inv(net) && Untold(net) == {}
    ensures AllInternal(steps)
    ensures var net' := Run(net, steps);
            Inv(net') && SameTopology(net, net') && Untold(net') == {} && Busy(net') == {}
    decreases Busy(net)
  {
    if Busy(net) == {} {
      steps := [];
    } else {
      var p :| p in Busy(net);
      var first := DrainOne(net, p);
      var rest := DrainAll(Run(net, first));
      steps := first + rest;
      RunAppend(net, first, rest);
    }
  }

  /** From any reachable state some transport steps alone lead to a state in which every peer is
      registered for all its current topics at every peer it has a live link to. */
  lemma NetworkCanSettle(start: Net, steps: seq<Step>) returns (more: seq<Step>)
    requires Init(start)
    ensures AllInternal(more)
    ensures var net, net' := Run(start, steps), Run(start, steps + more);
            && SameTopology(net, net')
            && forall a, b :: Pair(a, b) in net'.links && net'.links[Pair(a, b)].up ==>
                 && Knows(net', a, b) && net'.links[Pair(a, b)].chan == []
                 && TopicSet(net'.nodes[a].topics) <= Registered(net'.nodes[b], a)
  {
    Safety(start, steps);
    var net := Run(start, steps);
    var told := TellAll(net);
    var drained := DrainAll(Run(net, told));
    more := told + drained;
    RunAppend(net, told, drained);
    RunAppend(start, steps, more);
    var net' := Run(start, steps + more);
    forall a, b | Pair(a, b) in net'.links && net'.links[Pair(a, b)].up
      ensures Knows(net', a, b) && net'.links[Pair(a, b)].chan == []
      ensures TopicSet(net'.nodes[a].topics) <= Registered(net'.nodes[b], a)
    {
      assert Pair(a, b) !in Untold(net') && Pair(a, b) !in Busy(net');
      assert ListInv(a, net'.nodes[a], b, net'.nodes[b], net'.links[Pair(a, b)]);
    }
  }
  // ---------------------------------------------------------------- no schedule can avoid it

  function Load(net: Net, p: Pair): nat {
    if p in net.links then |net.links[p].chan| else 0
  }

  /** The messages in flight between the given pairs. */
  ghost function InFlight(net: Net, ps: set<Pair>): nat {
    if ps == {} then 0 else var p :| p in ps; Load(net, p) + InFlight(net, ps - {p})
  }

  lemma {:induction false} InFlightSplit(net: Net, ps: set<Pair>, p: Pair)
    requires p in ps
    ensures InFlight(net, ps) == Load(net, p) + InFlight(net, ps - {p})
  {
    var q :| q in ps && InFlight(net, ps) == Load(net, q) + InFlight(net, ps - {q});
    if q != p {
      InFlightSplit(net, ps - {q}, p);
      InFlightSplit(net, ps - {p}, q);
      assert (ps - {q}) - {p} == (ps - {p}) - {q};
    }
  }

  lemma {:induction false} InFlightSame(net: Net, net': Net, ps: set<Pair>)
    requires forall p :: p in ps ==> Load(net', p) == Load(net, p)
    ensures InFlight(net', ps) == InFlight(net, ps)
  {
    if ps != {} {
      var p :| p in ps;
      InFlightSplit(net, ps, p);
      InFlightSplit(net', ps, p);
      InFlightSame(net, net', ps - {p});
    }
  }

  lemma InFlightChange(net: Net, net': Net, p: Pair)
    requires net'.links.Keys == net.links.Keys && p in net.links
    requires forall q :: q in net.links && q != p ==> Load(net', q) == Load(net, q)
    ensures InFlight(net', net'.links.Keys) - Load(net', p) == InFlight(net, net.links.Keys) - Load(net, p)
  {
    InFlightSplit(net, net.links.Keys, p);
    InFlightSplit(net', net.links.Keys, p);
    InFlightSame(net, net', net.links.Keys - {p});
  }

  /** What is left to do: each end that has not been told is told and its list delivered, each
      message in flight is delivered. */
  ghost function Work(net: Net): nat {
    2 * |Untold(net)| + InFlight(net, net.links.Keys)
  }

  /** An internal step that does something: telling an end twice does not. */
  predicate Effective(net: Net, s: Step) {
    Internal(s) && Enabled(net, s) && (s.NoticeUp? ==> s.b !in net.nodes[s.a].remotes)
  }

  lemma NoticeLoads(net: Net, a: Addr, b: Addr, q: Pair)
    requires Inv(net) && Effective(net, NoticeUp(a, b)) && q in net.links
    ensures Load(Apply(net, NoticeUp(a, b)), q) == Load(net, q) + (if q == Pair(a, b) then 1 else 0)
  {
    if q.src == a {
      NoticeSendsList(net.nodes[a], b);
      if q.dst != b {
        NothingTo(Connected(net.nodes[a], b.nodeType, b.nodeID).out, q.dst);
      }
    }
  }

  lemma NoticeAddsOne(net: Net, a: Addr, b: Addr)
    requires Inv(net) && Effective(net, NoticeUp(a, b))
    ensures var net' := Apply(net, NoticeUp(a, b));
            InFlight(net', net'.links.Keys) == InFlight(net, net.links.Keys) + 1
  {
    var p, net' := Pair(a, b), Apply(net, NoticeUp(a, b));
    forall q | q in net.links
      ensures Load(net', q) == Load(net, q) + (if q == p then 1 else 0)
    {
      NoticeLoads(net, a, b, q);
    }
    InFlightChange(net, net', p);
  }

  lemma NoticeIsWork(net: Net, a: Addr, b: Addr)
    requires Inv(net) && Effective(net, NoticeUp(a, b))
    ensures Work(Apply(net, NoticeUp(a, b))) == Work(net) - 1
  {
    NoticeAddsOne(net, a, b);
    NoticeLeavesFewer(net, a, b);
  }

  lemma NoticeLeavesFewer(net: Net, a: Addr, b: Addr)
    requires Inv(net) && Effective(net, NoticeUp(a, b))
    ensures |Untold(Apply(net, NoticeUp(a, b)))| == |Untold(net)| - 1
  {
    assert Pair(a, b) in Untold(net);
    TellOne(net, Pair(a, b));
    OneFewer(Untold(net), Pair(a, b));
  }

  lemma OneFewer(s: set<Pair>, p: Pair)
    requires p in s
    ensures |s - {p}| == |s| - 1
  {
  }

  lemma DeliveryMoves(net: Net, a: Addr, b: Addr)
    requires Inv(net) && Enabled(net, Deliver(a, b))
    ensures var net' := Apply(net, Deliver(a, b));
            && net'.links.Keys == net.links.Keys && Untold(net') == Untold(net)
            && (forall q :: q in net.links ==> Load(net', q) == Load(net, q) - (if q == Pair(a, b) then 1 else 0))
  {
    ArriveEffect(net.nodes[b], net.links[Pair(a, b)].chan[0], a);
    var net' := Apply(net, Deliver(a, b));
    assert forall q :: q in Untold(net') <==> q in Untold(net);
  }

  lemma DeliveryIsWork(net: Net, a: Addr, b: Addr)
    requires Inv(net) && Enabled(net, Deliver(a, b))
    ensures Work(Apply(net, Deliver(a, b))) == Work(net) - 1
  {
    DeliveryMoves(net, a, b);
    InFlightChange(net, Apply(net, Deliver(a, b)), Pair(a, b));
  }

  lemma ToldAgainChangesNothing(net: Net, a: Addr, b: Addr)
    requires Inv(net) && Enabled(net, NoticeUp(a, b)) && b in net.nodes[a].remotes
    ensures Apply(net, NoticeUp(a, b)) == net
  {
    assert MsgsTo([], b) == [];
    forall p | p in net.links
      ensures Post(net.links[p], []) == net.links[p]
    {
      var l := net.links[p];
      assert l.chan + [] == l.chan && l.listed + {} == l.listed && l.posted + [] == l.posted;
    }
  }

  function EffectiveSteps(net: Net, steps: seq<Step>): nat
    decreases |steps|
  {
    if steps == [] then 0
    else (if Effective(net, steps[0]) then 1 else 0) + EffectiveSteps(Apply(net, steps[0]), steps[1..])
  }

  lemma {:induction false} ScheduleWorks(net: Net, steps: seq<Step>)
    requires Inv(net) && AllInternal(steps)
    ensures Inv(Run(net, steps)) && EffectiveSteps(net, steps) + Work(Run(net, steps)) == Work(net)
    decreases |steps|
  {
    if steps != [] {
      var s := steps[0];
      assert s in steps && forall t :: t in steps[1..] ==> t in steps;
      StepKeeps(net, s);
      if Effective(net, s) {
        if s.NoticeUp? {
          NoticeIsWork(net, s.a, s.b);
        } else {
          DeliveryIsWork(net, s.a, s.b);
        }
      } else if Enabled(net, s) {
        ToldAgainChangesNothing(net, s.a, s.b);
      }
      ScheduleWorks(Apply(net, s), steps[1..]);
    }
  }

  /** While work is left, some internal step does some of it. */
  lemma WorkCanGoOn(net: Net)
    requires Inv(net) && Work(net) > 0
    ensures exists s :: Effective(net, s)
  {
    if Untold(net) != {} {
      var p :| p in Untold(net);
      TellOne(net, p);
      assert p == Pair(p.src, p.dst);
      assert Effective(net, NoticeUp(p.src, p.dst));
    } else {
      var p := SomeLoad(net, net.links.Keys);
      DeliverEffect(net, p.src, p.dst);
      assert Effective(net, Deliver(p.src, p.dst));
    }
  }

  lemma {:induction false} SomeLoad(net: Net, ps: set<Pair>) returns (p: Pair)
    requires ps <= net.links.Keys && InFlight(net, ps) > 0
    ensures p in ps && net.links[p].chan != []
  {
    p :| p in ps;
    if net.links[p].chan == [] {
      InFlightSplit(net, ps, p);
      p := SomeLoad(net, ps - {p});
    }
  }

  lemma NoWorkIsSettled(net: Net, a: Addr, b: Addr)
    requires Inv(net) && Work(net) == 0 && Pair(a, b) in net.links && net.links[Pair(a, b)].up
    ensures Knows(net, a, b) && net.links[Pair(a, b)].chan == []
    ensures TopicSet(net.nodes[a].topics) <= Registered(net.nodes[b], a)
  {
    assert Untold(net) == {};
    assert Pair(a, b) !in Untold(net);
    InFlightSplit(net, net.links.Keys, Pair(a, b));
    assert ListInv(a, net.nodes[a], b, net.nodes[b], net.links[Pair(a, b)]);
  }

  /** No schedule of transport steps can avoid settling: from any reachable state every step that
      does anything does one of finitely many units of work; while any is left some step can do
      it, and when none is left every peer is registered for all its topics at every peer it has
      a live link to. */
  lemma EveryScheduleSettles(start: Net, steps: seq<Step>, more: seq<Step>)
    requires Init(start) && AllInternal(more)
    ensures var net, net' := Run(start, steps), Run(Run(start, steps), more);
            && EffectiveSteps(net, more) + Work(net') == Work(net)
            && (Work(net') > 0 ==> exists s :: Effective(net', s))
            && (Work(net') == 0 ==>
                  forall a, b :: Pair(a, b) in net'.links && net'.links[Pair(a, b)].up ==>
                    && Knows(net', a, b) && net'.links[Pair(a, b)].chan == []
                    && TopicSet(net'.nodes[a].topics) <= Registered(net'.nodes[b], a))
  {
    Safety(start, steps);
    var net' := Run(Run(start, steps), more);
    ScheduleWorks(Run(start, steps), more);
    if Work(net') > 0 {
      WorkCanGoOn(net');
    } else {
      forall a, b | Pair(a, b) in net'.links && net'.links[Pair(a, b)].up
        ensures Knows(net', a, b) && net'.links[Pair(a, b)].chan == []
        ensures TopicSet(net'.nodes[a].topics) <= Registered(net'.nodes[b], a)
      {
        NoWorkIsSettled(net', a, b);
      }
    }
  }
}
