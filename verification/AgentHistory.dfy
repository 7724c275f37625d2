/** What the agent knows and says, told from the events alone: each question is answered by looking
    back over what has happened for the last event that bears on it, without the agent's table,
    array or log. */
module AgentHistory {
  import opened AgentRuns
  import opened TypeArray
  import opened TypeArraySpec
  import opened Wrappers

  // ---------------------------------------------------------------- what has happened

  /** The events of a run that the transport can report; the others are no events. */
  function Happened(scheduler: IpAddr, events: seq<Event>): seq<Event> {
    if events == [] then []
    else
      var front, e := events[..|events| - 1], events[|events| - 1];
      Happened(scheduler, front) + (if Enabled(scheduler, AgentRuns.Run(scheduler, Start(), front), e) then [e] else [])
  }

  /** Every event can be reported where it stands. */
  predicate Legal(scheduler: IpAddr, es: seq<Event>) {
    es == [] ||
    (&& Legal(scheduler, es[..|es| - 1])
     && Enabled(scheduler, AgentRuns.Run(scheduler, Start(), es[..|es| - 1]), es[|es| - 1]))
  }

  lemma {:induction false} HappenedIsTheRun(scheduler: IpAddr, events: seq<Event>)
    ensures Legal(scheduler, Happened(scheduler, events))
    ensures AgentRuns.Run(scheduler, Start(), Happened(scheduler, events)) == AgentRuns.Run(scheduler, Start(), events)
  {
    if events != [] {
      var front, e := events[..|events| - 1], events[|events| - 1];
      var es := Happened(scheduler, front);
      HappenedIsTheRun(scheduler, front);
      RunLast(scheduler, Start(), front, e);
      assert events == front + [e];
      if Enabled(scheduler, AgentRuns.Run(scheduler, Start(), front), e) {
        RunLast(scheduler, Start(), es, e);
        assert (es + [e])[..|es + [e]| - 1] == es;
      } else {
        assert es + [] == es;
      }
    }
  }

  // ---------------------------------------------------------------- looking back

  /** `x` has a session: it was announced or connected, and not withdrawn since. */
  predicate Known(scheduler: IpAddr, es: seq<Event>, x: IpAddr) {
    if es == [] then false
    else
      match es[|es| - 1]
      case Announce(y, _) => y == x || Known(scheduler, es[..|es| - 1], x)
      case Connected(y, _) => (y == x && x != scheduler) || Known(scheduler, es[..|es| - 1], x)
      case Withdraw(y) => y != x && Known(scheduler, es[..|es| - 1], x)
      case _ => Known(scheduler, es[..|es| - 1], x)
  }

  /** The last word on `x` is that a connection to it is up. */
  predicate IsUp(scheduler: IpAddr, es: seq<Event>, x: IpAddr) {
    if es == [] then false
    else
      match es[|es| - 1]
      case Connected(y, _) => (y == x && x != scheduler) || IsUp(scheduler, es[..|es| - 1], x)
      case Failed(y, _) => y != x && IsUp(scheduler, es[..|es| - 1], x)
      case Withdraw(y) => y != x && IsUp(scheduler, es[..|es| - 1], x)
      case _ => IsUp(scheduler, es[..|es| - 1], x)
  }

  /** The handle of the last connection to `x` since it was last withdrawn, if there was one. */
  function LastHandle(scheduler: IpAddr, es: seq<Event>, x: IpAddr): Handle {
    if es == [] then Handle(0)
    else
      match es[|es| - 1]
      case Connected(y, h) => if y == x && x != scheduler then h else LastHandle(scheduler, es[..|es| - 1], x)
      case Withdraw(y) => if y == x then Handle(0) else LastHandle(scheduler, es[..|es| - 1], x)
      case _ => LastHandle(scheduler, es[..|es| - 1], x)
  }

  /** `x` has been connected since it was last withdrawn. */
  predicate WasUp(scheduler: IpAddr, es: seq<Event>, x: IpAddr) {
    if es == [] then false
    else
      match es[|es| - 1]
      case Connected(y, _) => (y == x && x != scheduler) || WasUp(scheduler, es[..|es| - 1], x)
      case Withdraw(y) => y != x && WasUp(scheduler, es[..|es| - 1], x)
      case _ => WasUp(scheduler, es[..|es| - 1], x)
  }

  /** The transport's own view, the scheduler's connections apart: the last word on handle `h` is that
      it is up. */
  predicate LinkUp(scheduler: IpAddr, es: seq<Event>, h: Handle) {
    if es == [] then false
    else
      match es[|es| - 1]
      case Announce(_, g) => g != h && LinkUp(scheduler, es[..|es| - 1], h)
      case Connected(y, g) => (g == h && y != scheduler) || LinkUp(scheduler, es[..|es| - 1], h)
      case Failed(y, g) => (g != h || y == scheduler) && LinkUp(scheduler, es[..|es| - 1], h)
      case _ => LinkUp(scheduler, es[..|es| - 1], h)
  }

  // ---------------------------------------------------------------- what the agent knows

  /** The table shows the history: in every run an address has a session exactly when it is known, and
      the session holds the handle of its last connection and has a connection exactly when the last
      word on it is that one is up. */
  lemma {:induction false} KnowsHistory(scheduler: IpAddr, es: seq<Event>, x: IpAddr)
    requires Legal(scheduler, es)
    ensures var a := AgentRuns.Run(scheduler, Start(), es);
            && (x in a.sessions <==> Known(scheduler, es, x))
            && (x in a.sessions ==>
                  && a.sessions[x].handleID == LastHandle(scheduler, es, x)
                  && a.sessions[x].handler ==
                     if IsUp(scheduler, es, x) then Some(LastHandle(scheduler, es, x)) else None)
            && (x !in a.sessions ==> !IsUp(scheduler, es, x) && LastHandle(scheduler, es, x) == NO_HANDLE)
  {
    if es != [] {
      var front, e := es[..|es| - 1], es[|es| - 1];
      KnowsHistory(scheduler, front, x);
      RunLast(scheduler, Start(), front, e);
      assert es == front + [e];
    }
  }

  lemma HoldsHistory(scheduler: IpAddr, es: seq<Event>, x: IpAddr)
    requires Legal(scheduler, es)
    ensures x in AgentRuns.Run(scheduler, Start(), es).ring.slots <==> IsUp(scheduler, es, x)
  {
    Safety(scheduler, es);
    KnowsHistory(scheduler, es, x);
  }

  lemma {:induction false} WasUpHasHandle(scheduler: IpAddr, es: seq<Event>, x: IpAddr)
    requires Legal(scheduler, es)
    ensures WasUp(scheduler, es, x) <==> LastHandle(scheduler, es, x) != NO_HANDLE
  {
    if es != [] {
      WasUpHasHandle(scheduler, es[..|es| - 1], x);
      Safety(scheduler, es[..|es| - 1]);
    }
  }

  lemma {:induction false} WasUpIsKnown(scheduler: IpAddr, es: seq<Event>, x: IpAddr)
    ensures WasUp(scheduler, es, x) ==> Known(scheduler, es, x) && x != scheduler
  {
    if es != [] {
      WasUpIsKnown(scheduler, es[..|es| - 1], x);
    }
  }

  // ---------------------------------------------------------------- what the agent says

  /** Some other forwarder is connected. */
  ghost predicate OthersUp(scheduler: IpAddr, es: seq<Event>, x: IpAddr) {
    exists y :: y != x && IsUp(scheduler, es, y)
  }

  /** What an event makes the agent say, publications apart. */
  ghost function Answer(scheduler: IpAddr, es: seq<Event>, e: Event): seq<Action> {
    match e
    case Announce(x, h) => if Known(scheduler, es, x) then [] else [Connect(x, h)]
    case Connected(x, h) =>
      if x == scheduler then [RegisterClient(x)]
      else [Register(h)] + (if OthersUp(scheduler, es, x) then [] else [Ready])
    case Failed(x, h) =>
      (if Known(scheduler, es, x) && !OthersUp(scheduler, es, x) then [Abnormal] else []) + [HandOn(h)]
    case Withdraw(x) =>
      var h := LastHandle(scheduler, es, x);
      if h == Handle(0) then [] else if IsUp(scheduler, es, x) then [DisConnect(h)] else [CancelConnect(h)]
    case Publish(_) => []
  }

  /** And what it says to all of them. */
  ghost function Said(scheduler: IpAddr, es: seq<Event>): seq<Action> {
    if es == [] then []
    else Said(scheduler, es[..|es| - 1]) + Answer(scheduler, es[..|es| - 1], es[|es| - 1])
  }

  /** The log without the publications. */
  function Unsent(log: seq<Action>): seq<Action> {
    if log == [] then []
    else Unsent(log[..|log| - 1]) + (if log[|log| - 1].Send? then [] else [log[|log| - 1]])
  }

  lemma {:induction false} UnsentAppend(x: seq<Action>, y: seq<Action>)
    ensures Unsent(x + y) == Unsent(x) + Unsent(y)
    decreases |y|
  {
    if y == [] {
      assert x + y == x;
    } else {
      var k := |y| - 1;
      UnsentAppend(x, y[..k]);
      assert (x + y)[..|x + y| - 1] == x + y[..k];
    }
  }

  /** With `x` put into the array it is alone exactly when nobody else was there; and so for taking
      it out. */
  lemma AloneInArray(ring: Arr<IpAddr>, x: IpAddr)
    requires Rotates(ring)
    ensures |Insert(ring, x).slots| == 1 <==> forall y :: y in ring.slots ==> y == x
    ensures Delete(ring, x).1.slots == [] <==> forall y :: y in ring.slots ==> y == x
  {
    RingDelete(ring, x);
    var r := Delete(ring, x).1.slots;
    if r != [] {
      assert r[0] in r;
    }
    RingInsert(ring, x);
    var s := Insert(ring, x).slots;
    assert x in s;
    if |s| > 1 {
      assert s[0] in s && s[1] in s && s[0] != s[1];
    }
  }

  /** What an event adds to the log, publications apart. */
  lemma AnswerIsLogged(scheduler: IpAddr, es: seq<Event>, e: Event)
    requires Legal(scheduler, es) && Enabled(scheduler, AgentRuns.Run(scheduler, Start(), es), e) && !e.Publish?
    ensures var a := AgentRuns.Run(scheduler, Start(), es);
            Step(scheduler, a, e).log == a.log + Answer(scheduler, es, e)
  {
    var a := AgentRuns.Run(scheduler, Start(), es);
    Safety(scheduler, es);
    forall y
      ensures y in a.ring.slots <==> IsUp(scheduler, es, y)
    {
      HoldsHistory(scheduler, es, y);
    }
    assert a.log + [] == a.log;
    match e {
      case Announce(x, h) => KnowsHistory(scheduler, es, x);
      case Connected(x, h) =>
        AloneInArray(a.ring, x);
        Joined(a.log, [Register(h)], [Ready]);
        Joined(a.log, [Register(h)], []);
      case Failed(x, h) =>
        KnowsHistory(scheduler, es, x);
        AloneInArray(a.ring, x);
        Joined(a.log, [Abnormal], [HandOn(h)]);
        Joined(a.log, [], [HandOn(h)]);
      case Withdraw(x) => KnowsHistory(scheduler, es, x);
    }
  }

  /** A publication is sent once, over the last connection of a forwarder that is up, if any is. */
  lemma PublicationIsSent(scheduler: IpAddr, es: seq<Event>, msg: seq<bv8>)
    requires Legal(scheduler, es)
    ensures var a := AgentRuns.Run(scheduler, Start(), es);
            var log := Step(scheduler, a, Publish(msg)).log;
            || (log == a.log && forall y :: !IsUp(scheduler, es, y))
            || (exists y :: IsUp(scheduler, es, y) && log == a.log + [Send(LastHandle(scheduler, es, y), msg)])
  {
    var a := AgentRuns.Run(scheduler, Start(), es);
    Safety(scheduler, es);
    if a.ring.slots == [] {
      forall y
        ensures !IsUp(scheduler, es, y)
      {
        HoldsHistory(scheduler, es, y);
      }
    } else {
      var y := Get(a.ring).0.value;
      assert y in a.ring.slots;
      HoldsHistory(scheduler, es, y);
      KnowsHistory(scheduler, es, y);
    }
  }

  lemma {:induction false} NothingSent(xs: seq<Action>)
    requires forall x :: x in xs ==> !x.Send?
    ensures Unsent(xs) == xs
  {
    if xs != [] {
      var k := |xs| - 1;
      NothingSent(xs[..k]);
      assert xs == xs[..k] + [xs[k]];
    }
  }

  lemma AnswerSendsNothing(scheduler: IpAddr, es: seq<Event>, e: Event)
    ensures forall x :: x in Answer(scheduler, es, e) ==> !x.Send?
  {
  }

  /** What an event makes the agent say, publications included, but for what they send. */
  lemma StepSays(scheduler: IpAddr, es: seq<Event>, e: Event)
    requires Legal(scheduler, es) && Enabled(scheduler, AgentRuns.Run(scheduler, Start(), es), e)
    ensures var a := AgentRuns.Run(scheduler, Start(), es);
            Unsent(Step(scheduler, a, e).log) == Unsent(a.log) + Answer(scheduler, es, e)
  {
    var log := AgentRuns.Run(scheduler, Start(), es).log;
    if e.Publish? {
      PublicationIsSent(scheduler, es, e.msg);
      var log' := Step(scheduler, AgentRuns.Run(scheduler, Start(), es), e).log;
      if log' != log {
        var y :| IsUp(scheduler, es, y) && log' == log + [Send(LastHandle(scheduler, es, y), e.msg)];
        UnsentOne(log, Send(LastHandle(scheduler, es, y), e.msg));
      }
    } else {
      AnswerIsLogged(scheduler, es, e);
      AnswerSendsNothing(scheduler, es, e);
      AnswerIsUnsent(log, Answer(scheduler, es, e));
    }
  }

  lemma UnsentOne(log: seq<Action>, x: Action)
    ensures Unsent(log + [x]) == Unsent(log) + if x.Send? then [] else [x]
  {
    assert (log + [x])[..|log|] == log;
  }

  lemma AnswerIsUnsent(log: seq<Action>, xs: seq<Action>)
    requires forall x :: x in xs ==> !x.Send?
    ensures Unsent(log + xs) == Unsent(log) + xs
  {
    UnsentAppend(log, xs);
    NothingSent(xs);
  }

  lemma LastSaid(scheduler: IpAddr, es: seq<Event>, e: Event)
    ensures Said(scheduler, es + [e]) == Said(scheduler, es) + Answer(scheduler, es, e)
  {
    assert (es + [e])[..|es|] == es;
  }

  lemma OneMoreSaid(scheduler: IpAddr, es: seq<Event>, e: Event)
    requires Legal(scheduler, es) && Enabled(scheduler, AgentRuns.Run(scheduler, Start(), es), e)
    requires Unsent(AgentRuns.Run(scheduler, Start(), es).log) == Said(scheduler, es)
    ensures Unsent(AgentRuns.Run(scheduler, Start(), es + [e]).log) == Said(scheduler, es + [e])
  {
    RunLast(scheduler, Start(), es, e);
    StepSays(scheduler, es, e);
    LastSaid(scheduler, es, e);
  }

  /** In every run the agent has said exactly what the history calls for: each announcement of an
      unknown forwarder a connection, the scheduler's connection a registration of the client, each
      other connection a registration of the topics, and so on, in order and nothing else. */
  lemma {:induction false} LogIsHistory(scheduler: IpAddr, es: seq<Event>)
    requires Legal(scheduler, es)
    ensures Unsent(AgentRuns.Run(scheduler, Start(), es).log) == Said(scheduler, es)
  {
    if es != [] {
      var front, e := es[..|es| - 1], es[|es| - 1];
      LogIsHistory(scheduler, front);
      OneMoreSaid(scheduler, front, e);
      assert es == front + [e];
    }
  }

  // ---------------------------------------------------------------- registrations and failures, counted

  /** How often the client is registered, and which handles are registered and handed on. */
  function Clients(log: seq<Action>, scheduler: IpAddr): nat {
    if log == [] then 0
    else Clients(log[..|log| - 1], scheduler) + (if log[|log| - 1] == RegisterClient(scheduler) then 1 else 0)
  }

  function Registered(log: seq<Action>): seq<Handle> {
    if log == [] then []
    else Registered(log[..|log| - 1]) + (if log[|log| - 1].Register? then [log[|log| - 1].handle] else [])
  }

  function HandedOn(log: seq<Action>): seq<Handle> {
    if log == [] then []
    else HandedOn(log[..|log| - 1]) + (if log[|log| - 1].HandOn? then [log[|log| - 1].handle] else [])
  }

  /** The same, asked of the events. */
  function SchedulerUps(scheduler: IpAddr, es: seq<Event>): nat {
    if es == [] then 0
    else
      SchedulerUps(scheduler, es[..|es| - 1])
      + (if es[|es| - 1].Connected? && es[|es| - 1].addr == scheduler then 1 else 0)
  }

  function ForwarderUps(scheduler: IpAddr, es: seq<Event>): seq<Handle> {
    if es == [] then []
    else
      ForwarderUps(scheduler, es[..|es| - 1])
      + (if es[|es| - 1].Connected? && es[|es| - 1].addr != scheduler then [es[|es| - 1].handle] else [])
  }

  function Failures(es: seq<Event>): seq<Handle> {
    if es == [] then [] else Failures(es[..|es| - 1]) + (if es[|es| - 1].Failed? then [es[|es| - 1].handle] else [])
  }

  lemma CountOne(log: seq<Action>, x: Action, scheduler: IpAddr)
    ensures Clients(log + [x], scheduler) == Clients(log, scheduler) + (if x == RegisterClient(scheduler) then 1 else 0)
    ensures Registered(log + [x]) == Registered(log) + (if x.Register? then [x.handle] else [])
    ensures HandedOn(log + [x]) == HandedOn(log) + (if x.HandOn? then [x.handle] else [])
  {
    assert (log + [x])[..|log|] == log;
  }

  lemma CountAnswer(scheduler: IpAddr, es: seq<Event>, e: Event, log: seq<Action>)
    ensures var log' := log + Answer(scheduler, es, e);
            && Clients(log', scheduler) ==
               Clients(log, scheduler) + (if e.Connected? && e.addr == scheduler then 1 else 0)
            && Registered(log') == Registered(log) + (if e.Connected? && e.addr != scheduler then [e.handle] else [])
            && HandedOn(log') == HandedOn(log) + (if e.Failed? then [e.handle] else [])
  {
    var xs := Answer(scheduler, es, e);
    assert |xs| <= 2;
    if |xs| == 0 {
      assert log + xs == log;
    } else if |xs| == 1 {
      assert xs == [xs[0]];
      CountOne(log, xs[0], scheduler);
    } else {
      assert xs == [xs[0]] + [xs[1]];
      Joined(log, [xs[0]], [xs[1]]);
      CountOne(log, xs[0], scheduler);
      CountOne(log + [xs[0]], xs[1], scheduler);
    }
  }

  /** Publications do not count. */
  lemma {:induction false} UnsentCounts(log: seq<Action>, scheduler: IpAddr)
    ensures Clients(Unsent(log), scheduler) == Clients(log, scheduler)
    ensures Registered(Unsent(log)) == Registered(log)
    ensures HandedOn(Unsent(log)) == HandedOn(log)
  {
    if log != [] {
      var front, x := log[..|log| - 1], log[|log| - 1];
      UnsentCounts(front, scheduler);
      assert log == front + [x];
      CountOne(front, x, scheduler);
      CountOne(Unsent(front), x, scheduler);
      assert Unsent(front) + [] == Unsent(front);
    }
  }

  lemma {:induction false} SaidCounts(scheduler: IpAddr, es: seq<Event>)
    ensures Clients(Said(scheduler, es), scheduler) == SchedulerUps(scheduler, es)
    ensures Registered(Said(scheduler, es)) == ForwarderUps(scheduler, es)
    ensures HandedOn(Said(scheduler, es)) == Failures(es)
  {
    if es != [] {
      var front, e := es[..|es| - 1], es[|es| - 1];
      SaidCounts(scheduler, front);
      CountAnswer(scheduler, front, e, Said(scheduler, front));
    }
  }

  /** In every run the client is registered once for every connection of the scheduler, the topics over
      every connection of a forwarder in the order they came up, and every failure is handed on. */
  lemma RegistrationsAreExact(scheduler: IpAddr, es: seq<Event>)
    requires Legal(scheduler, es)
    ensures var log := AgentRuns.Run(scheduler, Start(), es).log;
            && Clients(log, scheduler) == SchedulerUps(scheduler, es)
            && Registered(log) == ForwarderUps(scheduler, es)
            && HandedOn(log) == Failures(es)
  {
    LogIsHistory(scheduler, es);
    UnsentCounts(AgentRuns.Run(scheduler, Start(), es).log, scheduler);
    SaidCounts(scheduler, es);
  }

  /** Any run at all, with `es` what has happened in it: table, array and log show `es`, and nothing
      else. */
  lemma RunIsHistory(scheduler: IpAddr, events: seq<Event>, x: IpAddr)
    ensures var es, a := Happened(scheduler, events), AgentRuns.Run(scheduler, Start(), events);
            var h := LastHandle(scheduler, es, x);
            && (x in a.sessions <==> Known(scheduler, es, x))
            && (x in a.sessions ==>
                  a.sessions[x] == Session(if IsUp(scheduler, es, x) then Some(h) else None, h))
            && (x in a.ring.slots <==> IsUp(scheduler, es, x))
            && Unsent(a.log) == Said(scheduler, es)
            && Clients(a.log, scheduler) == SchedulerUps(scheduler, es)
            && Registered(a.log) == ForwarderUps(scheduler, es)
            && HandedOn(a.log) == Failures(es)
  {
    HappenedIsTheRun(scheduler, events);
    var es := Happened(scheduler, events);
    KnowsHistory(scheduler, es, x);
    HoldsHistory(scheduler, es, x);
    LogIsHistory(scheduler, es);
    RegistrationsAreExact(scheduler, es);
  }

  // ---------------------------------------------------------------- which closing request fits

  /** Since the last connection to `x` a failure was reported: of that connection itself, or of an
      older one. */
  predicate FailedSince(scheduler: IpAddr, es: seq<Event>, x: IpAddr, itself: bool) {
    if es == [] then false
    else
      match es[|es| - 1]
      case Failed(y, g) =>
        || (y == x && (g == LastHandle(scheduler, es[..|es| - 1], x)) == itself)
        || FailedSince(scheduler, es[..|es| - 1], x, itself)
      case Connected(y, _) => (y != x || x == scheduler) && FailedSince(scheduler, es[..|es| - 1], x, itself)
      case Withdraw(y) => y != x && FailedSince(scheduler, es[..|es| - 1], x, itself)
      case _ => FailedSince(scheduler, es[..|es| - 1], x, itself)
  }

  /** The agent has taken the failure of an older connection for that of the last one. */
  predicate Mistaken(scheduler: IpAddr, es: seq<Event>, x: IpAddr) {
    FailedSince(scheduler, es, x, false) && !FailedSince(scheduler, es, x, true)
  }

  /** The agent counts the last connection as lost after any failure, the transport after its own. */
  lemma {:induction false} ViewsDiffer(scheduler: IpAddr, es: seq<Event>, x: IpAddr)
    requires Legal(scheduler, es) && WasUp(scheduler, es, x)
    ensures IsUp(scheduler, es, x) <==>
            !FailedSince(scheduler, es, x, true) && !FailedSince(scheduler, es, x, false)
    ensures LinkUp(scheduler, es, LastHandle(scheduler, es, x)) <==> !FailedSince(scheduler, es, x, true)
  {
    var front, e := es[..|es| - 1], es[|es| - 1];
    Safety(scheduler, front);
    KnowsHistory(scheduler, front, x);
    WasUpHasHandle(scheduler, front, x);
    WasUpIsKnown(scheduler, front, x);
    if WasUp(scheduler, front, x) {
      ViewsDiffer(scheduler, front, x);
    }
  }

  /** In every run a withdrawal of a forwarder that has been connected logs one request, for the handle
      of its last connection; and that is a disconnect while the transport has it up and a cancel
      while not, if and only if the agent is not mistaken about it.  It never disconnects what is not
      up. */
  lemma ClosingFitsIff(scheduler: IpAddr, events: seq<Event>, x: IpAddr)
    requires WasUp(scheduler, Happened(scheduler, events), x)
    ensures var es := Happened(scheduler, events);
            var a, h := AgentRuns.Run(scheduler, Start(), events), LastHandle(scheduler, es, x);
            var log := OnWithdraw(a, x).log;
            && (log == a.log + [DisConnect(h)] || log == a.log + [CancelConnect(h)])
            && (log == a.log + [DisConnect(h)] ==> LinkUp(scheduler, es, h))
            && (log == a.log + [if LinkUp(scheduler, es, h) then DisConnect(h) else CancelConnect(h)]
                <==> !Mistaken(scheduler, es, x))
  {
    var es := Happened(scheduler, events);
    var a, h := AgentRuns.Run(scheduler, Start(), events), LastHandle(scheduler, es, x);
    HappenedIsTheRun(scheduler, events);
    KnowsHistory(scheduler, es, x);
    WasUpHasHandle(scheduler, es, x);
    WasUpIsKnown(scheduler, es, x);
    ViewsDiffer(scheduler, es, x);
    assert OnWithdraw(a, x).log == a.log + [if IsUp(scheduler, es, x) then DisConnect(h) else CancelConnect(h)];
    assert (a.log + [DisConnect(h)])[|a.log|] != (a.log + [CancelConnect(h)])[|a.log|];
  }

  /** And one of a forwarder that has not been connected logs nothing. */
  lemma NothingToClose(scheduler: IpAddr, events: seq<Event>, x: IpAddr)
    requires !WasUp(scheduler, Happened(scheduler, events), x)
    ensures var a := AgentRuns.Run(scheduler, Start(), events);
            OnWithdraw(a, x).log == a.log
  {
    var es := Happened(scheduler, events);
    HappenedIsTheRun(scheduler, events);
    KnowsHistory(scheduler, es, x);
    WasUpHasHandle(scheduler, es, x);
    Safety(scheduler, events);
  }

  // ---------------------------------------------------------------- forwarders withdrawn after a connection

  /** Whenever `x` was withdrawn, it had been connected. */
  predicate OnlyWithdrawnUp(scheduler: IpAddr, es: seq<Event>, x: IpAddr) {
    es == [] ||
    (&& OnlyWithdrawnUp(scheduler, es[..|es| - 1], x)
     && (es[|es| - 1] == Withdraw(x) && Known(scheduler, es[..|es| - 1], x) ==> WasUp(scheduler, es[..|es| - 1], x)))
  }

  lemma {:induction false} KeepsOneWire(scheduler: IpAddr, es: seq<Event>, x: IpAddr)
    requires Legal(scheduler, es) && OnlyWithdrawnUp(scheduler, es, x)
    ensures OneWire(AgentRuns.Run(scheduler, Start(), es), x)
  {
    if es != [] {
      var front, e := es[..|es| - 1], es[|es| - 1];
      KeepsOneWire(scheduler, front, x);
      Safety(scheduler, front);
      KnowsHistory(scheduler, front, x);
      WasUpHasHandle(scheduler, front, x);
      RunLast(scheduler, Start(), front, e);
      assert es == front + [e];
      StepKeepsOneWire(scheduler, AgentRuns.Run(scheduler, Start(), front), e, x);
    }
  }

  /** The first time a forwarder is withdrawn before it has been connected is the first time something
      stays open: up to then a withdrawal leaves nothing open to its address if and only if it has
      been connected since it was made known. */
  lemma FirstLeftOpenIff(scheduler: IpAddr, events: seq<Event>, x: IpAddr)
    requires var es := Happened(scheduler, events);
             Known(scheduler, es, x) && OnlyWithdrawnUp(scheduler, es, x)
    ensures OpenTo(OnWithdraw(AgentRuns.Run(scheduler, Start(), events), x), x) == {}
            <==> WasUp(scheduler, Happened(scheduler, events), x)
  {
    var es, a := Happened(scheduler, events), AgentRuns.Run(scheduler, Start(), events);
    HappenedIsTheRun(scheduler, events);
    Safety(scheduler, events);
    KnowsHistory(scheduler, es, x);
    WasUpHasHandle(scheduler, es, x);
    KeepsOneWire(scheduler, es, x);
    WithdrawalLeavesNothingIff(scheduler, events, x);
    if a.sessions[x].handleID != NO_HANDLE {
      assert a.sessions[x].handleID in OpenTo(a, x);
    } else {
      assert NO_HANDLE !in OpenTo(a, x);
    }
  }

  /** Up to then every failure is one of the last connection, so the agent is not mistaken. */
  lemma {:induction false} NotMistaken(scheduler: IpAddr, es: seq<Event>, x: IpAddr)
    requires Legal(scheduler, es) && OnlyWithdrawnUp(scheduler, es, x) && WasUp(scheduler, es, x)
    ensures !FailedSince(scheduler, es, x, false)
  {
    var front, e := es[..|es| - 1], es[|es| - 1];
    var a := AgentRuns.Run(scheduler, Start(), front);
    if WasUp(scheduler, front, x) {
      NotMistaken(scheduler, front, x);
      Safety(scheduler, front);
      KnowsHistory(scheduler, front, x);
      WasUpHasHandle(scheduler, front, x);
      WasUpIsKnown(scheduler, front, x);
      KeepsOneWire(scheduler, front, x);
      assert LastHandle(scheduler, front, x) in OpenTo(a, x);
      if e.Failed? && e.addr == x {
        assert e.handle in OpenTo(a, x);
      }
    }
  }

  /** In a run in which a forwarder was only withdrawn after it had been connected, its withdrawal logs
      exactly the request that fits. */
  lemma ClosingFits(scheduler: IpAddr, events: seq<Event>, x: IpAddr)
    requires var es := Happened(scheduler, events);
             OnlyWithdrawnUp(scheduler, es, x) && WasUp(scheduler, es, x)
    ensures var es, a := Happened(scheduler, events), AgentRuns.Run(scheduler, Start(), events);
            var h := LastHandle(scheduler, es, x);
            OnWithdraw(a, x).log == a.log + [if LinkUp(scheduler, es, h) then DisConnect(h) else CancelConnect(h)]
  {
    HappenedIsTheRun(scheduler, events);
    NotMistaken(scheduler, Happened(scheduler, events), x);
    ClosingFitsIff(scheduler, events, x);
  }

  /** One more event that can be reported. */
  lemma Happens(scheduler: IpAddr, es: seq<Event>, e: Event)
    requires Happened(scheduler, es) == es && Enabled(scheduler, AgentRuns.Run(scheduler, Start(), es), e)
    ensures Happened(scheduler, es + [e]) == es + [e]
    ensures AgentRuns.Run(scheduler, Start(), es + [e]) == Step(scheduler, AgentRuns.Run(scheduler, Start(), es), e)
  {
    RunLast(scheduler, Start(), es, e);
    assert (es + [e])[..|es + [e]| - 1] == es;
  }

  /** One more report on a connection that is open. */
  lemma Reports(scheduler: IpAddr, es: seq<Event>, e: Event)
    requires Happened(scheduler, es) == es && (e.Connected? || e.Failed?)
    requires var open := Open(AgentRuns.Run(scheduler, Start(), es).log);
             e.handle in open && open[e.handle] == e.addr
    ensures Happened(scheduler, es + [e]) == es + [e]
    ensures Open(AgentRuns.Run(scheduler, Start(), es + [e]).log) == Open(AgentRuns.Run(scheduler, Start(), es).log)
  {
    Happens(scheduler, es, e);
    Safety(scheduler, es);
    StepOpens(scheduler, AgentRuns.Run(scheduler, Start(), es), e);
  }

  /** A forwarder is announced, withdrawn before it is connected and announced again. */
  lemma TwoAttempts(scheduler: IpAddr, x: IpAddr, g: Handle, h: Handle)
    requires g != NO_HANDLE && h != NO_HANDLE && g != h
    ensures var es := [Announce(x, g), Withdraw(x), Announce(x, h)];
            && Happened(scheduler, es) == es
            && Open(AgentRuns.Run(scheduler, Start(), es).log) == map[g := x, h := x]
  {
    var e1, e2, e3 := Announce(x, g), Withdraw(x), Announce(x, h);
    OpenOne([], Connect(x, g));
    OpenOne([Connect(x, g)], Connect(x, h));
    assert [] + [e1] == [e1] && [e1] + [e2] == [e1, e2] && [e1, e2] + [e3] == [e1, e2, e3];
    Happens(scheduler, [], e1);
    Happens(scheduler, [e1], e2);
    Happens(scheduler, [e1, e2], e3);
    assert [] + [Connect(x, g)] == [Connect(x, g)] && [Connect(x, g)] + [] == [Connect(x, g)];
  }

  lemma OlderFails(scheduler: IpAddr, es: seq<Event>, x: IpAddr, g: Handle, h: Handle)
    requires x != scheduler && g != h
    ensures var es' := es + [Connected(x, h)] + [Failed(x, g)];
            && WasUp(scheduler, es', x) && LinkUp(scheduler, es', h) && LastHandle(scheduler, es', x) == h
            && Mistaken(scheduler, es', x)
  {
    var es5 := es + [Connected(x, h)];
    var es6 := es5 + [Failed(x, g)];
    assert es5[..|es5| - 1] == es && es6[..|es6| - 1] == es5;
    assert LastHandle(scheduler, es5, x) == h;
    assert !FailedSince(scheduler, es5, x, true);
  }

  /** A run in which it is: the attempt of a withdrawn forwarder goes on beside that of its next
      session, both come up, and when the older one fails a withdrawal cancels the newer, which is
      up. */
  lemma CancelsLiveConnection(scheduler: IpAddr, x: IpAddr, g: Handle, h: Handle)
    requires x != scheduler && g != NO_HANDLE && h != NO_HANDLE && g != h
    ensures var events := [Announce(x, g), Withdraw(x), Announce(x, h)]
                          + [Connected(x, g), Connected(x, h), Failed(x, g)];
            var a := AgentRuns.Run(scheduler, Start(), events);
            && Happened(scheduler, events) == events && LinkUp(scheduler, events, h)
            && OnWithdraw(a, x).log == a.log + [CancelConnect(h)]
  {
    var es := [Announce(x, g), Withdraw(x), Announce(x, h)];
    TwoAttempts(scheduler, x, g, h);
    var es4 := es + [Connected(x, g)];
    Reports(scheduler, es, Connected(x, g));
    var es5 := es4 + [Connected(x, h)];
    Reports(scheduler, es4, Connected(x, h));
    var es6 := es5 + [Failed(x, g)];
    Reports(scheduler, es5, Failed(x, g));
    OlderFails(scheduler, es4, x, g, h);
    ClosingFitsIff(scheduler, es6, x);
    assert es6 == es + [Connected(x, g), Connected(x, h), Failed(x, g)];
  }
}
