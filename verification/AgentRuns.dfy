/** The agent that spreads publications over the connected forwarders, as a machine over its events,
    and what follows for every run: which forwarders it holds, what it leaves open when one is
    withdrawn, and what its notices to the application mean.  `AgentService.dfy` holds the agent
    itself. */
module AgentRuns {
  import opened Cyclic
  import opened TypeArray
  import opened TypeArraySpec
  import opened Wrappers

  /** A forwarder's session: the handle of its connection, when there is one, and of its last
      connection, none before the first. */
  datatype Session = Session(handler: Option<Handle>, handleID: Handle)

  /** What the agent asks of the transport and tells the application, in order. */
  datatype Action =
    | Connect(addr: IpAddr, handle: Handle)
    | Register(handle: Handle)          // its topics, over a new connection to a forwarder
    | RegisterClient(addr: IpAddr)   // itself, at the scheduler
    | Send(handle: Handle, msg: seq<bv8>)
    | DisConnect(handle: Handle)
    | CancelConnect(handle: Handle)
    | HandOn(handle: Handle)         // a failed connection, to the transport's own handler
    | Ready
    | Abnormal

  /** `ring` is the type array of the forwarders that take messages; a session is known by its address. */
  datatype Agent = Agent(sessions: map<IpAddr, Session>, ring: Arr<IpAddr>, log: seq<Action>)

  datatype Event =
    | Announce(addr: IpAddr, handle: Handle)    // `handle` is the one allocated for the connection
    | Connected(addr: IpAddr, handle: Handle)
    | Failed(addr: IpAddr, handle: Handle)
    | Withdraw(addr: IpAddr)
    | Publish(msg: seq<bv8>)

  function Start(): Agent {
    Agent(map[], Empty(), [])
  }

  // ---------------------------------------------------------------- steps

  function OnAnnounce(a: Agent, addr: IpAddr, handle: Handle): Agent {
    if addr in a.sessions then a
    else a.(sessions := a.sessions[addr := Session(None, NO_HANDLE)], log := a.log + [Connect(addr, handle)])
  }

  /** The scheduler's connection is used to register the client; a forwarder, known or not, gets its
      session and joins the array, and the application is told when it is the only one. */
  function OnConnected(scheduler: IpAddr, a: Agent, addr: IpAddr, handle: Handle): Agent {
    if addr == scheduler then a.(log := a.log + [RegisterClient(addr)])
    else
      var ring := Insert(a.ring, addr);
      Agent(a.sessions[addr := Session(Some(handle), handle)], ring,
            a.log + [Register(handle)] + (if |ring.slots| == 1 then [Ready] else []))
  }

  /** The connection `handle` to `addr` has failed; the agent goes by the address alone. */
  function OnFailed(a: Agent, addr: IpAddr, handle: Handle): Agent {
    if addr !in a.sessions then a.(log := a.log + [HandOn(handle)])
    else
      var ring := Delete(a.ring, addr).1;
      Agent(a.sessions[addr := a.sessions[addr].(handler := None)], ring,
            a.log + (if ring.slots == [] then [Abnormal] else []) + [HandOn(handle)])
  }

  /** How the connection of a withdrawn forwarder is ended. */
  function Closing(s: Session): seq<Action> {
    match s.handler
    case Some(h) => [DisConnect(h)]
    case None => if s.handleID != NO_HANDLE then [CancelConnect(s.handleID)] else []
  }

  function OnWithdraw(a: Agent, addr: IpAddr): Agent {
    if addr !in a.sessions then a
    else Agent(a.sessions - {addr}, Delete(a.ring, addr).1, a.log + Closing(a.sessions[addr]))
  }

  function OnPublish(a: Agent, msg: seq<bv8>): Agent {
    var (dest, ring) := Get(a.ring);
    if dest.Some? && dest.value in a.sessions && a.sessions[dest.value].handler.Some?
    then a.(ring := ring, log := a.log + [Send(a.sessions[dest.value].handler.value, msg)])
    else a.(ring := ring)
  }

  // ---------------------------------------------------------------- what is open at the transport

  /** The connections and attempts the log leaves open, by handle: each was asked for and neither
      closed nor cancelled.  A connection that fails is taken up again under its handle. */
  function Open(log: seq<Action>): map<Handle, IpAddr> {
    if log == [] then map[] else After(Open(log[..|log| - 1]), log[|log| - 1])
  }

  function After(open: map<Handle, IpAddr>, x: Action): map<Handle, IpAddr> {
    match x
    case Connect(addr, h) => open[h := addr]
    case DisConnect(h) => open - {h}
    case CancelConnect(h) => open - {h}
    case _ => open
  }

  /** What is open to one address. */
  ghost function OpenTo(a: Agent, addr: IpAddr): set<Handle> {
    set h | h in Open(a.log) && Open(a.log)[h] == addr
  }

  /** The transport reports only connections that are open, the scheduler's apart, and a new handle
      is one that is not in use. */
  predicate Enabled(scheduler: IpAddr, a: Agent, e: Event) {
    Reported(scheduler, Open(a.log), e)
  }

  predicate Reported(scheduler: IpAddr, open: map<Handle, IpAddr>, e: Event) {
    match e
    case Announce(_, h) => h != NO_HANDLE && h !in open
    case Connected(addr, h) => addr == scheduler || (h in open && open[h] == addr)
    case Failed(addr, h) => addr == scheduler || (h in open && open[h] == addr)
    case _ => true
  }

  function Step(scheduler: IpAddr, a: Agent, e: Event): Agent {
    if !Enabled(scheduler, a, e) then a
    else
      match e
      case Announce(addr, h) => OnAnnounce(a, addr, h)
      case Connected(addr, h) => OnConnected(scheduler, a, addr, h)
      case Failed(addr, h) => OnFailed(a, addr, h)
      case Withdraw(addr) => OnWithdraw(a, addr)
      case Publish(msg) => OnPublish(a, msg)
  }

  function Run(scheduler: IpAddr, a: Agent, events: seq<Event>): Agent
    decreases |events|
  {
    if events == [] then a else Run(scheduler, Step(scheduler, a, events[0]), events[1..])
  }

  /** The event is not the connection that makes the array's storage size wrap around. */
  predicate Fits(scheduler: IpAddr, a: Agent, e: Event) {
    e.Connected? ==> e.addr == scheduler || HasRoom(a.ring, OpInsert(e.addr))
  }

  predicate RunFits(scheduler: IpAddr, a: Agent, events: seq<Event>)
    decreases |events|
  {
    events == [] || (Fits(scheduler, a, events[0]) && RunFits(scheduler, Step(scheduler, a, events[0]), events[1..]))
  }

  lemma OpenOne(log: seq<Action>, x: Action)
    ensures Open(log + [x]) == After(Open(log), x)
  {
    assert (log + [x])[..|log|] == log;
  }

  predicate Quiet(x: Action) {
    !x.Connect? && !x.DisConnect? && !x.CancelConnect?
  }

  lemma {:induction false} OpenQuiet(log: seq<Action>, xs: seq<Action>)
    requires forall x :: x in xs ==> Quiet(x)
    ensures Open(log + xs) == Open(log)
    decreases |xs|
  {
    if xs == [] {
      assert log + xs == log;
    } else {
      var k := |xs| - 1;
      assert xs[k] in xs && forall x :: x in xs[..k] ==> x in xs;
      OpenQuiet(log, xs[..k]);
      OpenOne(log + xs[..k], xs[k]);
      assert log + xs == (log + xs[..k]) + [xs[k]];
    }
  }

  // ---------------------------------------------------------------- the invariant

  /** A session's handle is that of a connection or attempt open to its address, and some is open to
      every address that has a session. */
  ghost predicate Wired(sessions: map<IpAddr, Session>, open: map<Handle, IpAddr>) {
    forall x :: x in sessions ==>
      && (sessions[x].handler.Some? ==> sessions[x].handler.value == sessions[x].handleID != NO_HANDLE)
      && (sessions[x].handleID != NO_HANDLE ==> sessions[x].handleID in open && open[sessions[x].handleID] == x)
  }

  ghost predicate Reached(sessions: map<IpAddr, Session>, open: map<Handle, IpAddr>) {
    forall x :: x in sessions ==> exists h :: h in open && open[h] == x
  }

  /** The array holds exactly the forwarders that have a connection. */
  ghost predicate Holds(a: Agent) {
    Rotates(a.ring) && forall x :: x in a.ring.slots <==> x in a.sessions && a.sessions[x].handler.Some?
  }

  ghost predicate Inv(a: Agent) {
    && Holds(a) && Wired(a.sessions, Open(a.log)) && Reached(a.sessions, Open(a.log))
    && NO_HANDLE !in Open(a.log)
  }

  lemma RingInsert(ring: Arr<IpAddr>, addr: IpAddr)
    requires Rotates(ring)
    ensures Rotates(Insert(ring, addr)) && forall x :: x in Insert(ring, addr).slots <==> x in ring.slots || x == addr
  {
  }

  lemma RingDelete(ring: Arr<IpAddr>, addr: IpAddr)
    requires Rotates(ring)
    ensures var r := Delete(ring, addr).1;
            Rotates(r) && forall x :: x in r.slots <==> x in ring.slots && x != addr
  {
    if addr in ring.slots {
      WithoutEffect(ring.slots, IndexOf(ring.slots, addr));
    }
  }

  lemma AnnounceKeeps(a: Agent, addr: IpAddr, h: Handle)
    requires Inv(a) && h != NO_HANDLE && h !in Open(a.log)
    ensures Inv(OnAnnounce(a, addr, h))
  {
    OpenOne(a.log, Connect(addr, h));
    var a' := OnAnnounce(a, addr, h);
    forall x | x in a'.sessions
      ensures exists g :: g in Open(a'.log) && Open(a'.log)[g] == x
    {
      if x in a.sessions {
        var g :| g in Open(a.log) && Open(a.log)[g] == x;
        assert g in Open(a'.log);
      } else {
        assert h in Open(a'.log);
      }
    }
  }

  /** Steps that only add or change a session whose connection is open. */
  lemma ReachedGrows(sessions: map<IpAddr, Session>, open: map<Handle, IpAddr>, addr: IpAddr, s: Session, h: Handle)
    requires Reached(sessions, open) && h in open && open[h] == addr
    ensures Reached(sessions[addr := s], open)
  {
  }

  lemma ConnectedOpens(scheduler: IpAddr, a: Agent, addr: IpAddr, h: Handle)
    ensures Open(OnConnected(scheduler, a, addr, h).log) == Open(a.log)
  {
    if addr == scheduler {
      OpenOne(a.log, RegisterClient(addr));
    } else {
      OpenOne(a.log, Register(h));
      OpenOne(a.log + [Register(h)], Ready);
      assert a.log + [Register(h)] + [] == a.log + [Register(h)];
    }
  }

  lemma ConnectedKeeps(scheduler: IpAddr, a: Agent, addr: IpAddr, h: Handle)
    requires Inv(a) && Enabled(scheduler, a, Connected(addr, h))
    ensures Inv(OnConnected(scheduler, a, addr, h))
    ensures Open(OnConnected(scheduler, a, addr, h).log) == Open(a.log)
  {
    ConnectedOpens(scheduler, a, addr, h);
    if addr != scheduler {
      RingInsert(a.ring, addr);
      ReachedGrows(a.sessions, Open(a.log), addr, Session(Some(h), h), h);
    }
  }

  lemma FailedKeeps(a: Agent, addr: IpAddr, h: Handle)
    requires Inv(a)
    ensures Inv(OnFailed(a, addr, h)) && Open(OnFailed(a, addr, h).log) == Open(a.log)
  {
    if addr in a.sessions {
      RingDelete(a.ring, addr);
      var notice := if Delete(a.ring, addr).1.slots == [] then [Abnormal] else [];
      OpenQuiet(a.log, notice);
      OpenOne(a.log + notice, HandOn(h));
      var g :| g in Open(a.log) && Open(a.log)[g] == addr;
      ReachedGrows(a.sessions, Open(a.log), addr, a.sessions[addr].(handler := None), g);
    } else {
      OpenOne(a.log, HandOn(h));
    }
  }

  /** A withdrawal closes the session's own handle, and no other. */
  lemma WithdrawCloses(a: Agent, addr: IpAddr)
    requires Inv(a) && addr in a.sessions
    ensures Open(OnWithdraw(a, addr).log) == Open(a.log) - {a.sessions[addr].handleID}
  {
    var s := a.sessions[addr];
    if s.handler.Some? {
      OpenOne(a.log, DisConnect(s.handler.value));
    } else if s.handleID != NO_HANDLE {
      OpenOne(a.log, CancelConnect(s.handleID));
    } else {
      assert a.log + [] == a.log;
    }
  }

  lemma WithdrawKeeps(a: Agent, addr: IpAddr)
    requires Inv(a)
    ensures Inv(OnWithdraw(a, addr))
  {
    if addr in a.sessions {
      RingDelete(a.ring, addr);
      WithdrawCloses(a, addr);
      var a' := OnWithdraw(a, addr);
      forall x | x in a'.sessions
        ensures exists g :: g in Open(a'.log) && Open(a'.log)[g] == x
      {
        var g :| g in Open(a.log) && Open(a.log)[g] == x;
        assert g in Open(a'.log);
      }
    }
  }

  lemma PublishKeeps(a: Agent, msg: seq<bv8>)
    requires Inv(a)
    ensures Inv(OnPublish(a, msg)) && Open(OnPublish(a, msg).log) == Open(a.log)
  {
    var dest := Get(a.ring).0;
    if dest.Some? {
      assert dest.value in a.ring.slots;
      OpenOne(a.log, Send(a.sessions[dest.value].handler.value, msg));
    }
  }

  lemma StepKeeps(scheduler: IpAddr, a: Agent, e: Event)
    requires Inv(a)
    ensures Inv(Step(scheduler, a, e))
  {
    if Enabled(scheduler, a, e) {
      match e {
        case Announce(addr, h) => AnnounceKeeps(a, addr, h);
        case Connected(addr, h) => ConnectedKeeps(scheduler, a, addr, h);
        case Failed(addr, h) => FailedKeeps(a, addr, h);
        case Withdraw(addr) => WithdrawKeeps(a, addr);
        case Publish(msg) => PublishKeeps(a, msg);
      }
    }
  }

  lemma {:induction false} RunKeeps(scheduler: IpAddr, a: Agent, events: seq<Event>)
    requires Inv(a)
    ensures Inv(Run(scheduler, a, events))
    decreases |events|
  {
    if events != [] {
      StepKeeps(scheduler, a, events[0]);
      RunKeeps(scheduler, Step(scheduler, a, events[0]), events[1..]);
    }
  }

  /** In every run the array holds exactly the connected forwarders, and what the sessions know of
      the transport is so. */
  lemma Safety(scheduler: IpAddr, events: seq<Event>)
    ensures Inv(Run(scheduler, Start(), events))
  {
    RunKeeps(scheduler, Start(), events);
  }

  // ---------------------------------------------------------------- forwarders that are withdrawn

  /** What a withdrawal leaves open to its address, in every run: everything but the handle the
      session knew.  Nothing is left if and only if that handle is the only thing open. */
  lemma WithdrawalLeavesNothingIff(scheduler: IpAddr, events: seq<Event>, addr: IpAddr)
    requires addr in Run(scheduler, Start(), events).sessions
    ensures var a := Run(scheduler, Start(), events);
            var left := OpenTo(OnWithdraw(a, addr), addr);
            && left == OpenTo(a, addr) - {a.sessions[addr].handleID}
            && (left == {} <==> OpenTo(a, addr) == {a.sessions[addr].handleID})
  {
    Safety(scheduler, events);
    var a := Run(scheduler, Start(), events);
    WithdrawCloses(a, addr);
    var h :| h in Open(a.log) && Open(a.log)[h] == addr;
    assert h in OpenTo(a, addr);
  }

  /** At most one handle is open to `addr`, and none while it has no session. */
  ghost predicate OneWire(a: Agent, addr: IpAddr) {
    && (forall g, h :: g in OpenTo(a, addr) && h in OpenTo(a, addr) ==> g == h)
    && (addr !in a.sessions ==> OpenTo(a, addr) == {})
  }

  /** What a step does to what is open: an announcement of an unknown address opens its handle, a
      withdrawal closes the handle its session knows, and nothing else changes it. */
  lemma StepOpens(scheduler: IpAddr, a: Agent, e: Event)
    requires Inv(a)
    ensures var open, a' := Open(a.log), Step(scheduler, a, e);
            Open(a'.log) ==
              if e.Announce? && Enabled(scheduler, a, e) && e.addr !in a.sessions then open[e.handle := e.addr]
              else if e.Withdraw? && e.addr in a.sessions then open - {a.sessions[e.addr].handleID}
              else open
  {
    if Enabled(scheduler, a, e) {
      match e {
        case Announce(addr, h) => OpenOne(a.log, Connect(addr, h));
        case Connected(addr, h) => ConnectedKeeps(scheduler, a, addr, h);
        case Failed(addr, h) => FailedKeeps(a, addr, h);
        case Withdraw(addr) =>
          if addr in a.sessions {
            WithdrawCloses(a, addr);
          }
        case Publish(msg) => PublishKeeps(a, msg);
      }
    }
  }

  lemma StepKeepsOneWire(scheduler: IpAddr, a: Agent, e: Event, addr: IpAddr)
    requires Inv(a) && OneWire(a, addr)
    requires e == Withdraw(addr) && addr in a.sessions ==> a.sessions[addr].handleID != NO_HANDLE
    ensures OneWire(Step(scheduler, a, e), addr)
  {
    var a' := Step(scheduler, a, e);
    StepOpens(scheduler, a, e);
    assert forall h :: h in OpenTo(a', addr) ==>
        h in OpenTo(a, addr) || (e.Announce? && e.addr == addr && addr !in a.sessions && h == e.handle);
    if addr !in a'.sessions && addr in a.sessions {
      assert e == Withdraw(addr);
      assert a.sessions[addr].handleID in OpenTo(a, addr);
    }
  }

  // ---------------------------------------------------------------- forwarders that come back

  predicate NotAnnounced(events: seq<Event>, addr: IpAddr) {
    forall e :: e in events ==> !(e.Announce? && e.addr == addr)
  }

  lemma {:induction false} StaysAway(scheduler: IpAddr, a: Agent, events: seq<Event>, addr: IpAddr)
    requires Inv(a) && addr !in a.sessions && NotAnnounced(events, addr)
    requires OpenTo(a, addr) == {} || addr == scheduler
    ensures addr !in Run(scheduler, a, events).sessions
    decreases |events|
  {
    if events != [] {
      var a' := Step(scheduler, a, events[0]);
      assert events[0] in events && forall e :: e in events[1..] ==> e in events;
      StepOpens(scheduler, a, events[0]);
      StepKeeps(scheduler, a, events[0]);
      assert forall h :: h in OpenTo(a', addr) ==> h in OpenTo(a, addr);
      assert addr == scheduler || forall h :: h in Open(a.log) ==> Open(a.log)[h] != addr by {
        assert forall h :: h in Open(a.log) && Open(a.log)[h] == addr ==> h in OpenTo(a, addr);
      }
      StaysAway(scheduler, a', events[1..], addr);
    }
  }

  lemma ComesBack(scheduler: IpAddr, a: Agent, addr: IpAddr, h: Handle)
    requires addr != scheduler && h in OpenTo(a, addr)
    ensures var a' := Run(scheduler, a, [Connected(addr, h)]);
            addr in a'.sessions && addr in a'.ring.slots
  {
    var e := Connected(addr, h);
    assert [e][1..] == [];
    assert Run(scheduler, a, [e]) == Run(scheduler, OnConnected(scheduler, a, addr, h), []);
  }

  /** A forwarder that has been withdrawn, in any reachable state, can be back in table and array
      without being announced again if and only if something else than the handle its session knew
      was open to it: then the next connection that comes up gives it a new session. */
  lemma WithdrawnComesBackIff(scheduler: IpAddr, events: seq<Event>, addr: IpAddr)
    requires addr in Run(scheduler, Start(), events).sessions && addr != scheduler
    ensures var a := Run(scheduler, Start(), events);
            (exists more :: NotAnnounced(more, addr) && addr in Run(scheduler, OnWithdraw(a, addr), more).sessions)
            <==> OpenTo(a, addr) != {a.sessions[addr].handleID}
  {
    Safety(scheduler, events);
    var a := Run(scheduler, Start(), events);
    var a' := OnWithdraw(a, addr);
    WithdrawKeeps(a, addr);
    WithdrawalLeavesNothingIff(scheduler, events, addr);
    if OpenTo(a', addr) == {} {
      forall more | NotAnnounced(more, addr)
        ensures addr !in Run(scheduler, a', more).sessions
      {
        StaysAway(scheduler, a', more, addr);
      }
    } else {
      var h :| h in OpenTo(a', addr);
      ComesBack(scheduler, a', addr, h);
      assert NotAnnounced([Connected(addr, h)], addr);
    }
  }

  /** Such a run: a forwarder is announced and withdrawn before its connection is up; the attempt is
      not cancelled, and when the connection comes up the forwarder is back. */
  lemma WithdrawnForwarderReturns(scheduler: IpAddr, addr: IpAddr, h: Handle)
    requires addr != scheduler && h != NO_HANDLE
    ensures var gone := Run(scheduler, Start(), [Announce(addr, h), Withdraw(addr)]);
            var back := Run(scheduler, gone, [Connected(addr, h)]);
            && addr !in gone.sessions && gone.log == [Connect(addr, h)] && OpenTo(gone, addr) == {h}
            && addr in back.sessions && back.ring.slots == [addr]
            && back.log == [Connect(addr, h), Register(h), Ready]
  {
    var e, f, g := Announce(addr, h), Withdraw(addr), Connected(addr, h);
    var known := OnAnnounce(Start(), addr, h);
    OpenOne([], Connect(addr, h));
    assert [] + [Connect(addr, h)] == [Connect(addr, h)];
    assert [e, f][1..] == [f] && [f][1..] == [] && [g][1..] == [];
    var gone := OnWithdraw(known, addr);
    assert Run(scheduler, Start(), [e, f]) == Run(scheduler, known, [f]) == Run(scheduler, gone, []);
    assert gone.log == [Connect(addr, h)];
    assert Run(scheduler, gone, [g]) == Run(scheduler, OnConnected(scheduler, gone, addr, h), []);
  }

  // ---------------------------------------------------------------- what the notices mean

  /** The last notice to the application: true for `Ready`, false for `Abnormal`. */
  function LastNotice(log: seq<Action>): Option<bool> {
    if log == [] then None
    else
      match log[|log| - 1]
      case Ready => Some(true)
      case Abnormal => Some(false)
      case _ => LastNotice(log[..|log| - 1])
  }

  /** The application believes that it can publish exactly when some forwarder is connected. */
  ghost predicate Informed(a: Agent) {
    LastNotice(a.log) == Some(true) <==> a.ring.slots != []
  }

  /** The step tells the application something. */
  predicate Notices(scheduler: IpAddr, a: Agent, e: Event) {
    Enabled(scheduler, a, e) &&
    match e
    case Connected(addr, h) => addr != scheduler && |Insert(a.ring, addr).slots| == 1
    case Failed(addr, _) => addr in a.sessions && Delete(a.ring, addr).1.slots == []
    case _ => false
  }

  /** The step withdraws the only forwarder that is connected. */
  predicate WithdrawsLast(a: Agent, e: Event) {
    e.Withdraw? && a.ring.slots == [e.addr]
  }

  lemma NoticeOne(log: seq<Action>, x: Action)
    ensures LastNotice(log + [x]) ==
            if x == Ready then Some(true) else if x == Abnormal then Some(false) else LastNotice(log)
  {
    assert (log + [x])[..|log|] == log;
  }

  lemma NoticesOfStep(scheduler: IpAddr, a: Agent, e: Event)
    requires Inv(a)
    ensures LastNotice(Step(scheduler, a, e).log) ==
            if Notices(scheduler, a, e) then Some(e.Connected?) else LastNotice(a.log)
  {
    if Enabled(scheduler, a, e) {
      match e {
        case Announce(addr, h) => NoticeOne(a.log, Connect(addr, h));
        case Connected(addr, h) =>
          NoticeOne(a.log, RegisterClient(addr));
          NoticeOne(a.log, Register(h));
          NoticeOne(a.log + [Register(h)], Ready);
          assert a.log + [Register(h)] + [] == a.log + [Register(h)];
        case Failed(addr, h) =>
          assert a.log + [] == a.log;
          NoticeOne(a.log, HandOn(h));
          NoticeOne(a.log, Abnormal);
          NoticeOne(a.log + [Abnormal], HandOn(h));
        case Withdraw(addr) =>
          if addr in a.sessions {
            assert a.log + [] == a.log;
            NoticeOne(a.log, DisConnect(a.sessions[addr].handleID));
            NoticeOne(a.log, CancelConnect(a.sessions[addr].handleID));
          }
        case Publish(msg) =>
          var dest := Get(a.ring).0;
          if dest.Some? && dest.value in a.sessions && a.sessions[dest.value].handler.Some? {
            NoticeOne(a.log, Send(a.sessions[dest.value].handler.value, msg));
          }
      }
    }
  }

  /** While a forwarder is connected the application has been told so. */
  ghost predicate ToldWhenReady(a: Agent) {
    a.ring.slots != [] ==> LastNotice(a.log) == Some(true)
  }

  /** How the array changes between empty and not. */
  lemma StepFills(scheduler: IpAddr, a: Agent, e: Event)
    requires Inv(a)
    ensures var a' := Step(scheduler, a, e);
            && (Notices(scheduler, a, e) ==> (a'.ring.slots != [] <==> e.Connected?))
            && (!Notices(scheduler, a, e) && !WithdrawsLast(a, e) ==> (a'.ring.slots == [] <==> a.ring.slots == []))
            && (WithdrawsLast(a, e) ==> a'.ring.slots == [])
  {
  }

  lemma StepInformsIff(scheduler: IpAddr, a: Agent, e: Event)
    requires Inv(a) && ToldWhenReady(a)
    ensures var a' := Step(scheduler, a, e);
            && ToldWhenReady(a')
            && (Informed(a') <==> Notices(scheduler, a, e) || (!WithdrawsLast(a, e) && Informed(a)))
  {
    NoticesOfStep(scheduler, a, e);
    StepFills(scheduler, a, e);
  }

  /** In the run, the only connected forwarder was withdrawn, and the application has been told
      nothing since. */
  predicate Misled(scheduler: IpAddr, events: seq<Event>) {
    events != [] &&
    var a, e := Run(scheduler, Start(), events[..|events| - 1]), events[|events| - 1];
    WithdrawsLast(a, e) || (!Notices(scheduler, a, e) && Misled(scheduler, events[..|events| - 1]))
  }

  lemma {:induction false} RunLast(scheduler: IpAddr, a: Agent, events: seq<Event>, e: Event)
    ensures Run(scheduler, a, events + [e]) == Step(scheduler, Run(scheduler, a, events), e)
    decreases |events|
  {
    if events == [] {
      assert [] + [e] == [e] && [e][1..] == [];
      assert Run(scheduler, a, [e]) == Run(scheduler, Step(scheduler, a, e), []);
    } else {
      assert (events + [e])[1..] == events[1..] + [e];
      RunLast(scheduler, Step(scheduler, a, events[0]), events[1..], e);
    }
  }

  /** What the notices mean, in every run: while a forwarder is connected the last notice is `Ready`;
      and it is `Ready` only then, if and only if the only connected forwarder has not been
      withdrawn since the last notice. */
  lemma {:induction false} NoticesAreTrueIff(scheduler: IpAddr, events: seq<Event>)
    ensures var a := Run(scheduler, Start(), events);
            && (a.ring.slots != [] ==> LastNotice(a.log) == Some(true))
            && ((LastNotice(a.log) == Some(true) <==> a.ring.slots != []) <==> !Misled(scheduler, events))
  {
    if events != [] {
      var front, e := events[..|events| - 1], events[|events| - 1];
      NoticesAreTrueIff(scheduler, front);
      Safety(scheduler, front);
      RunLast(scheduler, Start(), front, e);
      assert events == front + [e];
      StepInformsIff(scheduler, Run(scheduler, Start(), front), e);
    }
  }

  // ---------------------------------------------------------------- publications are spread evenly

  function Publications(msgs: seq<seq<bv8>>): seq<Event> {
    seq(|msgs|, i requires 0 <= i < |msgs| => Publish(msgs[i]))
  }

  /** From position `start` on, the log holds each message, in order, on the connection of the
      forwarder chosen for it, and nothing else. */
  predicate Carried(sessions: map<IpAddr, Session>, chosen: seq<IpAddr>, msgs: seq<seq<bv8>>,
                    log: seq<Action>, start: nat) {
    && |chosen| == |msgs| && |log| == start + |msgs|
    && forall i :: 0 <= i < |msgs| ==>
         && chosen[i] in sessions && sessions[chosen[i]].handler.Some?
         && log[start + i] == Send(sessions[chosen[i]].handler.value, msgs[i])
  }

  lemma CarriedFirst(sessions: map<IpAddr, Session>, x: IpAddr, rest: seq<IpAddr>, msgs: seq<seq<bv8>>,
                     log: seq<Action>, before: seq<Action>)
    requires msgs != [] && x in sessions && sessions[x].handler.Some?
    requires Carried(sessions, rest, msgs[1..], log, |before| + 1)
    requires log[..|before| + 1] == before + [Send(sessions[x].handler.value, msgs[0])]
    ensures Carried(sessions, [x] + rest, msgs, log, |before|) && log[..|before|] == before
  {
    var k := |before|;
    assert log[k] == log[..k + 1][k];
    assert log[..k] == log[..k + 1][..k];
    forall i | 1 <= i < |msgs|
      ensures rest[i - 1] in sessions && sessions[rest[i - 1]].handler.Some?
      ensures log[k + i] == Send(sessions[rest[i - 1]].handler.value, msgs[i])
    {
      assert msgs[1..][i - 1] == msgs[i] && log[(k + 1) + (i - 1)] == log[k + i];
    }
  }

  lemma FirstPublication(scheduler: IpAddr, a: Agent, msgs: seq<seq<bv8>>)
    requires msgs != []
    ensures Run(scheduler, a, Publications(msgs)) == Run(scheduler, OnPublish(a, msgs[0]), Publications(msgs[1..]))
  {
    assert Publications(msgs)[1..] == Publications(msgs[1..]);
  }

  lemma {:induction false} PublicationsAreCarried(scheduler: IpAddr, a: Agent, msgs: seq<seq<bv8>>)
    requires Holds(a) && a.ring.slots != []
    ensures var a' := Run(scheduler, a, Publications(msgs));
            && a'.sessions == a.sessions && a'.ring.slots == a.ring.slots
            && Carried(a.sessions, Gets(a.ring, |msgs|), msgs, a'.log, |a.log|) && a'.log[..|a.log|] == a.log
    decreases |msgs|
  {
    if msgs != [] {
      var b := OnPublish(a, msgs[0]);
      var x := Get(a.ring).0.value;
      assert x in a.ring.slots;
      FirstPublication(scheduler, a, msgs);
      PublicationsAreCarried(scheduler, b, msgs[1..]);
      var log := Run(scheduler, b, Publications(msgs[1..])).log;
      CarriedFirst(a.sessions, x, Gets(b.ring, |msgs| - 1), msgs, log, a.log);
    }
  }

  /** A series of publications, in any reachable state with a forwarder connected: they go, in order,
      to the connections of the forwarders the array returns, and every connected forwarder gets an
      equal share of them, give or take one. */
  lemma PublicationsAreSpread(scheduler: IpAddr, a: Agent, msgs: seq<seq<bv8>>)
    requires Holds(a) && a.ring.slots != [] && |a.ring.slots| < NO_INDEX
    ensures var a' := Run(scheduler, a, Publications(msgs));
            var chosen, n := Gets(a.ring, |msgs|), |a.ring.slots|;
            && a'.sessions == a.sessions && a'.ring.slots == a.ring.slots
            && Carried(a.sessions, chosen, msgs, a'.log, |a.log|) && a'.log[..|a.log|] == a.log
            && (forall x :: x in a.ring.slots ==> |msgs| / n <= Count(chosen, x) <= |msgs| / n + 1)
  {
    PublicationsAreCarried(scheduler, a, msgs);
    forall x | x in a.ring.slots
      ensures |msgs| / |a.ring.slots| <= Count(Gets(a.ring, |msgs|), x) <= |msgs| / |a.ring.slots| + 1
    {
      GetsAreFair(a.ring, |msgs|, IndexOf(a.ring.slots, x));
    }
  }
}
