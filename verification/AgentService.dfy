/** The agent that spreads publications over the connected forwarders, as it runs: sessions that are
    allocated, tabled, put into the type array and freed.  Every handler is proved to compute its step
    of `AgentRuns`. */
module AgentService {
  import opened AgentRuns
  import opened Cyclic
  import opened Maps
  import opened TypeArraySpec
  import opened TypeArray
  import opened Wrappers

  // ---------------------------------------------------------------- the array by address

  predicate NoNull(slots: seq<ForwarderSession?>) {
    forall i :: 0 <= i < |slots| ==> slots[i] != null
  }

  function AddrsOf(slots: seq<ForwarderSession?>): seq<IpAddr>
    requires NoNull(slots)
  {
    seq(|slots|, i requires 0 <= i < |slots| => slots[i].addr)
  }

  /** The array with each session known by its address. */
  function ByAddr(a: Arr<ForwarderSession?>): Arr<IpAddr>
    requires NoNull(a.slots)
  {
    Arr(AddrsOf(a.slots), a.cursor, a.alloc, a.peak, a.grows, a.copied)
  }

  /** No two sessions of the array, and no other than `p`, have one address. */
  ghost predicate Addressed(slots: seq<ForwarderSession?>, p: ForwarderSession) {
    && NoNull(slots)
    && (forall i :: 0 <= i < |slots| ==> (slots[i].addr == p.addr ==> slots[i] == p))
    && (forall i, j :: 0 <= i < j < |slots| ==> slots[i].addr != slots[j].addr)
  }

  lemma InByAddr(slots: seq<ForwarderSession?>, p: ForwarderSession)
    requires Addressed(slots, p)
    ensures p.addr in AddrsOf(slots) <==> p in slots
    ensures p in slots ==> IndexOf(AddrsOf(slots), p.addr) == IndexOf(slots, p)
  {
    if p in slots {
      var i := IndexOf(slots, p);
      assert AddrsOf(slots)[i] == p.addr;
      DistinctIndex(AddrsOf(slots), i);
    }
  }

  lemma InsertByAddr(a: Arr<ForwarderSession?>, p: ForwarderSession)
    requires Addressed(a.slots, p)
    ensures NoNull(TypeArraySpec.Insert(a, p).slots)
    ensures ByAddr(TypeArraySpec.Insert(a, p)) == TypeArraySpec.Insert(ByAddr(a), p.addr)
  {
    InByAddr(a.slots, p);
    if p !in a.slots {
      assert AddrsOf(a.slots + [p]) == AddrsOf(a.slots) + [p.addr];
    }
  }

  lemma DeleteByAddr(a: Arr<ForwarderSession?>, p: ForwarderSession)
    requires Addressed(a.slots, p)
    ensures NoNull(TypeArraySpec.Delete(a, p).1.slots)
    ensures ByAddr(TypeArraySpec.Delete(a, p).1) == TypeArraySpec.Delete(ByAddr(a), p.addr).1
  {
    InByAddr(a.slots, p);
    if p in a.slots {
      var i := IndexOf(a.slots, p);
      var r := Without(a.slots, i);
      assert AddrsOf(r) == Without(AddrsOf(a.slots), i);
    }
  }

  lemma GetByAddr(a: Arr<ForwarderSession?>)
    requires NoNull(a.slots)
    ensures var (p, b) := TypeArraySpec.Get(a);
            && b.slots == a.slots && (p.Some? ==> p.value in a.slots)
            && TypeArraySpec.Get(ByAddr(a)) == (if p.Some? then Some(p.value.addr) else None, ByAddr(b))
  {
  }

  // ---------------------------------------------------------------- the agent

  class AgentService {
    const scheduler: IpAddr
    var sessions: map<IpAddr, ForwarderSession>
    const forwarders: TypeArray
    var log: seq<Action>
    ghost var live: set<ForwarderSession>   // sessions allocated and not yet freed

    /** Everything the agent may write to. */
    ghost function Repr(): set<object>
      reads this`sessions, forwarders
    {
      {this, forwarders, forwarders.ppArray, forwarders.allocator} + forwarders.known + sessions.Values
    }

    ghost function Table(): map<IpAddr, Session>
      reads this`sessions, sessions.Values
    {
      map a | a in sessions :: Session(sessions[a].handler, sessions[a].handleID)
    }

    ghost function Ring(): Arr<IpAddr>
      requires forwarders.Valid()
      reads forwarders, forwarders.ppArray, forwarders.known, forwarders.allocator
    {
      ByAddr(forwarders.State())
    }

    ghost function State(): Agent
      requires forwarders.Valid()
      reads this, sessions.Values, forwarders, forwarders.ppArray, forwarders.known, forwarders.allocator
    {
      Agent(Table(), Ring(), log)
    }

    /** Each address has a session of its own, the sessions that are alive are those in the table,
        and the array holds exactly the sessions that have a connection. */
    ghost predicate Valid()
      reads this`sessions, this`live, sessions.Values
      reads forwarders, forwarders.ppArray, forwarders.known, forwarders.allocator
    {
      && forwarders.Valid()
      && live == sessions.Values
      && (forall a :: a in sessions ==>
            && sessions[a].addr == a
            && forwarders.Mine(sessions[a])
            && (sessions[a] in forwarders.State().slots <==> sessions[a].handler.Some?))
      && (forall s :: s in forwarders.State().slots ==> s.addr in sessions && sessions[s.addr] == s)
    }

    /** A session with the address of one in the table is that one. */
    lemma IsAddressed(p: ForwarderSession)
      requires Valid() && (p.addr in sessions ==> sessions[p.addr] == p)
      ensures Addressed(forwarders.State().slots, p)
    {
    }

    constructor (scheduler: IpAddr, allocator: SizedAllocator)
      modifies allocator
      ensures Valid() && fresh(Repr() - {allocator})
      ensures this.scheduler == scheduler && State() == Start()
    {
      var a := new TypeArray(allocator);
      this.scheduler := scheduler;
      sessions, forwarders, log, live := map[], a, [], {};
    }

    /** A session for an address that has none. */
    method NewSession(addr: IpAddr) returns (s: ForwarderSession)
      requires Valid() && addr !in sessions
      modifies this`sessions, this`live
      ensures Valid() && fresh(s) && s.addr == addr && s.handler == None && s.handleID == NO_HANDLE
      ensures sessions == old(sessions)[addr := s]
      ensures Table() == old(Table())[addr := Session(None, NO_HANDLE)]
      ensures Ring() == old(Ring()) && Repr() == old(Repr()) + {s}
    {
      s := new ForwarderSession(addr);
      ValuesWith(sessions, addr, s);
      sessions, live := sessions[addr := s], live + {s};
    }

    /** A forwarder is announced: an unknown one gets a session and is connected to, under the
        handle `handle`. */
    method AddMqForwarderAddr(addr: IpAddr, handle: Handle)
      requires Valid()
      modifies this`sessions, this`live, this`log
      ensures Valid() && fresh(Repr() - old(Repr()))
      ensures State() == OnAnnounce(old(State()), addr, handle)
    {
      if addr !in sessions {
        var _ := NewSession(addr);
        log := log + [Connect(addr, handle)];
      }
    }

    /** The session has a connection and is in the array. */
    method Attach(s: ForwarderSession, handle: Handle)
      requires Valid() && s.addr in sessions && sessions[s.addr] == s
      requires s.handler.Some? || forwarders.curNum + 1 < SIZE_LIMIT
      modifies s, forwarders, forwarders.ppArray, forwarders.allocator
      ensures Valid() && Repr() <= old(Repr()) + {forwarders.ppArray}
      ensures forwarders.ppArray == old(forwarders.ppArray) || fresh(forwarders.ppArray)
      ensures Table() == old(Table())[s.addr := Session(Some(handle), handle)]
      ensures Ring() == TypeArraySpec.Insert(old(Ring()), s.addr)
    {
      IsAddressed(s);
      InsertByAddr(forwarders.State(), s);
      PutIn(s, handle);
    }

    method PutIn(s: ForwarderSession, handle: Handle)
      requires Valid() && s.addr in sessions && sessions[s.addr] == s
      requires s.handler.Some? || forwarders.curNum + 1 < SIZE_LIMIT
      modifies s, forwarders, forwarders.ppArray, forwarders.allocator
      ensures Valid() && s.handler == Some(handle) && s.handleID == handle
      ensures forwarders.State() == TypeArraySpec.Insert(old(forwarders.State()), s)
      ensures forwarders.known == old(forwarders.known) + {s}
      ensures forwarders.ppArray == old(forwarders.ppArray) || fresh(forwarders.ppArray)
    {
      s.handler, s.handleID := Some(handle), handle;
      forwarders.Insert(s);
    }

    /** The session has no connection and is not in the array. */
    method Detach(s: ForwarderSession)
      requires Valid() && s.addr in sessions && sessions[s.addr] == s
      modifies s`handler, s`index, forwarders`curNum, forwarders`index, forwarders.ppArray, forwarders.known`index
      ensures Valid() && Repr() == old(Repr()) && s.handler == None && s.handleID == old(s.handleID)
      ensures Table() == old(Table())[s.addr := Session(None, s.handleID)]
      ensures Ring() == TypeArraySpec.Delete(old(Ring()), s.addr).1
    {
      Leave(s);
    }

    method Leave(s: ForwarderSession)
      requires Valid() && s.addr in sessions && sessions[s.addr] == s
      modifies s`handler, s`index, forwarders`curNum, forwarders`index, forwarders.ppArray, forwarders.known`index
      ensures Valid() && s.handler == None
      ensures Ring() == TypeArraySpec.Delete(old(Ring()), s.addr).1
    {
      IsAddressed(s);
      DeleteByAddr(forwarders.State(), s);
      TakeOut(s);
    }

    method TakeOut(s: ForwarderSession)
      requires Valid() && s.addr in sessions && sessions[s.addr] == s
      modifies s`handler, s`index, forwarders`curNum, forwarders`index, forwarders.ppArray, forwarders.known`index
      ensures Valid() && s.handler == None
      ensures forwarders.State() == TypeArraySpec.Delete(old(forwarders.State()), s).1
    {
      s.handler := None;
      var _ := forwarders.Delete(s);
    }

    /** Asks something of the transport or tells the application. */
    method Do(xs: seq<Action>)
      requires Valid()
      modifies this`log
      ensures Valid() && Repr() == old(Repr()) && log == old(log) + xs
      ensures Table() == old(Table()) && Ring() == old(Ring())
    {
      log := log + xs;
    }

    /** A connection is up.  A forwarder without session, which a debugging build refuses with an
        assertion, gets one. */
    method OnConnected(addr: IpAddr, handle: Handle)
      requires Valid()
      requires addr == scheduler || addr in Ring().slots || forwarders.curNum + 1 < SIZE_LIMIT
      modifies Repr()
      ensures Valid() && fresh(Repr() - old(Repr()))
      ensures State() == AgentRuns.OnConnected(scheduler, old(State()), addr, handle)
    {
      if addr == scheduler {
        Do([RegisterClient(addr)]);
      } else {
        OnForwarderConnected(addr, handle);
        Greet(handle);
      }
    }

    /** The topics are registered over the new connection, and the application is told when it is the
        only one. */
    method Greet(handle: Handle)
      requires Valid()
      modifies this`log
      ensures Valid() && Repr() == old(Repr()) && Table() == old(Table()) && Ring() == old(Ring())
      ensures log == old(log) + [Register(handle)] + (if |Ring().slots| == 1 then [Ready] else [])
    {
      var n := forwarders.Size();
      Do([Register(handle)] + (if n == 1 then [Ready] else []));
    }

    method OnForwarderConnected(addr: IpAddr, handle: Handle)
      requires Valid()
      requires addr in Ring().slots || forwarders.curNum + 1 < SIZE_LIMIT
      modifies this`sessions, this`live, Repr() - {this}
      ensures Valid() && fresh(Repr() - old(Repr()))
      ensures Table() == old(Table())[addr := Session(Some(handle), handle)]
      ensures Ring() == TypeArraySpec.Insert(old(Ring()), addr)
    {
      if addr in sessions {
        IsAddressed(sessions[addr]);
        InByAddr(forwarders.State().slots, sessions[addr]);
        Attach(sessions[addr], handle);
      } else {
        NotHeld(addr);
        AttachNew(addr, handle);
      }
    }

    method AttachNew(addr: IpAddr, handle: Handle)
      requires Valid() && addr !in sessions && forwarders.curNum + 1 < SIZE_LIMIT
      modifies this`sessions, this`live, forwarders, forwarders.ppArray, forwarders.allocator
      ensures Valid() && fresh(Repr() - old(Repr()))
      ensures Table() == old(Table())[addr := Session(Some(handle), handle)]
      ensures Ring() == TypeArraySpec.Insert(old(Ring()), addr)
    {
      PutTwice(Table(), addr, Session(None, NO_HANDLE), Session(Some(handle), handle));
      var s := NewSession(addr);
      Attach(s, handle);
      assert Repr() <= old(Repr()) + {s, forwarders.ppArray};
    }

    lemma NotHeld(addr: IpAddr)
      requires Valid() && addr !in sessions
      ensures addr !in Ring().slots
    {
      var slots := forwarders.State().slots;
      forall i | 0 <= i < |slots|
        ensures AddrsOf(slots)[i] != addr
      {
        assert slots[i] in slots;
      }
    }

    /** A connection fails: its session stays, with its last handle, but takes no more messages. */
    method OnNetworkError(addr: IpAddr, handle: Handle)
      requires Valid()
      modifies Repr()
      ensures Valid() && fresh(Repr() - old(Repr()))
      ensures State() == OnFailed(old(State()), addr, handle)
    {
      if addr in sessions {
        Lose(sessions[addr]);
      }
      Do([HandOn(handle)]);
    }

    /** The application is told when no connection is left. */
    method Lose(s: ForwarderSession)
      requires Valid() && s.addr in sessions && sessions[s.addr] == s
      modifies this`log, s, forwarders, forwarders.ppArray, forwarders.known`index
      ensures Valid() && Repr() == old(Repr())
      ensures Table() == old(Table())[s.addr := Session(None, old(s.handleID))]
      ensures Ring() == TypeArraySpec.Delete(old(Ring()), s.addr).1
      ensures log == old(log) + (if Ring().slots == [] then [Abnormal] else [])
    {
      Detach(s);
      Alarm();
    }

    method Alarm()
      requires Valid()
      modifies this`log
      ensures Valid() && Repr() == old(Repr()) && Table() == old(Table()) && Ring() == old(Ring())
      ensures log == old(log) + (if Ring().slots == [] then [Abnormal] else [])
    {
      var isEmpty := forwarders.IsEmpty();
      Do(if isEmpty then [Abnormal] else []);
    }

    /** A forwarder is withdrawn: its connection is closed, or the attempt to connect again is
        cancelled, and its session is freed. */
    method OnDelForwarder(addr: IpAddr)
      requires Valid()
      modifies Repr()
      ensures Valid() && fresh(Repr() - old(Repr()))
      ensures State() == OnWithdraw(old(State()), addr)
      ensures live == if addr in old(sessions) then old(live) - {old(sessions[addr])} else old(live)
    {
      if addr in sessions {
        var s := sessions[addr];
        PutThenDropped(Table(), addr, Session(None, s.handleID));
        Do(if s.handler.Some? then [DisConnect(s.handler.value)]
           else if s.handleID != NO_HANDLE then [CancelConnect(s.handleID)] else []);
        Remove(s);
      }
    }

    /** Takes a session out of array and table and frees it. */
    method Remove(s: ForwarderSession)
      requires Valid() && s.addr in sessions && sessions[s.addr] == s
      modifies this`sessions, this`live, s, forwarders, forwarders.ppArray, forwarders.known`index
      ensures Valid() && Repr() <= old(Repr()) && live == old(live) - {s}
      ensures Table() == old(Table())[s.addr := Session(None, old(s.handleID))] - {s.addr}
      ensures Ring() == TypeArraySpec.Delete(old(Ring()), s.addr).1
    {
      Detach(s);
      Free(s);
    }

    /** Takes a session that is not in the array out of the table and frees it. */
    method Free(s: ForwarderSession)
      requires Valid() && s.addr in sessions && sessions[s.addr] == s && s.handler == None
      modifies this`sessions, this`live
      ensures Valid() && Repr() <= old(Repr()) && live == old(live) - {s}
      ensures Table() == old(Table()) - {s.addr} && Ring() == old(Ring())
    {
      ValuesWithout(sessions, s.addr);
      sessions, live := sessions - {s.addr}, live - {s};
    }

    /** A publication goes to the forwarder whose turn it is, which is connected; with none
        connected it is dropped. */
    method SendDscMsg(msg: seq<bv8>)
      requires Valid()
      modifies this`log, forwarders`index
      ensures Valid() && Repr() == old(Repr()) && Table() == old(Table())
      ensures State() == OnPublish(old(State()), msg)
      ensures Ring().slots != [] ==>
                var x := TypeArraySpec.Get(old(Ring())).0.value;
                x in sessions && sessions[x].handler.Some? && log == old(log) + [Send(sessions[x].handler.value, msg)]
    {
      GetByAddr(forwarders.State());
      var s := forwarders.Get();
      if s != null {
        assert s in forwarders.State().slots;
        log := log + [Send(s.handler.value, msg)];
      }
    }

    lemma HoldsNow()
      requires Valid()
      ensures Holds(State()) && |Ring().slots| < NO_INDEX
    {
      var slots := forwarders.State().slots;
      forall i, j | 0 <= i < j < |slots|
        ensures AddrsOf(slots)[i] != AddrsOf(slots)[j]
      {
        assert slots[i] in slots && slots[j] in slots;
      }
      forall x
        ensures x in AddrsOf(slots) <==> x in Table() && Table()[x].handler.Some?
      {
        if x in AddrsOf(slots) {
          var i :| 0 <= i < |slots| && AddrsOf(slots)[i] == x;
          assert slots[i] in slots;
        }
        if x in sessions && sessions[x].handler.Some? {
          var i := IndexOf(slots, sessions[x]);
          assert AddrsOf(slots)[i] == x;
        }
      }
    }

    /** A series of publications with no forwarder coming or going: with some connected, each message
        goes to the connection of the forwarder the array returns for it, and every forwarder gets an
        equal share, give or take one. */
    method SendAll(msgs: seq<seq<bv8>>)
      requires Valid()
      modifies this`log, forwarders`index
      ensures Valid() && Repr() == old(Repr())
      ensures State() == AgentRuns.Run(scheduler, old(State()), Publications(msgs))
      ensures old(Ring()).slots != [] ==>
                var chosen, n := Gets(old(Ring()), |msgs|), |old(Ring()).slots|;
                && Carried(Table(), chosen, msgs, log, |old(log)|) && log[..|old(log)|] == old(log)
                && (forall x :: x in Ring().slots ==> |msgs| / n <= Count(chosen, x) <= |msgs| / n + 1)
    {
      HoldsNow();
      ghost var before := State();
      if before.ring.slots != [] {
        PublicationsAreSpread(scheduler, before, msgs);
      }
      SendEach(msgs);
    }

    method SendEach(msgs: seq<seq<bv8>>)
      requires Valid()
      modifies this`log, forwarders`index
      ensures Valid() && Repr() == old(Repr())
      ensures State() == AgentRuns.Run(scheduler, old(State()), Publications(msgs))
      decreases |msgs|
    {
      if msgs != [] {
        FirstPublication(scheduler, State(), msgs);
        SendDscMsg(msgs[0]);
        SendEach(msgs[1..]);
      }
    }
  }

  /** One event; the transport does not report what cannot be. */
  method DriveOne(a: AgentService, e: Event)
    requires a.Valid() && AgentRuns.Fits(a.scheduler, a.State(), e)
    modifies a.Repr()
    ensures a.Valid() && fresh(a.Repr() - old(a.Repr()))
    ensures a.State() == Step(a.scheduler, old(a.State()), e)
  {
    if Reported(a.scheduler, Open(a.log), e) {
      match e {
        case Announce(addr, h) => a.AddMqForwarderAddr(addr, h);
        case Connected(addr, h) => a.OnConnected(addr, h);
        case Failed(addr, h) => a.OnNetworkError(addr, h);
        case Withdraw(addr) => a.OnDelForwarder(addr);
        case Publish(msg) => a.SendDscMsg(msg);
      }
    }
  }

  /** Any run of events through the agent is the run of the machine, so what is proved of every run
      is true of the agent. */
  method Drive(a: AgentService, events: seq<Event>)
    requires a.Valid() && RunFits(a.scheduler, a.State(), events)
    modifies a.Repr()
    ensures a.Valid() && fresh(a.Repr() - old(a.Repr()))
    ensures a.State() == AgentRuns.Run(a.scheduler, old(a.State()), events)
    decreases |events|
  {
    if events != [] {
      RunFirst(a.scheduler, a.State(), events);
      DriveOne(a, events[0]);
      Drive(a, events[1..]);
    }
  }

  lemma RunFirst(scheduler: IpAddr, a: Agent, events: seq<Event>)
    requires events != []
    ensures AgentRuns.Run(scheduler, a, events) == AgentRuns.Run(scheduler, Step(scheduler, a, events[0]), events[1..])
  {
  }

  /** An agent from its start, through any run: what the run leaves in it and in its log. */
  method Serve(scheduler: IpAddr, allocator: SizedAllocator, events: seq<Event>) returns (a: AgentService)
    requires RunFits(scheduler, Start(), events)
    modifies allocator
    ensures fresh(a) && a.Valid() && a.State() == AgentRuns.Run(scheduler, Start(), events)
    ensures a.Ring().slots != [] ==> LastNotice(a.log) == Some(true)
    ensures (LastNotice(a.log) == Some(true) <==> a.Ring().slots != []) <==> !Misled(scheduler, events)
  {
    a := new AgentService(scheduler, allocator);
    Drive(a, events);
    NoticesAreTrueIff(scheduler, events);
  }
}
