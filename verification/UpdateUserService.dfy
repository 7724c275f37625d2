/** The update-user chaincode service as it runs: session objects that are allocated, mapped, timed
    and freed.  Both services keep the same fields and differ in their reply handler only, so
    one class holds both handlers; every method is proved to compute its step of `UserSessions`. */
module UpdateUserService {
  import opened UserSessions

  class Session {
    const serial: Serial
    const sid: Sid
    const user: User
    const born: nat

    constructor (serial: Serial, sid: Sid, user: User, born: nat)
      ensures this.serial == serial && this.sid == sid && this.user == user && this.born == born
    {
      this.serial, this.sid, this.user, this.born := serial, sid, user, born;
    }

    ghost function Obj(): Obj {
      UserSessions.Obj.Obj(sid, user, born)
    }
  }

  lemma AddedThenDropped(objects: map<Serial, Obj>, n: Serial, o: Obj)
    requires n !in objects
    ensures objects[n := o] - {n} == objects
  {
  }

  class UpdateUserService {
    var mapSession: map<Sid, Session>
    var heap: map<Serial, Session>   // session objects allocated and not yet freed
    var timers: map<Serial, nat>     // the timer wheel: armed timers with the ticks they have left
    var next: nat
    var now: nat
    var trace: seq<Effect>

    ghost function Mapped(): map<Sid, Serial>
      reads this`mapSession
    {
      map sid | sid in mapSession :: mapSession[sid].serial
    }

    ghost function Objects(): map<Serial, Obj>
      reads this`heap
    {
      map n | n in heap :: heap[n].Obj()
    }

    ghost function State(): State
      reads this
    {
      UserSessions.State.State(Mapped(), Objects(), timers, next, now, trace)
    }

    /** Every mapped session is an allocated object, under its own name and number. */
    ghost predicate Linked()
      reads this`mapSession, this`heap, this`next
    {
      && (forall n :: n in heap ==> heap[n].serial == n && n.n < next)
      && (forall sid :: sid in mapSession ==>
            && mapSession[sid].sid == sid
            && mapSession[sid].serial in heap && heap[mapSession[sid].serial] == mapSession[sid])
    }

    /** And map, timers and heap hold the same sessions. */
    ghost predicate Valid()
      reads this
    {
      Linked() && Agree(State())
    }

    constructor ()
      ensures Valid() && State() == INIT
    {
      mapSession, heap, timers, next, now, trace := map[], map[], map[], 0, 0, [];
    }

    method SetDscTimer(p: Session, ticks: nat)
      modifies this`timers
      ensures timers == old(timers)[p.serial := ticks]
    {
      timers := timers[p.serial := ticks];
    }

    method CancelDscTimer(p: Session)
      modifies this`timers
      ensures timers == old(timers) - {p.serial}
    {
      timers := timers - {p.serial};
    }

    /** A session may be freed only while it is allocated, and not while its timer is armed. */
    method Deallocate(p: Session)
      requires p.serial in heap && heap[p.serial] == p && p.serial !in timers
      modifies this`heap
      ensures heap == old(heap) - {p.serial}
    {
      heap := heap - {p.serial};
    }

    /** A session object for a name that may turn out to be in use. */
    method NewSession(sid: Sid, user: User) returns (p: Session)
      requires Linked()
      modifies this`heap, this`next
      ensures Linked() && fresh(p)
      ensures p.serial == Serial(old(next)) && p.sid == sid && p.user == user && p.born == now
      ensures next == old(next) + 1 && p.serial in heap && heap[p.serial] == p && p.serial !in old(heap)
      ensures Objects() == old(Objects())[p.serial := p.Obj()]
    {
      p := new Session(Serial(next), sid, user, now);
      heap, next := heap[p.serial := p], next + 1;
    }

    /** A proposal arrives; `getCode` is what the request for the stored user returns. */
    method OnPorposal(sid: Sid, user: User, getCode: int) returns (rc: int)
      requires Valid()
      modifies this
      ensures Valid()
      ensures (State(), rc) == OnProposal(old(State()), sid, user, getCode)
    {
      StepAgrees(ObjectVariant, State(), Propose(sid, user, getCode));
      rc := Admit(sid, user, getCode);
    }

    method Admit(sid: Sid, user: User, getCode: int) returns (rc: int)
      requires Linked() && Serial(next) !in timers
      modifies this
      ensures Linked() && (State(), rc) == OnProposal(old(State()), sid, user, getCode)
    {
      var p := NewSession(sid, user);
      if sid in mapSession {
        AddedThenDropped(old(Objects()), p.serial, p.Obj());
        Refuse(p);
        rc := -1;
      } else {
        StartSession(p);
        rc := getCode;
      }
    }

    /** The object just made for a name in use is freed again; it never had a timer. */
    method Refuse(p: Session)
      requires Linked() && p.serial in heap && heap[p.serial] == p && p.serial !in timers
      requires p.sid in mapSession && mapSession[p.sid] != p
      modifies this`heap, this`trace
      ensures Linked() && Objects() == old(Objects()) - {p.serial}
      ensures trace == old(trace) + [Refused(p.serial, p.sid)]
    {
      Deallocate(p);
      trace := trace + [Refused(p.serial, p.sid)];
    }

    method StartSession(p: Session)
      requires Linked() && p.serial in heap && heap[p.serial] == p && p.sid !in mapSession
      modifies this`mapSession, this`timers, this`trace
      ensures Linked() && Mapped() == old(Mapped())[p.sid := p.serial]
      ensures timers == old(timers)[p.serial := EN_SESSION_TIMEOUT_VALUE]
      ensures trace == old(trace) + [Started(p.serial, p.sid, p.user, p.born), AskedUser(p.serial, p.sid, p.user.key)]
    {
      mapSession := mapSession[p.sid := p];
      SetDscTimer(p, EN_SESSION_TIMEOUT_VALUE);
      trace := trace + [Started(p.serial, p.sid, p.user, p.born), AskedUser(p.serial, p.sid, p.user.key)];
    }

    /** The session's timer is cancelled, its name unmapped and its object freed. */
    method CloseSession(p: Session)
      requires Linked() && p.sid in mapSession && mapSession[p.sid] == p
      modifies this`mapSession, this`heap, this`timers
      ensures Linked() && Mapped() == old(Mapped()) - {p.sid}
      ensures timers == old(timers) - {p.serial} && Objects() == old(Objects()) - {p.serial}
    {
      CancelDscTimer(p);
      EraseSession(p);
    }

    /** The name is unmapped and the object freed; no timer may be left. */
    method EraseSession(p: Session)
      requires Linked() && p.sid in mapSession && mapSession[p.sid] == p && p.serial !in timers
      modifies this`mapSession, this`heap
      ensures Linked() && Mapped() == old(Mapped()) - {p.sid} && Objects() == old(Objects()) - {p.serial}
    {
      mapSession := mapSession - {p.sid};
      Deallocate(p);
    }

    /** The stored user arrives, object variant: every reply to a live session ends it. */
    method OnGetVbhUserRsp(code: int, sid: Sid, decoded: Decoded)
      requires Valid()
      modifies this
      ensures Valid()
      ensures State() == OnReply(ObjectVariant, old(State()), sid, Reply(code, decoded))
    {
      StepAgrees(ObjectVariant, State(), Replied(sid, Reply(code, decoded)));
      Settle(code, sid, decoded);
    }

    method Settle(code: int, sid: Sid, decoded: Decoded)
      requires Linked()
      modifies this
      ensures Linked() && State() == OnReply(ObjectVariant, old(State()), sid, Reply(code, decoded))
    {
      if sid in mapSession {
        var p := mapSession[sid];
        var accepted := false;
        if code == EN_OK_TYPE {
          match decoded {
            case DecodeFails =>
            case DecodesTo(user) => accepted := p.user.key == user.key;
          }
        }
        assert accepted <==> Accepts(ObjectVariant, Reply(code, decoded), Objects()[p.serial].user);
        if accepted {
          Store(p);
          Answer(p, EN_OK_TYPE, Reply(code, decoded));
          assert trace == old(trace)
            + [StoredUser(p.serial, sid, p.user), Answered(p.serial, sid, EN_OK_TYPE, Reply(code, decoded), now)];
        } else {
          Answer(p, EN_CC_REPORT_ERROR_TYPE, Reply(code, decoded));
        }
        CloseSession(p);
      }
    }

    method Store(p: Session)
      modifies this`trace
      ensures trace == old(trace) + [StoredUser(p.serial, p.sid, p.user)]
    {
      trace := trace + [StoredUser(p.serial, p.sid, p.user)];
    }

    method Answer(p: Session, code: int, cause: Reply)
      modifies this`trace
      ensures trace == old(trace) + [Answered(p.serial, p.sid, code, cause, now)]
    {
      trace := trace + [Answered(p.serial, p.sid, code, cause, now)];
    }

    /** The stored user arrives, JSON variant: the code is not looked at, and a reply that does not
        decode or names another user is passed over in silence. */
    method OnGetVbhUserRspJson(code: int, sid: Sid, decoded: Decoded)
      requires Valid()
      modifies this
      ensures Valid()
      ensures State() == OnReply(JsonVariant, old(State()), sid, Reply(code, decoded))
    {
      StepAgrees(JsonVariant, State(), Replied(sid, Reply(code, decoded)));
      AcceptJson(code, sid, decoded);
    }

    method AcceptJson(code: int, sid: Sid, decoded: Decoded)
      requires Linked()
      modifies this
      ensures Linked() && State() == OnReply(JsonVariant, old(State()), sid, Reply(code, decoded))
    {
      if decoded == DecodeFails {
        return;
      }
      if sid in mapSession {
        var p := mapSession[sid];
        if p.user.key == decoded.user.key {
          Store(p);
          CloseSession(p);
          Answer(p, EN_OK_TYPE, Reply(code, decoded));
          assert trace == old(trace)
            + [StoredUser(p.serial, sid, p.user), Answered(p.serial, sid, EN_OK_TYPE, Reply(code, decoded), now)];
        }
      }
    }

    /** The wheel fires a due timer.  It leaves the wheel first; that the session it was set for is
        still there is not asked of the wheel but follows from what every handler keeps. */
    method OnTimer(n: Serial)
      requires Valid() && n in timers && timers[n] == 0
      modifies this
      ensures Valid()
      ensures State() == UserSessions.OnTimer(old(State()), n)
    {
      StepAgrees(ObjectVariant, State(), Expire(n));
      TimerFindsItsSession(State(), n);
      var p := heap[n];
      timers := timers - {n};
      OnTimeOut(p);
    }

    /** The session's time is up. */
    method OnTimeOut(p: Session)
      requires Linked() && p.sid in mapSession && mapSession[p.sid] == p && p.serial !in timers
      modifies this`mapSession, this`heap, this`trace
      ensures Linked() && Mapped() == old(Mapped()) - {p.sid} && Objects() == old(Objects()) - {p.serial}
      ensures trace == old(trace) + [TimedOut(p.serial, p.sid, now)]
    {
      EraseSession(p);
      trace := trace + [TimedOut(p.serial, p.sid, now)];
    }

    /** The wheel turns by one tick. */
    method OnTick()
      requires Valid() && Enabled(State(), Tick)
      modifies this`now, this`timers
      ensures Valid()
      ensures State() == UserSessions.OnTick(old(State()))
    {
      StepAgrees(ObjectVariant, State(), Tick);
      Turn();
    }

    method Turn()
      modifies this`now, this`timers
      ensures State() == UserSessions.OnTick(old(State()))
    {
      timers := map n | n in timers :: if timers[n] > 0 then timers[n] - 1 else 0;
      now := now + 1;
    }
  }

  /** One event; the wheel does not do what it is not ready for. */
  method DriveOne(s: UpdateUserService, v: Variant, e: Event)
    requires s.Valid()
    modifies s
    ensures s.Valid() && s.State() == Step(v, old(s.State()), e)
  {
    match e {
      case Propose(sid, user, getCode) =>
        var _ := s.OnPorposal(sid, user, getCode);
      case Replied(sid, reply) =>
        if v == ObjectVariant {
          s.OnGetVbhUserRsp(reply.code, sid, reply.decoded);
        } else {
          s.OnGetVbhUserRspJson(reply.code, sid, reply.decoded);
        }
      case Tick =>
        if forall n :: n in s.timers ==> s.timers[n] > 0 {
          s.OnTick();
        }
      case Expire(n) =>
        if n in s.timers && s.timers[n] == 0 {
          s.OnTimer(n);
        }
    }
  }

  /** Any run of events through the service is the run of the machine, so what is proved of every
      run is true of the service. */
  method Drive(s: UpdateUserService, v: Variant, events: seq<Event>)
    requires s.Valid()
    modifies s
    ensures s.Valid() && s.State() == Run(v, old(s.State()), events)
    decreases |events|
  {
    if events != [] {
      DriveOne(s, v, events[0]);
      Drive(s, v, events[1..]);
    }
  }

  /** A service from its start, through any run: map, wheel and heap hold the same sessions. */
  method Serve(v: Variant, events: seq<Event>) returns (s: UpdateUserService)
    ensures fresh(s) && s.Valid() && s.State() == Run(v, INIT, events)
    ensures s.timers.Keys == s.heap.Keys && forall e :: e in s.trace ==> !e.Dangling?
  {
    s := new UpdateUserService();
    Drive(s, v, events);
    SessionsAgree(v, events);
    NothingDangles(v, events);
    assert s.State().heap.Keys == s.heap.Keys;
  }
}
