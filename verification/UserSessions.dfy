/** The sessions of the two chaincodes that update a user: one is opened by a proposal, closed by
    the reply that carries the stored user or by its timer.  State, steps and the life of every
    session over every run; `UpdateUserService.dfy` holds the service itself.

    Two variants differ in what a reply does: the object variant closes the session on every
    reply, the JSON variant only on one it accepts. */
module UserSessions {

  /** The number a proposal names its session by (32 bits in the service). */
  datatype Sid = Sid(n: nat)

  /** The number of an allocation: no two sessions, alive or freed, share one. */
  datatype Serial = Serial(n: nat)

  datatype UserInfo = UserInfo(age: nat, phoneNumber: nat, userName: string, address: string)

  datatype User = User(key: nat, info: UserInfo)

  /** What a reply decodes to. */
  datatype Decoded = DecodeFails | DecodesTo(user: User)

  datatype Reply = Reply(code: int, decoded: Decoded)

  datatype Variant = ObjectVariant | JsonVariant

  const EN_OK_TYPE := 0
  const EN_CC_REPORT_ERROR_TYPE := -19
  const EN_SESSION_TIMEOUT_VALUE: nat := 60

  /** A session object: its name, the proposed user and the tick it was made at. */
  datatype Obj = Obj(sid: Sid, user: User, born: nat)

  /** What a session does, as seen from outside, stamped with the tick.  `AskedUser` and
      `StoredUser` are requests; the handlers do not look at what the request to store returns. */
  datatype Effect =
    | Started(serial: Serial, sid: Sid, user: User, at: nat)
    | Refused(serial: Serial, sid: Sid)
    | AskedUser(serial: Serial, sid: Sid, key: nat)
    | StoredUser(serial: Serial, sid: Sid, user: User)
    | Answered(serial: Serial, sid: Sid, code: int, cause: Reply, at: nat)
    | TimedOut(serial: Serial, sid: Sid, at: nat)
    | Dangling(serial: Serial)   // a session was used after it had been freed

  /** `sessions` is the map of live session names, `heap` the allocated objects, `timers` the armed
      timers of the timer wheel with the ticks they have left, `next` the next allocation number,
      `now` the tick count, `trace` everything done so far.  The wheel holds on to a session by
      itself: nothing but cancelling or firing takes a timer off it. */
  datatype State = State(
    sessions: map<Sid, Serial>,
    heap: map<Serial, Obj>,
    timers: map<Serial, nat>,
    next: nat,
    now: nat,
    trace: seq<Effect>)

  datatype Event =
    | Propose(sid: Sid, user: User, getCode: int)   // `getCode` is what asking for the user returns
    | Replied(sid: Sid, reply: Reply)
    | Tick
    | Expire(n: Serial)

  const INIT := State(map[], map[], map[], 0, 0, [])

  // ---------------------------------------------------------------- steps

  function Log(st: State, es: seq<Effect>): State {
    st.(trace := st.trace + es)
  }

  /** A proposal: refused when its session name is in use, otherwise the session is mapped, its
      timer armed and the stored user asked for. */
  function OnProposal(st: State, sid: Sid, user: User, getCode: int): (State, int) {
    var n := Serial(st.next);
    if sid in st.sessions then (Log(st.(next := st.next + 1), [Refused(n, sid)]), -1)
    else
      (Log(State(st.sessions[sid := n], st.heap[n := Obj(sid, user, st.now)],
                 st.timers[n := EN_SESSION_TIMEOUT_VALUE], st.next + 1, st.now, st.trace),
           [Started(n, sid, user, st.now), AskedUser(n, sid, user.key)]),
       getCode)
  }

  /** The timer is cancelled, the name unmapped and the object freed. */
  function Close(st: State, sid: Sid): State
    requires sid in st.sessions
  {
    var n := st.sessions[sid];
    st.(timers := st.timers - {n}, sessions := st.sessions - {sid}, heap := st.heap - {n})
  }

  /** The reply names the user the session is about. */
  predicate SameUser(reply: Reply, user: User) {
    reply.decoded.DecodesTo? && reply.decoded.user.key == user.key
  }

  /** The replies a variant answers with success; the JSON variant does not look at the code. */
  predicate Accepts(v: Variant, reply: Reply, user: User) {
    (v == ObjectVariant ==> reply.code == EN_OK_TYPE) && SameUser(reply, user)
  }

  function OnReply(v: Variant, st: State, sid: Sid, reply: Reply): State {
    if sid !in st.sessions then st
    else if st.sessions[sid] !in st.heap then Log(st, [Dangling(st.sessions[sid])])
    else
      var n := st.sessions[sid];
      var user := st.heap[n].user;
      if Accepts(v, reply, user) then
        Log(Close(st, sid), [StoredUser(n, sid, user), Answered(n, sid, EN_OK_TYPE, reply, st.now)])
      else if v == ObjectVariant then
        Log(Close(st, sid), [Answered(n, sid, EN_CC_REPORT_ERROR_TYPE, reply, st.now)])
      else st
  }

  /** A timer fires: it leaves the wheel, and the session it was set for is unmapped and freed. */
  function OnTimer(st: State, n: Serial): State {
    var off := st.(timers := st.timers - {n});
    if n !in st.heap then Log(off, [Dangling(n)])
    else
      var sid := st.heap[n].sid;
      Log(off.(sessions := st.sessions - {sid}, heap := st.heap - {n}), [TimedOut(n, sid, st.now)])
  }

  /** The wheel turns by one tick. */
  function OnTick(st: State): State {
    st.(now := st.now + 1,
        timers := map n | n in st.timers :: if st.timers[n] > 0 then st.timers[n] - 1 else 0)
  }

  /** The timer wheel moves on only when no timer is due, and fires only timers that are; it knows
      nothing of the session map or of what is allocated. */
  predicate Enabled(st: State, e: Event) {
    match e
    case Propose(_, _, _) => true
    case Replied(_, _) => true
    case Tick => forall n :: n in st.timers ==> st.timers[n] > 0
    case Expire(n) => n in st.timers && st.timers[n] == 0
  }

  function Step(v: Variant, st: State, e: Event): State {
    if !Enabled(st, e) then st
    else
      match e
      case Propose(sid, user, getCode) => OnProposal(st, sid, user, getCode).0
      case Replied(sid, reply) => OnReply(v, st, sid, reply)
      case Tick => OnTick(st)
      case Expire(n) => OnTimer(st, n)
  }

  function Run(v: Variant, st: State, events: seq<Event>): State
    decreases |events|
  {
    if events == [] then st else Run(v, Step(v, st, events[0]), events[1..])
  }

  // ---------------------------------------------------------------- agreement of map, timers and heap

  /** The mapped sessions, the armed timers and the allocated objects are the same sessions; no
      timer has more left, or a session been alive longer, than the time limit allows. */
  ghost predicate Agree(st: State) {
    && (forall sid :: sid in st.sessions ==>
          st.sessions[sid] in st.heap && st.heap[st.sessions[sid]].sid == sid)
    && (forall n :: n in st.heap ==>
          && st.heap[n].sid in st.sessions && st.sessions[st.heap[n].sid] == n
          && n.n < st.next
          && n in st.timers
          && st.heap[n].born <= st.now
          && st.timers[n] + (st.now - st.heap[n].born) == EN_SESSION_TIMEOUT_VALUE)
    && (forall n :: n in st.timers ==> n in st.heap)
  }

  lemma ProposalAgrees(st: State, sid: Sid, user: User, getCode: int)
    requires Agree(st)
    ensures Agree(OnProposal(st, sid, user, getCode).0)
  {
  }

  lemma CloseAgrees(st: State, sid: Sid)
    requires Agree(st) && sid in st.sessions
    ensures Agree(Close(st, sid))
  {
  }

  lemma TimerAgrees(st: State, n: Serial)
    requires Agree(st) && Enabled(st, Expire(n))
    ensures Agree(OnTimer(st, n))
  {
    TimerFindsItsSession(st, n);
    CloseAgrees(st, st.heap[n].sid);
  }

  lemma TickAgrees(st: State)
    requires Agree(st) && Enabled(st, Tick)
    ensures Agree(OnTick(st))
  {
  }

  lemma StepAgrees(v: Variant, st: State, e: Event)
    requires Agree(st)
    ensures Agree(Step(v, st, e))
  {
    if Enabled(st, e) {
      match e {
        case Propose(sid, user, getCode) => ProposalAgrees(st, sid, user, getCode);
        case Replied(sid, reply) =>
          if sid in st.sessions {
            CloseAgrees(st, sid);
          }
        case Tick => TickAgrees(st);
        case Expire(n) => TimerAgrees(st, n);
      }
    }
  }

  /** A timer that fires finds its session allocated, and mapped under its name. */
  lemma TimerFindsItsSession(st: State, n: Serial)
    requires Agree(st) && Enabled(st, Expire(n))
    ensures n in st.heap && st.heap[n].sid in st.sessions && st.sessions[st.heap[n].sid] == n
  {
  }

  // ---------------------------------------------------------------- the life of a session

  /** Everything session `n` did, in order. */
  function Life(trace: seq<Effect>, n: Serial): seq<Effect> {
    if trace == [] then []
    else
      var last := trace[|trace| - 1];
      Life(trace[..|trace| - 1], n) + (if last.serial == n then [last] else [])
  }

  /** A session that is open has started and asked for its user, and done nothing else. */
  ghost predicate Open(life: seq<Effect>, n: Serial, obj: Obj) {
    life == [Started(n, obj.sid, obj.user, obj.born), AskedUser(n, obj.sid, obj.user.key)]
  }

  /** A session that is over was refused at once, timed out after the full time, was answered with
      success after storing the proposed user, for a reply that decodes to a user with the same key,
      or (object variant) was answered with an error for a reply that reports one, does not decode or
      names another key. */
  ghost predicate Over(v: Variant, life: seq<Effect>, n: Serial) {
    || (|life| == 1 && life[0].Refused?)
    || (|life| >= 3 && life[0].Started? &&
        var sid, user, born := life[0].sid, life[0].user, life[0].at;
        && life[1] == AskedUser(n, sid, user.key)
        && (|| (|life| == 3 && life[2] == TimedOut(n, sid, born + 60))
            || (|life| == 3 && v == ObjectVariant && life[2].Answered? && life[2].sid == sid
                && life[2].at <= born + 60 && life[2].code == -19
                && var cause := life[2].cause;
                   cause.code != 0 || cause.decoded.DecodeFails? || cause.decoded.user.key != user.key)
            || (|life| == 4 && life[2] == StoredUser(n, sid, user) && life[3].Answered? && life[3].sid == sid
                && life[3].at <= born + 60 && life[3].code == 0
                && var cause := life[3].cause;
                   && (v == ObjectVariant ==> cause.code == 0)
                   && cause.decoded.DecodesTo? && cause.decoded.user.key == user.key)))
  }

  ghost predicate LifeOk(v: Variant, st: State, n: Serial) {
    var life := Life(st.trace, n);
    if n in st.heap then Open(life, n, st.heap[n])
    else if n.n < st.next then Over(v, life, n)
    else life == []
  }

  ghost predicate Inv(v: Variant, st: State) {
    Agree(st) && forall n :: LifeOk(v, st, n)
  }

  lemma {:induction false} LifeAppend(x: seq<Effect>, y: seq<Effect>, n: Serial)
    ensures Life(x + y, n) == Life(x, n) + Life(y, n)
    decreases |y|
  {
    if y == [] {
      assert x + y == x;
    } else {
      var k := |y| - 1;
      LifeAppend(x, y[..k], n);
      assert (x + y)[..|x + y| - 1] == x + y[..k];
    }
  }

  lemma LifeOfOwn(es: seq<Effect>, m: Serial, n: Serial)
    requires |es| <= 2 && forall e :: e in es ==> e.serial == m
    ensures Life(es, n) == if m == n then es else []
  {
    if |es| == 1 {
      assert es[..0] == [] && es == [es[0]];
    } else if |es| == 2 {
      assert es[..1][..0] == [] && es[..1] == [es[0]] && es == [es[0]] + [es[1]];
    }
  }

  lemma LifeAfterLog(trace: seq<Effect>, es: seq<Effect>, m: Serial, n: Serial)
    requires |es| <= 2 && forall e :: e in es ==> e.serial == m
    ensures Life(trace + es, n) == Life(trace, n) + (if m == n then es else [])
  {
    LifeAppend(trace, es, n);
    LifeOfOwn(es, m, n);
  }

  lemma RefusalKeepsLives(v: Variant, st: State, sid: Sid, user: User, getCode: int, n: Serial)
    requires Inv(v, st) && sid in st.sessions
    ensures LifeOk(v, OnProposal(st, sid, user, getCode).0, n)
  {
    var m := Serial(st.next);
    assert LifeOk(v, st, n);
    assert m !in st.heap;
    LifeAfterLog(st.trace, [Refused(m, sid)], m, n);
  }

  lemma StartKeepsLives(v: Variant, st: State, sid: Sid, user: User, getCode: int, n: Serial)
    requires Inv(v, st) && sid !in st.sessions
    ensures LifeOk(v, OnProposal(st, sid, user, getCode).0, n)
  {
    var m := Serial(st.next);
    assert LifeOk(v, st, n);
    assert m !in st.heap;
    LifeAfterLog(st.trace, [Started(m, sid, user, st.now), AskedUser(m, sid, user.key)], m, n);
  }

  lemma AcceptedReplyKeepsLives(v: Variant, st: State, sid: Sid, reply: Reply, n: Serial)
    requires Inv(v, st) && sid in st.sessions && Accepts(v, reply, st.heap[st.sessions[sid]].user)
    ensures LifeOk(v, OnReply(v, st, sid, reply), n)
  {
    assert LifeOk(v, st, n);
    var m := st.sessions[sid];
    LifeAfterLog(st.trace, [StoredUser(m, sid, st.heap[m].user), Answered(m, sid, EN_OK_TYPE, reply, st.now)], m, n);
  }

  lemma RejectedReplyKeepsLives(v: Variant, st: State, sid: Sid, reply: Reply, n: Serial)
    requires Inv(v, st) && sid in st.sessions && !Accepts(v, reply, st.heap[st.sessions[sid]].user)
    ensures LifeOk(v, OnReply(v, st, sid, reply), n)
  {
    assert LifeOk(v, st, n);
    var m := st.sessions[sid];
    LifeAfterLog(st.trace, [Answered(m, sid, EN_CC_REPORT_ERROR_TYPE, reply, st.now)], m, n);
  }

  lemma ReplyKeepsLives(v: Variant, st: State, sid: Sid, reply: Reply, n: Serial)
    requires Inv(v, st)
    ensures LifeOk(v, OnReply(v, st, sid, reply), n)
  {
    assert LifeOk(v, st, n);
    if sid in st.sessions {
      if Accepts(v, reply, st.heap[st.sessions[sid]].user) {
        AcceptedReplyKeepsLives(v, st, sid, reply, n);
      } else {
        RejectedReplyKeepsLives(v, st, sid, reply, n);
      }
    }
  }

  lemma TimeOutKeepsLives(v: Variant, st: State, m: Serial, n: Serial)
    requires Inv(v, st) && Enabled(st, Expire(m))
    ensures LifeOk(v, OnTimer(st, m), n)
  {
    TimerFindsItsSession(st, m);
    assert LifeOk(v, st, n);
    LifeAfterLog(st.trace, [TimedOut(m, st.heap[m].sid, st.now)], m, n);
  }

  lemma StepKeeps(v: Variant, st: State, e: Event)
    requires Inv(v, st)
    ensures Inv(v, Step(v, st, e))
  {
    StepAgrees(v, st, e);
    if Enabled(st, e) {
      forall n
        ensures LifeOk(v, Step(v, st, e), n)
      {
        match e {
          case Propose(sid, user, getCode) =>
            if sid in st.sessions {
              RefusalKeepsLives(v, st, sid, user, getCode, n);
            } else {
              StartKeepsLives(v, st, sid, user, getCode, n);
            }
          case Replied(sid, reply) => ReplyKeepsLives(v, st, sid, reply, n);
          case Tick => assert LifeOk(v, st, n);
          case Expire(m) => TimeOutKeepsLives(v, st, m, n);
        }
      }
    }
  }

  lemma {:induction false} RunKeeps(v: Variant, st: State, events: seq<Event>)
    requires Inv(v, st)
    ensures Inv(v, Run(v, st, events))
    decreases |events|
  {
    if events != [] {
      StepKeeps(v, st, events[0]);
      RunKeeps(v, Step(v, st, events[0]), events[1..]);
    }
  }

  lemma Safety(v: Variant, events: seq<Event>)
    ensures Inv(v, Run(v, INIT, events))
  {
    RunKeeps(v, INIT, events);
  }

  // ---------------------------------------------------------------- what follows for every run

  /** In every run the mapped sessions, the armed timers and the allocated objects are the same, so
      nothing leaks, is freed while mapped, or is freed while its timer is armed; a timer that fires
      finds its session allocated and mapped; and no session outlives its 60 ticks. */
  lemma SessionsAgree(v: Variant, events: seq<Event>)
    ensures var st := Run(v, INIT, events);
            && st.timers.Keys == st.heap.Keys == st.sessions.Values
            && (forall sid :: sid in st.sessions ==> st.heap[st.sessions[sid]].sid == sid)
            && (forall n :: n in st.heap ==> 0 <= st.now - st.heap[n].born <= 60)
            && (forall n :: Enabled(st, Expire(n)) ==>
                  n in st.heap && st.heap[n].sid in st.sessions && st.sessions[st.heap[n].sid] == n)
  {
    Safety(v, events);
    var st := Run(v, INIT, events);
    forall n
      ensures n in st.sessions.Values <==> n in st.heap
    {
      if n in st.heap {
        assert st.sessions[st.heap[n].sid] == n;
      }
    }
    assert forall n :: n in st.heap ==> st.timers[n] >= 0;
  }

  /** In no run is a session used after it has been freed, by a timer or by a reply. */
  lemma NothingDangles(v: Variant, events: seq<Event>)
    ensures forall e :: e in Run(v, INIT, events).trace ==> !e.Dangling?
  {
    RunDanglesNot(v, INIT, events);
  }

  lemma {:induction false} RunDanglesNot(v: Variant, st: State, events: seq<Event>)
    requires Agree(st) && forall e :: e in st.trace ==> !e.Dangling?
    ensures forall e :: e in Run(v, st, events).trace ==> !e.Dangling?
    decreases |events|
  {
    if events != [] {
      StepAgrees(v, st, events[0]);
      RunDanglesNot(v, Step(v, st, events[0]), events[1..]);
    }
  }

  function Answers(trace: seq<Effect>, n: Serial): nat {
    if trace == [] then 0
    else
      var last := trace[|trace| - 1];
      Answers(trace[..|trace| - 1], n) + (if last.Answered? && last.serial == n then 1 else 0)
  }

  function Stores(trace: seq<Effect>, n: Serial): nat {
    if trace == [] then 0
    else
      var last := trace[|trace| - 1];
      Stores(trace[..|trace| - 1], n) + (if last.StoredUser? && last.serial == n then 1 else 0)
  }

  lemma {:induction false} CountsOfLife(trace: seq<Effect>, n: Serial)
    ensures Answers(trace, n) == Answers(Life(trace, n), n)
    ensures Stores(trace, n) == Stores(Life(trace, n), n)
  {
    if trace != [] {
      var k := |trace| - 1;
      var before, last := Life(trace[..k], n), trace[k];
      CountsOfLife(trace[..k], n);
      if last.serial == n {
        assert (before + [last])[..|before + [last]| - 1] == before;
      } else {
        assert before + [] == before;
      }
    }
  }

  /** The answers and stores of a life that is at most four effects long. */
  lemma CountsOfShortLife(life: seq<Effect>, n: Serial)
    requires |life| <= 4 && forall i :: 0 <= i < |life| - 1 ==> !life[i].Answered?
    requires forall i :: 0 <= i < |life| ==> i != 2 ==> !life[i].StoredUser?
    ensures Answers(life, n) <= 1 && Stores(life, n) <= 1
    ensures |life| > 0 && !life[|life| - 1].Answered? ==> Answers(life, n) == 0
  {
    var k := |life|;
    if k > 0 {
      NoneCounted(life[..k - 1], n);
      if k == 4 {
        assert life[..3][..2] == life[..2];
        NoneCounted(life[..2], n);
      } else if k == 3 {
        NoneCounted(life[..2], n);
      }
    }
  }

  lemma {:induction false} NoneCounted(life: seq<Effect>, n: Serial)
    ensures (forall i :: 0 <= i < |life| ==> !life[i].Answered?) ==> Answers(life, n) == 0
    ensures (forall i :: 0 <= i < |life| ==> !life[i].StoredUser?) ==> Stores(life, n) == 0
  {
    if life != [] {
      NoneCounted(life[..|life| - 1], n);
    }
  }

  /** However a session ended, it was answered last if at all, and stored third if at all. */
  lemma LifeIsShort(v: Variant, life: seq<Effect>, n: Serial)
    requires Over(v, life, n) || life == [] || exists obj :: Open(life, n, obj)
    ensures |life| <= 4 && forall i :: 0 <= i < |life| - 1 ==> !life[i].Answered?
    ensures forall i :: 0 <= i < |life| ==> i != 2 ==> !life[i].StoredUser?
  {
  }

  /** Every session ever allocated is answered at most once and stores at most once. */
  lemma AtMostOneOutcome(v: Variant, events: seq<Event>, n: Serial)
    ensures var st := Run(v, INIT, events);
            Answers(st.trace, n) <= 1 && Stores(st.trace, n) <= 1
    ensures var st := Run(v, INIT, events);
            n in st.heap ==> Answers(st.trace, n) == 0
  {
    Safety(v, events);
    var st := Run(v, INIT, events);
    assert LifeOk(v, st, n);
    CountsOfLife(st.trace, n);
    LifeIsShort(v, Life(st.trace, n), n);
    CountsOfShortLife(Life(st.trace, n), n);
  }

  /** The whole life of every session in every run: still open, or over in one of the ways `Over`
      lists; in particular an OK answer follows the storing of exactly the proposed user and
      answers a reply that names that user. */
  lemma LifeOfEverySession(v: Variant, events: seq<Event>, n: Serial)
    ensures var st := Run(v, INIT, events);
            var life := Life(st.trace, n);
            if n in st.heap then Open(life, n, st.heap[n])
            else if n.n < st.next then Over(v, life, n)
            else life == []
  {
    Safety(v, events);
    assert LifeOk(v, Run(v, INIT, events), n);
  }

  function Due(st: State): set<Serial> {
    set n | n in st.timers && st.timers[n] == 0
  }

  predicate AllExpire(events: seq<Event>) {
    forall e :: e in events ==> e.Expire?
  }

  /** Time is never stuck: from any reachable state the timers that are due, fired one after the
      other, each on a session that is there, let the clock tick again. */
  lemma TimeCanAdvance(v: Variant, events: seq<Event>) returns (more: seq<Event>)
    ensures var st := Run(v, INIT, events);
            AllExpire(more) && |more| == |Due(st)| && Enabled(Run(v, st, more), Tick)
  {
    Safety(v, events);
    more := FireAll(v, Run(v, INIT, events));
  }

  lemma FireAll(v: Variant, st: State) returns (more: seq<Event>)
    requires Inv(v, st)
    ensures AllExpire(more) && |more| == |Due(st)| && Enabled(Run(v, st, more), Tick)
    decreases |Due(st)|
  {
    if Due(st) == {} {
      more := [];
      assert forall n :: n in st.timers ==> n !in Due(st);
    } else {
      var n :| n in Due(st);
      var st' := Step(v, st, Expire(n));
      TimerFindsItsSession(st, n);
      assert Due(st') == Due(st) - {n};
      StepKeeps(v, st, Expire(n));
      var rest := FireAll(v, st');
      more := [Expire(n)] + rest;
      assert more[1..] == rest;
    }
  }

  /** A proposal reports -1 for a name in use and what its request returns otherwise; and one that
      reports failure leaves nothing behind if and only if its name was in use: one whose request for
      the stored user fails leaves its session open. */
  lemma FailureLeavesNothingIff(st: State, sid: Sid, user: User, getCode: int)
    ensures var (r, code) := OnProposal(st, sid, user, getCode);
            && code == (if sid in st.sessions then -1 else getCode)
            && ((code != 0 ==> r.sessions == st.sessions && r.heap == st.heap && r.timers == st.timers)
                <==> sid in st.sessions || getCode == 0)
  {
    var (r, code) := OnProposal(st, sid, user, getCode);
    if sid !in st.sessions {
      assert sid in r.sessions;
    }
  }

  /** Such a session is as live as any other: a reply under its name would still be accepted. */
  lemma FailedProposalCanBeAnswered(v: Variant, user: User, getCode: int)
    requires getCode != 0
    ensures var (r, code) := OnProposal(INIT, Sid(7), user, getCode);
            var st := OnReply(v, r, Sid(7), Reply(EN_OK_TYPE, DecodesTo(user)));
            && code == getCode && Sid(7) in r.sessions
            && st.sessions == map[]
            && st.trace == r.trace + [StoredUser(Serial(0), Sid(7), user),
                                      Answered(Serial(0), Sid(7), EN_OK_TYPE, Reply(EN_OK_TYPE, DecodesTo(user)), 0)]
  {
    var r := OnProposal(INIT, Sid(7), user, getCode).0;
    assert r.sessions - {Sid(7)} == map[];
  }

  // ---------------------------------------------------------------- sessions nobody answers

  /** A reply the variant passes over in silence. */
  predicate Ignored(v: Variant, reply: Reply, user: User) {
    v == JsonVariant && (reply.decoded.DecodeFails? || reply.decoded.user.key != user.key)
  }

  /** No event of the run answers session `sid` about `user`. */
  predicate NobodyAnswers(v: Variant, events: seq<Event>, sid: Sid, user: User) {
    forall e :: e in events && e.Replied? && e.sid == sid ==> Ignored(v, e.reply, user)
  }

  /** Session `n` is open as it was when it was made. */
  ghost predicate StillOpen(st: State, n: Serial, sid: Sid, user: User, born: nat) {
    n in st.heap && st.heap[n].sid == sid && st.heap[n].user == user && st.heap[n].born == born
  }

  /** Session `n` is over because its timer fired, exactly when it was due. */
  ghost predicate WasTimedOut(st: State, n: Serial, sid: Sid, user: User, born: nat) {
    && n !in st.heap && n.n < st.next
    && Life(st.trace, n)
       == [Started(n, sid, user, born), AskedUser(n, sid, user.key), TimedOut(n, sid, born + 60)]
  }

  /** Nothing happens any more to a session that is over. */
  lemma OverStaysOver(v: Variant, st: State, e: Event, n: Serial)
    requires Agree(st) && n !in st.heap && n.n < st.next
    ensures var st' := Step(v, st, e);
            n !in st'.heap && n.n < st'.next && Life(st'.trace, n) == Life(st.trace, n)
  {
    if Enabled(st, e) {
      match e {
        case Propose(sid, user, _) =>
          var m := Serial(st.next);
          LifeAfterLog(st.trace, [Refused(m, sid)], m, n);
          LifeAfterLog(st.trace, [Started(m, sid, user, st.now), AskedUser(m, sid, user.key)], m, n);
        case Replied(sid, reply) =>
          if sid in st.sessions {
            OthersReplyIsNotLogged(v, st, sid, reply, n);
          }
        case Tick =>
        case Expire(m) =>
          TimerFindsItsSession(st, m);
          LifeAfterLog(st.trace, [TimedOut(m, st.heap[m].sid, st.now)], m, n);
      }
    }
  }

  lemma OthersReplyIsNotLogged(v: Variant, st: State, sid: Sid, reply: Reply, n: Serial)
    requires sid in st.sessions && st.sessions[sid] in st.heap && st.sessions[sid] != n
    ensures Life(OnReply(v, st, sid, reply).trace, n) == Life(st.trace, n)
  {
    var m := st.sessions[sid];
    LifeAfterLog(st.trace, [StoredUser(m, sid, st.heap[m].user), Answered(m, sid, EN_OK_TYPE, reply, st.now)], m, n);
    LifeAfterLog(st.trace, [Answered(m, sid, EN_CC_REPORT_ERROR_TYPE, reply, st.now)], m, n);
  }

  lemma ExpiryTimesOut(v: Variant, st: State, n: Serial)
    requires Inv(v, st) && Enabled(st, Expire(n))
    ensures n in st.heap && WasTimedOut(OnTimer(st, n), n, st.heap[n].sid, st.heap[n].user, st.heap[n].born)
  {
    TimerFindsItsSession(st, n);
    assert LifeOk(v, st, n);
    LifeAfterLog(st.trace, [TimedOut(n, st.heap[n].sid, st.now)], n, n);
  }

  lemma OpenUntilTimeOut(v: Variant, st: State, e: Event, n: Serial, sid: Sid, user: User, born: nat)
    requires Inv(v, st) && StillOpen(st, n, sid, user, born)
    requires e.Replied? && e.sid == sid ==> Ignored(v, e.reply, user)
    ensures var st' := Step(v, st, e);
            if e == Expire(n) && Enabled(st, e) then WasTimedOut(st', n, sid, user, born)
            else StillOpen(st', n, sid, user, born)
  {
    if Enabled(st, e) && e == Expire(n) {
      ExpiryTimesOut(v, st, n);
    }
  }

  /** A session nobody answers, because its request failed, the reply is lost or (JSON variant) it is
      passed over, stays open until its timer fires, 60 ticks after the proposal, and is then over
      without an answer: for every reachable state, every such session and every run from there. */
  lemma {:induction false} UnansweredWaits(v: Variant, st: State, events: seq<Event>, n: Serial)
    requires Inv(v, st) && n in st.heap && NobodyAnswers(v, events, st.heap[n].sid, st.heap[n].user)
    ensures var st', o := Run(v, st, events), st.heap[n];
            StillOpen(st', n, o.sid, o.user, o.born) || WasTimedOut(st', n, o.sid, o.user, o.born)
    decreases |events|
  {
    if events != [] {
      var o, st' := st.heap[n], Step(v, st, events[0]);
      assert events[0] in events && forall e :: e in events[1..] ==> e in events;
      OpenUntilTimeOut(v, st, events[0], n, o.sid, o.user, o.born);
      StepKeeps(v, st, events[0]);
      if n in st'.heap {
        UnansweredWaits(v, st', events[1..], n);
      } else {
        TimedOutStays(v, st', events[1..], n, o.sid, o.user, o.born);
      }
    }
  }

  lemma {:induction false} TimedOutStays(v: Variant, st: State, events: seq<Event>, n: Serial, sid: Sid,
                                         user: User, born: nat)
    requires Inv(v, st) && WasTimedOut(st, n, sid, user, born)
    ensures WasTimedOut(Run(v, st, events), n, sid, user, born)
    decreases |events|
  {
    if events != [] {
      OverStaysOver(v, st, events[0], n);
      StepKeeps(v, st, events[0]);
      TimedOutStays(v, Step(v, st, events[0]), events[1..], n, sid, user, born);
    }
  }

  /** So a proposal whose request fails, in any reachable state, and whose name the caller forgets,
      is open until its timer fires. */
  lemma FailedProposalWaits(v: Variant, before: seq<Event>, sid: Sid, user: User, getCode: int, after: seq<Event>)
    requires sid !in Run(v, INIT, before).sessions && NobodyAnswers(v, after, sid, user)
    ensures var st := Run(v, INIT, before);
            var st' := Run(v, OnProposal(st, sid, user, getCode).0, after);
            var n := Serial(st.next);
            StillOpen(st', n, sid, user, st.now) || WasTimedOut(st', n, sid, user, st.now)
  {
    Safety(v, before);
    var st := Run(v, INIT, before);
    StepKeeps(v, st, Propose(sid, user, getCode));
    UnansweredWaits(v, OnProposal(st, sid, user, getCode).0, after, Serial(st.next));
  }

  // ---------------------------------------------------------------- which replies are accepted

  /** A reply to a live session, in the reply's own terms.  Only the key of the stored user counts,
      whatever the rest of it: with the proposed key and, in the object variant, code 0, the proposed
      user is stored, 0 is answered and the session is over; anything else is answered with -19
      and ends the session in the object variant and changes nothing in the JSON variant. */
  lemma ReplyOutcome(st: State, sid: Sid, reply: Reply)
    requires Agree(st) && sid in st.sessions
    ensures var n := st.sessions[sid];
            var user, st' := st.heap[n].user, OnReply(ObjectVariant, st, sid, reply);
            && st'.sessions == st.sessions - {sid} && st'.heap == st.heap - {n} && st'.timers == st.timers - {n}
            && (reply.code == 0 && reply.decoded.DecodesTo? && reply.decoded.user.key == user.key ==>
                  st'.trace == st.trace + [StoredUser(n, sid, user), Answered(n, sid, 0, reply, st.now)])
            && (reply.code != 0 || reply.decoded.DecodeFails? || reply.decoded.user.key != user.key ==>
                  st'.trace == st.trace + [Answered(n, sid, -19, reply, st.now)])
    ensures var n := st.sessions[sid];
            var user, st' := st.heap[n].user, OnReply(JsonVariant, st, sid, reply);
            && (reply.decoded.DecodesTo? && reply.decoded.user.key == user.key ==>
                  && st'.sessions == st.sessions - {sid} && st'.heap == st.heap - {n} && st'.timers == st.timers - {n}
                  && st'.trace == st.trace + [StoredUser(n, sid, user), Answered(n, sid, 0, reply, st.now)])
            && (reply.decoded.DecodeFails? || reply.decoded.user.key != user.key ==> st' == st)
  {
  }

  /** A reply under a name that is not in use changes nothing. */
  lemma StrangeReplyIsIgnored(v: Variant, st: State, sid: Sid, reply: Reply)
    requires sid !in st.sessions
    ensures OnReply(v, st, sid, reply) == st
  {
  }

  lemma {:induction false} InItsLife(trace: seq<Effect>, e: Effect)
    requires e in trace
    ensures e in Life(trace, e.serial)
  {
    var k := |trace| - 1;
    if e != trace[k] {
      assert e in trace[..k];
      InItsLife(trace[..k], e);
    }
  }

  /** What an answer says, in every run: its session was started, and 0 is answered only to a reply
      that decodes to a user with the key the session was started with (and, in the object variant,
      reports success), after storing the user it was started with; the only other answer is -19, in
      the object variant, to a reply that reports a failure, does not decode or has another key. */
  lemma AnswerMeans(v: Variant, events: seq<Event>, e: Effect)
    requires e in Run(v, INIT, events).trace && e.Answered?
    ensures var life := Life(Run(v, INIT, events).trace, e.serial);
            && life != [] && life[0].Started?
            && (e.code == 0 <==> StoredUser(e.serial, e.sid, life[0].user) in life)
            && (e.code == 0 ==>
                  && (v == ObjectVariant ==> e.cause.code == 0)
                  && e.cause.decoded.DecodesTo? && e.cause.decoded.user.key == life[0].user.key)
            && (e.code != 0 ==>
                  && v == ObjectVariant && e.code == -19
                  && (e.cause.code != 0 || e.cause.decoded.DecodeFails?
                      || e.cause.decoded.user.key != life[0].user.key))
  {
    var st := Run(v, INIT, events);
    Safety(v, events);
    assert LifeOk(v, st, e.serial);
    InItsLife(st.trace, e);
    var life := Life(st.trace, e.serial);
    if |life| == 4 {
      assert life[2] in life;
    }
  }

  /** An update that changes something: the stored user has the proposed key and other details, and
      both variants store the new ones and answer 0. */
  lemma ChangeIsStored(v: Variant, key: nat, before: UserInfo, after: UserInfo)
    ensures var reply := Reply(0, DecodesTo(User(key, before)));
            var proposed := User(key, after);
            Run(v, INIT, [Propose(Sid(1), proposed, 0), Replied(Sid(1), reply)]).trace
            == [Started(Serial(0), Sid(1), proposed, 0), AskedUser(Serial(0), Sid(1), key),
                StoredUser(Serial(0), Sid(1), proposed), Answered(Serial(0), Sid(1), 0, reply, 0)]
  {
    var e, f := Propose(Sid(1), User(key, after), 0), Replied(Sid(1), Reply(0, DecodesTo(User(key, before))));
    var st := Step(v, INIT, e);
    ProposalAgrees(INIT, Sid(1), User(key, after), 0);
    ReplyOutcome(st, Sid(1), f.reply);
    assert [e, f][1..] == [f] && [f][1..] == [];
    assert Run(v, INIT, [e, f]) == Run(v, st, [f]) == Run(v, Step(v, st, f), []);
  }

  /** On a live session the two variants do the same exactly when the object variant accepts the
      reply.  So a reply that reports an error is acted on differently: the JSON variant stores and
      answers OK whenever it names the same user (`JsonIgnoresTheCode`). */
  lemma VariantsAgreeIff(st: State, sid: Sid, reply: Reply)
    requires Agree(st) && sid in st.sessions
    ensures OnReply(ObjectVariant, st, sid, reply) == OnReply(JsonVariant, st, sid, reply)
            <==> reply.code == 0 && reply.decoded.DecodesTo?
                 && reply.decoded.user.key == st.heap[st.sessions[sid]].user.key
  {
    var n := st.sessions[sid];
    var a, b := OnReply(ObjectVariant, st, sid, reply), OnReply(JsonVariant, st, sid, reply);
    if !Accepts(ObjectVariant, reply, st.heap[n].user) {
      assert a.trace[|a.trace| - 1].code == EN_CC_REPORT_ERROR_TYPE;
      if Accepts(JsonVariant, reply, st.heap[n].user) {
        assert b.trace[|b.trace| - 1].code == EN_OK_TYPE;
      } else {
        assert |b.trace| < |a.trace|;
      }
    }
  }

  /** A run in which the query for the user failed and the JSON variant still stores the proposed
      user and answers OK, where the object variant answers with an error.  It assumes that the
      reply to a failed query decodes to the proposed user, although such a reply carries an empty
      user; `JsonTrustsIff` says what follows from what an empty user decodes to. */
  lemma JsonIgnoresTheCode(user: User)
    ensures Stores(Run(JsonVariant, INIT, FailedQuery(user)).trace, Serial(0)) == 1
    ensures Stores(Run(ObjectVariant, INIT, FailedQuery(user)).trace, Serial(0)) == 0
  {
    var n, cause := Serial(0), Reply(-1, DecodesTo(user));
    var start := [Started(n, Sid(7), user, 0), AskedUser(n, Sid(7), user.key)];
    NoneCounted(start, n);
    FailedQueryTrace(user);
    var stored := start + [StoredUser(n, Sid(7), user)];
    var json := stored + [Answered(n, Sid(7), EN_OK_TYPE, cause, 0)];
    assert Run(JsonVariant, INIT, FailedQuery(user)).trace == json;
    assert json[..3] == stored && stored[..2] == start;
    var obj := start + [Answered(n, Sid(7), EN_CC_REPORT_ERROR_TYPE, cause, 0)];
    assert obj[..2] == start;
  }

  /** A proposal, and a failed query whose reply decodes to the proposed user. */
  function FailedQuery(user: User): seq<Event> {
    [Propose(Sid(7), user, 0), Replied(Sid(7), Reply(-1, DecodesTo(user)))]
  }

  lemma FailedQueryTrace(user: User)
    ensures var n, cause := Serial(0), Reply(-1, DecodesTo(user));
            var start := [Started(n, Sid(7), user, 0), AskedUser(n, Sid(7), user.key)];
            && Run(JsonVariant, INIT, FailedQuery(user)).trace
               == start + [StoredUser(n, Sid(7), user), Answered(n, Sid(7), EN_OK_TYPE, cause, 0)]
            && Run(ObjectVariant, INIT, FailedQuery(user)).trace
               == start + [Answered(n, Sid(7), EN_CC_REPORT_ERROR_TYPE, cause, 0)]
  {
    var events := FailedQuery(user);
    var first := OnProposal(INIT, Sid(7), user, 0).0;
    assert events[1..] == [events[1]] && events[1..][1..] == [];
    forall v: Variant
      ensures Run(v, INIT, events) == OnReply(v, first, Sid(7), events[1].reply)
    {
      assert Run(v, INIT, events) == Run(v, first, events[1..]);
      assert Run(v, first, events[1..]) == Run(v, OnReply(v, first, Sid(7), events[1].reply), []);
    }
  }

  // ---------------------------------------------------------------- replies as they are made

  /** The reply to a failed query carries an empty user, which decodes to `empty`. */
  predicate FromQuery(e: Event, empty: Decoded) {
    e.Replied? && e.reply.code != 0 ==> e.reply.decoded == empty
  }

  predicate FromQueries(events: seq<Event>, empty: Decoded) {
    forall e :: e in events ==> FromQuery(e, empty)
  }

  /** Every answer of success was given to a query that succeeded. */
  ghost predicate OkMeansOk(trace: seq<Effect>) {
    forall e :: e in trace && e.Answered? && e.code == 0 ==> e.cause.code == 0
  }

  lemma {:induction false} RunTrusts(v: Variant, st: State, events: seq<Event>)
    requires OkMeansOk(st.trace) && (v == ObjectVariant || FromQueries(events, DecodeFails))
    ensures OkMeansOk(Run(v, st, events).trace)
    decreases |events|
  {
    if events != [] {
      assert events[0] in events && forall e :: e in events[1..] ==> e in events;
      assert OkMeansOk(Step(v, st, events[0]).trace);
      RunTrusts(v, Step(v, st, events[0]), events[1..]);
    }
  }

  /** The object variant answers with success only after a query that succeeded, whatever the
      replies. */
  lemma ObjectTrusts(events: seq<Event>)
    ensures OkMeansOk(Run(ObjectVariant, INIT, events).trace)
  {
    RunTrusts(ObjectVariant, INIT, events);
  }

  /** The JSON variant can be trusted in that way over all runs if and only if an empty user does
      not decode. */
  lemma JsonTrustsIff(empty: Decoded)
    ensures (forall events :: FromQueries(events, empty) ==> OkMeansOk(Run(JsonVariant, INIT, events).trace))
            <==> empty == DecodeFails
  {
    if empty == DecodeFails {
      forall events | FromQueries(events, empty)
        ensures OkMeansOk(Run(JsonVariant, INIT, events).trace)
      {
        RunTrusts(JsonVariant, INIT, events);
      }
    } else {
      FailedQueryTrace(empty.user);
      var trace := Run(JsonVariant, INIT, FailedQuery(empty.user)).trace;
      assert FromQueries(FailedQuery(empty.user), empty);
      assert trace[3] in trace && trace[3].cause.code == -1;
    }
  }
}
