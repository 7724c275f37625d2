/** Choosing a connection: peers in turn and, within a peer, its connections in turn.  Either index
    may rest one past the end between calls. */
module IdcSelector {
  import opened Cyclic
  import opened Wrappers

  /** The indices: `peer` of the kernel session, `at[p]` of peer `p`. */
  datatype Selector = Selector(peer: nat, at: seq<nat>)

  /** A chosen connection: handler `handler` of peer `peer`. */
  datatype Choice = Choice(peer: nat, handler: nat)

  /** Each index is on a place or one past the end; `sizes[p]` is the number of connections of
      peer `p`. */
  ghost predicate InRange(s: Selector, sizes: seq<nat>) {
    && |s.at| == |sizes| && s.peer <= |sizes|
    && (forall p :: 0 <= p < |sizes| ==> s.at[p] <= sizes[p])
  }

  /** And every peer has a connection. */
  ghost predicate Valid(s: Selector, sizes: seq<nat>) {
    InRange(s, sizes) && forall p :: 0 <= p < |sizes| ==> 0 < sizes[p]
  }

  function Wrap(i: nat, n: nat): nat {
    if i < n then i else 0
  }

  function Pick(s: Selector, sizes: seq<nat>): (Choice, Selector)
    requires |s.at| == |sizes| > 0
  {
    var p := Wrap(s.peer, |sizes|);
    var h := Wrap(s.at[p], sizes[p]);
    (Choice(p, h), Selector(p + 1, s.at[p := h + 1]))
  }

  /** The choices of `k` consecutive calls. */
  function Picks(s: Selector, sizes: seq<nat>, k: nat): seq<Choice>
    requires |s.at| == |sizes| > 0
    decreases k
  {
    if k == 0 then [] else [Pick(s, sizes).0] + Picks(Pick(s, sizes).1, sizes, k - 1)
  }

  lemma PickKeeps(s: Selector, sizes: seq<nat>)
    requires Valid(s, sizes) && sizes != []
    ensures var (c, s') := Pick(s, sizes);
            Valid(s', sizes) && c.peer < |sizes| && c.handler < sizes[c.peer]
  {
  }

  /** One call is well defined as soon as the peer whose turn it is has a connection. */
  lemma PickInRange(s: Selector, sizes: seq<nat>)
    requires InRange(s, sizes) && sizes != [] && sizes[Wrap(s.peer, |sizes|)] > 0
    ensures var (c, s') := Pick(s, sizes);
            InRange(s', sizes) && c.peer < |sizes| && c.handler < sizes[c.peer]
  {
  }

  lemma WrapMod(i: nat, n: nat)
    requires 0 < n && i <= n
    ensures Wrap(i, n) == i % n
  {
    if i < n {
      ModUnique(i, n, 0, i);
    } else {
      ModUnique(i, n, 1, 0);
    }
  }

  /** Moving from call `i` to call `i - 1` of the state after one call, for the peer chosen at
      call `i`: it has had one turn less if it was chosen just now, and as many otherwise. */
  lemma TurnsStep(p0: nat, i: nat, n: nat)
    requires 0 < i && p0 < n
    ensures ((p0 + 1) + (i - 1)) % n == (p0 + i) % n
    ensures (i - 1) / n == if (p0 + i) % n == p0 then i / n - 1 else i / n
    ensures (p0 + i) % n == p0 ==> i / n > 0
  {
    assert (p0 + 1) + (i - 1) == p0 + i;
    var q, r := i / n, i % n;
    if r == 0 {
      FullTurns(p0, i, n, q);
    } else {
      PartTurn(p0, i, n, q, r);
    }
  }

  lemma FullTurns(p0: nat, i: nat, n: nat, q: nat)
    requires 0 < i && p0 < n && i == n * q
    ensures (p0 + i) % n == p0 && (i - 1) / n == q - 1 && q > 0
  {
    ModUnique(p0 + i, n, q, p0);
    assert n * q == n * (q - 1) + n;
    ModUnique(i - 1, n, q - 1, n - 1);
  }

  lemma PartTurn(p0: nat, i: nat, n: nat, q: nat, r: nat)
    requires p0 < n && 0 < r < n && i == n * q + r
    ensures (p0 + i) % n != p0 && (i - 1) / n == q
  {
    ModUnique(i - 1, n, q, r - 1);
    if p0 + r < n {
      ModUnique(p0 + i, n, q, p0 + r);
    } else {
      assert n * (q + 1) == n * q + n;
      ModUnique(p0 + i, n, q + 1, p0 + r - n);
    }
  }

  lemma HandlerStep(at: nat, turns: nat, size: nat)
    requires 0 < size && at <= size && 0 < turns
    ensures (Wrap(at, size) + 1 + (turns - 1)) % size == (at + turns) % size
  {
    WrapMod(at, size);
    ModOfSum(at, turns, size);
  }

  /** What call `i` takes: peer `(peer + i) mod P` and, as that peer has had `i div P` turns
      before, its connection `(at + i div P) mod H`. */
  function Nth(s: Selector, sizes: seq<nat>, i: nat): Choice
    requires |s.at| == |sizes| > 0 && forall p :: 0 <= p < |sizes| ==> sizes[p] > 0
  {
    var p := (s.peer + i) % |sizes|;
    Choice(p, (s.at[p] + i / |sizes|) % sizes[p])
  }

  lemma NthFirst(s: Selector, sizes: seq<nat>)
    requires Valid(s, sizes) && sizes != []
    ensures Nth(s, sizes, 0) == Pick(s, sizes).0
  {
    var p := Wrap(s.peer, |sizes|);
    WrapMod(s.peer, |sizes|);
    WrapMod(s.at[p], sizes[p]);
    ModUnique(0, |sizes|, 0, 0);
  }

  lemma NthLater(s: Selector, sizes: seq<nat>, i: nat)
    requires Valid(s, sizes) && sizes != [] && i > 0
    ensures Nth(Pick(s, sizes).1, sizes, i - 1) == Nth(s, sizes, i)
  {
    var n := |sizes|;
    var p0 := Wrap(s.peer, n);
    var p := (s.peer + i) % n;
    PeerStep(s.peer, i, n);
    TurnsStep(p0, i, n);
    if p == p0 {
      HandlerStep(s.at[p], i / n, sizes[p]);
    }
  }

  lemma PeerStep(peer: nat, i: nat, n: nat)
    requires 0 < n && peer <= n
    ensures (Wrap(peer, n) + i) % n == (peer + i) % n
  {
    WrapMod(peer, n);
    ModOfSum(peer, i, n);
  }

  /** Closed form, counted from any valid state. */
  lemma {:induction false} ClosedForm(s: Selector, sizes: seq<nat>, k: nat, i: nat)
    requires Valid(s, sizes) && sizes != [] && i < k
    ensures |Picks(s, sizes, k)| == k && Picks(s, sizes, k)[i] == Nth(s, sizes, i)
    decreases k
  {
    PickKeeps(s, sizes);
    if k > 1 {
      ClosedForm(Pick(s, sizes).1, sizes, k - 1, if i == 0 then 0 else i - 1);
    }
    if i == 0 {
      NthFirst(s, sizes);
    } else {
      NthLater(s, sizes, i);
    }
  }

  /** From fresh indices, call `i` takes connection `(i div P) mod H` of peer `i mod P`. */
  lemma ClosedFormFromStart(s: Selector, sizes: seq<nat>, k: nat, i: nat)
    requires Valid(s, sizes) && sizes != [] && i < k
    requires s.peer == 0 && forall p :: 0 <= p < |sizes| ==> s.at[p] == 0
    ensures |Picks(s, sizes, k)| == k
    ensures Picks(s, sizes, k)[i] == Choice(i % |sizes|, (i / |sizes|) % sizes[i % |sizes|])
  {
    ClosedForm(s, sizes, k, i);
  }

  /** One call takes one turn off the chosen peer and one off its chosen connection. */
  lemma HitsAfterPick(s: Selector, sizes: seq<nat>, k: nat, p: nat, h: nat)
    requires Valid(s, sizes) && p < |sizes| && h < sizes[p] && k > 0
    ensures var (c, s') := Pick(s, sizes);
            Hits(s.at[p], Hits(s.peer, k, |sizes|, p), sizes[p], h)
            == (if c == Choice(p, h) then 1 else 0)
               + Hits(s'.at[p], Hits(s'.peer, k - 1, |sizes|, p), sizes[p], h)
  {
    var q := Wrap(s.peer, |sizes|);
    var turns := Hits(q + 1, k - 1, |sizes|, p);
    WrapStep(s.peer, k - 1, |sizes|, p);
    if q == p {
      WrapStep(s.at[p], turns, sizes[p], h);
    } else {
      assert Hits(s.peer, k, |sizes|, p) == turns;
    }
  }

  lemma WrapStep(at: nat, turns: nat, size: nat, h: nat)
    requires 0 < size && at <= size
    ensures Hits(at, turns + 1, size, h)
         == (if Wrap(at, size) == h then 1 else 0) + Hits(Wrap(at, size) + 1, turns, size, h)
  {
    HitsStep(at, turns + 1, size, h);
  }

  /** How often a connection is chosen: its peer's turns, counted on the peer's own index. */
  lemma {:induction false} PickCounts(s: Selector, sizes: seq<nat>, k: nat, p: nat, h: nat)
    requires Valid(s, sizes) && p < |sizes| && h < sizes[p]
    ensures multiset(Picks(s, sizes, k))[Choice(p, h)]
         == Hits(s.at[p], Hits(s.peer, k, |sizes|, p), sizes[p], h)
    decreases k
  {
    if k > 0 {
      var (c, s') := Pick(s, sizes);
      PickKeeps(s, sizes);
      PickCounts(s', sizes, k - 1, p, h);
      HitsAfterPick(s, sizes, k, p, h);
      assert Picks(s, sizes, k) == [c] + Picks(s', sizes, k - 1);
    }
  }

  /** Balance: over `P * L` consecutive calls, `L` a multiple of the peer's connections, each of
      them is chosen exactly `L / H` times, from any state the indices may be in. */
  lemma Balance(s: Selector, sizes: seq<nat>, rounds: nat, c: nat, p: nat, h: nat)
    requires Valid(s, sizes) && p < |sizes| && h < sizes[p] && rounds == sizes[p] * c
    ensures multiset(Picks(s, sizes, |sizes| * rounds))[Choice(p, h)] == c
  {
    PickCounts(s, sizes, |sizes| * rounds, p, h);
    HitsWholeTurns(s.peer, rounds, |sizes|, p);
    HitsWholeTurns(s.at[p], c, sizes[p], h);
  }

  /** After any number of calls two connections of one peer differ by at most one choice. */
  lemma EvenWithinPeer(s: Selector, sizes: seq<nat>, k: nat, p: nat, h: nat, g: nat)
    requires Valid(s, sizes) && p < |sizes| && h < sizes[p] && g < sizes[p]
    ensures multiset(Picks(s, sizes, k))[Choice(p, h)] <= multiset(Picks(s, sizes, k))[Choice(p, g)] + 1
  {
    PickCounts(s, sizes, k, p, h);
    PickCounts(s, sizes, k, p, g);
    var turns := Hits(s.peer, k, |sizes|, p);
    HitsBalanced(s.at[p], turns, sizes[p], h);
    HitsBalanced(s.at[p], turns, sizes[p], g);
  }

  // ---------------------------------------------------------------- the sessions as they run

  class PeerSession {
    var handlers: array<int>
    var handleIDNum: nat
    var index: nat

    constructor (handlers: array<int>)
      ensures this.handlers == handlers && handleIDNum == handlers.Length && index == 0
    {
      this.handlers, handleIDNum, index := handlers, handlers.Length, 0;
    }

    /** The inner half of the selection. */
    method Take() returns (handler: int)
      requires 0 < handleIDNum == handlers.Length && index <= handleIDNum
      modifies this`index
      ensures index == Wrap(old(index), handleIDNum) + 1
      ensures handler == handlers[Wrap(old(index), handleIDNum)]
    {
      if index >= handleIDNum {
        index := 0;
      }
      handler := handlers[index];
      index := index + 1;
    }
  }

  class KernelSession {
    var peers: array<PeerSession>
    var peerSessionNum: nat
    var index: nat

    constructor (peers: array<PeerSession>)
      ensures this.peers == peers && peerSessionNum == peers.Length && index == 0
    {
      this.peers, peerSessionNum, index := peers, peers.Length, 0;
    }

    ghost predicate Sessions()
      reads this, peers, peers[..]
    {
      && peerSessionNum == peers.Length
      && (forall p :: 0 <= p < peers.Length ==> peers[p].handleIDNum == peers[p].handlers.Length)
      && (forall p, q :: 0 <= p < q < peers.Length ==> peers[p] != peers[q])
    }

    ghost function Sizes(): seq<nat>
      reads this, peers, peers[..]
    {
      seq(peers.Length, p requires 0 <= p < peers.Length reads this, peers, peers[..] => peers[p].handleIDNum)
    }

    ghost function State(): Selector
      reads this, peers, peers[..]
    {
      Selector(index,
               seq(peers.Length, p requires 0 <= p < peers.Length reads this, peers, peers[..] => peers[p].index))
    }

    /** No connection when there is no peer; otherwise the one the selector picks.  The peer whose
        turn it is must have a connection, because its array is read without a check. */
    method GetMcpHandler() returns (handler: Option<int>)
      requires Sessions() && InRange(State(), Sizes())
      requires peerSessionNum > 0 ==> Sizes()[Wrap(index, peerSessionNum)] > 0
      modifies this`index, peers[..]`index
      ensures Sessions() && Sizes() == old(Sizes()) && InRange(State(), Sizes())
      ensures peerSessionNum == 0 ==> handler == None && State() == old(State())
      ensures peerSessionNum > 0 ==>
                var (c, s') := Pick(old(State()), Sizes());
                && State() == s'
                && handler == Some(peers[c.peer].handlers[c.handler])
    {
      if peerSessionNum == 0 {
        return None;
      }
      ghost var before, sizes := State(), Sizes();
      PickInRange(before, sizes);
      if index >= peerSessionNum {
        index := 0;
      }
      var session := peers[index];
      assert session in peers[..];
      index := index + 1;
      var h := session.Take();
      handler := Some(h);
      assert Sizes() == sizes;
      assert State() == Pick(before, sizes).1;
    }

    /** Each connection of `got` is the one at the place chosen for it. */
    ghost predicate AreAt(got: seq<int>, chosen: seq<Choice>)
      reads this`peers, peers, peers[..], set p | p in peers[..] :: p.handlers
    {
      && |got| == |chosen|
      && forall i :: 0 <= i < |got| ==>
           && chosen[i].peer < peers.Length
           && chosen[i].handler < peers[chosen[i].peer].handlers.Length
           && got[i] == peers[chosen[i].peer].handlers[chosen[i].handler]
    }

    /** A series of calls returns the connections at the places the selector picks, so `ClosedForm`
        says which they are and `Balance` and `EvenWithinPeer` how often each comes up. */
    method GetMany(k: nat) returns (got: seq<int>)
      requires Sessions() && Valid(State(), Sizes()) && peerSessionNum > 0
      modifies this`index, peers[..]`index
      ensures Sessions() && Sizes() == old(Sizes()) && Valid(State(), Sizes())
      ensures AreAt(got, Picks(old(State()), Sizes(), k))
      decreases k
    {
      if k == 0 {
        return [];
      }
      ghost var before, sizes := State(), Sizes();
      PickKeeps(before, sizes);
      var first := GetMcpHandler();
      var rest := GetMany(k - 1);
      got := [first.value] + rest;
      FirstIsAt(first.value, Pick(before, sizes).0, rest, Picks(Pick(before, sizes).1, sizes, k - 1));
    }

    lemma FirstIsAt(first: int, c: Choice, rest: seq<int>, chosen: seq<Choice>)
      requires AreAt(rest, chosen) && c.peer < peers.Length && c.handler < peers[c.peer].handlers.Length
      requires first == peers[c.peer].handlers[c.handler]
      ensures AreAt([first] + rest, [c] + chosen)
    {
    }
  }
}
