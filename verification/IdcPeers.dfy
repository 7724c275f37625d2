/** Loading the peer table: one pass over the rows groups neighbouring rows of one peer. */
module IdcPeers {

  /** A row of the server table. */
  datatype Row = Row(ip: string, port: int, peerID: int)

  datatype Server = Server(ip: string, port: int, handleID: nat)

  datatype Peer = Peer(peerID: int, servers: seq<Server>)

  /** A server together with the peer its row names. */
  datatype Entry = Entry(peerID: int, server: Server)

  /** Row `i` with the `i`-th handle that is allocated. */
  function EntryAt(rows: seq<Row>, handles: seq<nat>, i: nat): Entry
    requires i < |rows| <= |handles|
  {
    Entry(rows[i].peerID, Server(rows[i].ip, rows[i].port, handles[i]))
  }

  function Entries(rows: seq<Row>, handles: seq<nat>): seq<Entry>
    requires |rows| <= |handles|
  {
    seq(|rows|, i requires 0 <= i < |rows| => EntryAt(rows, handles, i))
  }

  lemma FieldsOfEntries(rows: seq<Row>, handles: seq<nat>)
    requires |rows| <= |handles|
    ensures |Entries(rows, handles)| == |rows|
    ensures forall i :: 0 <= i < |rows| ==>
              Entries(rows, handles)[i] == Entry(rows[i].peerID, Server(rows[i].ip, rows[i].port, handles[i]))
  {
  }

  function Tag(peerID: int, servers: seq<Server>): seq<Entry> {
    seq(|servers|, i requires 0 <= i < |servers| => Entry(peerID, servers[i]))
  }

  /** The rows a list of peers stands for, in order. */
  function Flatten(peers: seq<Peer>): seq<Entry> {
    if peers == [] then []
    else Flatten(peers[..|peers| - 1]) + Tag(peers[|peers| - 1].peerID, peers[|peers| - 1].servers)
  }

  /** Nothing lost, invented or reordered; no peer without servers; neighbours differ. */
  ghost predicate IsGrouping(peers: seq<Peer>, entries: seq<Entry>) {
    && Flatten(peers) == entries
    && (forall i :: 0 <= i < |peers| ==> peers[i].servers != [])
    && (forall i :: 0 <= i < |peers| - 1 ==> peers[i].peerID != peers[i + 1].peerID)
  }

  class IdcClientService {
    var peers: seq<Peer>

    constructor ()
      ensures peers == []
    {
      peers := [];
    }

    /** `dbOk` and `selectOk` tell whether the database opened and the query succeeded; `rows` is
        its result and `handles` are the handles `AllocHandleID` returns, in order. */
    method LoadPeerInfo(dbOk: bool, selectOk: bool, rows: seq<Row>, handles: seq<nat>) returns (rc: int)
      requires |rows| <= |handles|
      modifies this
      ensures rc == if dbOk && selectOk then 0 else -1
      ensures rc == -1 ==> peers == old(peers)
      ensures rc == 0 ==> |old(peers)| <= |peers| && peers[..|old(peers)|] == old(peers)
                          && IsGrouping(peers[|old(peers)|..], Entries(rows, handles))
      ensures rc == 0 ==> |old(peers)| <= |peers|
                          && var flat := Flatten(peers[|old(peers)|..]);
                             |flat| == |rows| && forall i :: 0 <= i < |rows| ==>
                               flat[i] == Entry(rows[i].peerID, Server(rows[i].ip, rows[i].port, handles[i]))
    {
      if !dbOk {
        return -1;
      }
      if !selectOk {
        return -1;
      }
      var peerID := -1;
      var servers: seq<Server> := [];
      ghost var was, added, entries := peers, [], Entries(rows, handles);
      for i := 0 to |rows|
        invariant peers == was + added
        invariant Grouped(added, peerID, servers, entries[..i])
      {
        var server := Server(rows[i].ip, rows[i].port, handles[i]);
        NextEntry(rows, handles, i);
        GroupOne(added, peerID, servers, entries[..i], EntryAt(rows, handles, i));
        if peerID != rows[i].peerID {
          if servers != [] {
            AppendMore(was, added, Peer(peerID, servers));
            peers := peers + [Peer(peerID, servers)];
            added := added + [Peer(peerID, servers)];
            servers := [];
          }
          peerID := rows[i].peerID;
        }
        servers := servers + [server];
      }
      assert entries[..|rows|] == entries;
      GroupLast(added, peerID, servers, entries);
      if servers != [] {
        AppendMore(was, added, Peer(peerID, servers));
        peers := peers + [Peer(peerID, servers)];
        added := added + [Peer(peerID, servers)];
      }
      AppendParts(was, added);
      FieldsOfEntries(rows, handles);
      return 0;
    }
  }

  /** What the loop keeps: the peers closed so far and the one still open cover the rows read. */
  ghost predicate Grouped(closed: seq<Peer>, peerID: int, open: seq<Server>, entries: seq<Entry>) {
    && IsGrouping(closed, Flatten(closed))
    && Flatten(closed) + Tag(peerID, open) == entries
    && (open == [] ==> closed == [])
    && (closed != [] ==> closed[|closed| - 1].peerID != peerID)
  }

  lemma FlattenPush(peers: seq<Peer>, p: Peer)
    ensures Flatten(peers + [p]) == Flatten(peers) + Tag(p.peerID, p.servers)
  {
    assert (peers + [p])[..|peers|] == peers;
  }

  lemma GroupOne(closed: seq<Peer>, peerID: int, open: seq<Server>, entries: seq<Entry>, e: Entry)
    requires Grouped(closed, peerID, open, entries)
    ensures peerID == e.peerID ==> Grouped(closed, peerID, open + [e.server], entries + [e])
    ensures peerID != e.peerID && open == [] ==> Grouped(closed, e.peerID, open + [e.server], entries + [e])
    ensures peerID != e.peerID && open != [] ==>
              Grouped(closed + [Peer(peerID, open)], e.peerID, [] + [e.server], entries + [e])
  {
    FlattenPush(closed, Peer(peerID, open));
    assert Tag(peerID, open + [e.server]) == Tag(peerID, open) + [Entry(peerID, e.server)];
    assert Tag(e.peerID, [e.server]) == [e];
    assert (Flatten(closed) + Tag(peerID, open)) + [e] == Flatten(closed) + (Tag(peerID, open) + [e]);
  }

  /** After the last row the open peer is closed too, unless there was no row at all. */
  lemma GroupLast(closed: seq<Peer>, peerID: int, open: seq<Server>, entries: seq<Entry>)
    requires Grouped(closed, peerID, open, entries)
    ensures open == [] ==> IsGrouping(closed, entries)
    ensures open != [] ==> IsGrouping(closed + [Peer(peerID, open)], entries)
  {
    FlattenPush(closed, Peer(peerID, open));
  }

  lemma AppendMore(was: seq<Peer>, added: seq<Peer>, p: Peer)
    ensures (was + added) + [p] == was + (added + [p])
  {
  }

  lemma AppendParts(was: seq<Peer>, added: seq<Peer>)
    ensures (was + added)[..|was|] == was && (was + added)[|was|..] == added
  {
  }

  lemma NextEntry(rows: seq<Row>, handles: seq<nat>, i: nat)
    requires i < |rows| <= |handles|
    ensures Entries(rows, handles)[..i] + [EntryAt(rows, handles, i)] == Entries(rows, handles)[..i + 1]
  {
  }

  // ---------------------------------------------------------------- the grouping is determined

  lemma LastOfFlatten(peers: seq<Peer>)
    requires peers != [] && peers[|peers| - 1].servers != []
    ensures Flatten(peers) != []
    ensures Flatten(peers)[|Flatten(peers)| - 1].peerID == peers[|peers| - 1].peerID
  {
    var last := peers[|peers| - 1];
    var t := Tag(last.peerID, last.servers);
    assert t[|t| - 1].peerID == last.peerID;
  }

  lemma GroupingOfFront(peers: seq<Peer>, entries: seq<Entry>)
    requires IsGrouping(peers, entries) && peers != []
    ensures IsGrouping(peers[..|peers| - 1], Flatten(peers[..|peers| - 1]))
  {
    var front := peers[..|peers| - 1];
    assert forall i :: 0 <= i < |front| ==> front[i] == peers[i];
  }

  /** The last peer takes the longest run of equal ids at the end of the rows. */
  lemma LastRun(peers: seq<Peer>, entries: seq<Entry>)
    requires IsGrouping(peers, entries) && peers != []
    ensures var a := peers[|peers| - 1];
            && 0 < |a.servers| <= |entries|
            && (forall k :: |entries| - |a.servers| <= k < |entries| ==> entries[k].peerID == a.peerID)
            && (|a.servers| < |entries| ==> entries[|entries| - |a.servers| - 1].peerID != a.peerID)
  {
    var n := |peers| - 1;
    var front, a := peers[..n], peers[n];
    var t := Tag(a.peerID, a.servers);
    assert forall k :: 0 <= k < |t| ==> entries[|Flatten(front)| + k] == t[k];
    if n > 0 {
      LastOfFlatten(front);
      assert peers[n - 1].peerID != peers[n - 1 + 1].peerID;
    }
  }

  /** Rows have exactly one grouping, so the loop's result is it. */
  lemma {:induction false} GroupingUnique(p: seq<Peer>, q: seq<Peer>, entries: seq<Entry>)
    requires IsGrouping(p, entries) && IsGrouping(q, entries)
    ensures p == q
    decreases |p|
  {
    if p == [] || q == [] {
      if p != [] {
        LastOfFlatten(p);
      }
      if q != [] {
        LastOfFlatten(q);
      }
    } else {
      LastRun(p, entries);
      LastRun(q, entries);
      var a, b := p[|p| - 1], q[|q| - 1];
      var k, k' := |entries| - |a.servers|, |entries| - |b.servers|;
      assert entries[|entries| - 1].peerID == a.peerID && entries[|entries| - 1].peerID == b.peerID;
      assert k > 0 ==> entries[k - 1].peerID != a.peerID;
      assert k' > 0 ==> entries[k' - 1].peerID != b.peerID;
      assert Flatten(p[..|p| - 1]) == entries[..k] == Flatten(q[..|q| - 1]);
      assert Tag(a.peerID, a.servers) == entries[k..] == Tag(b.peerID, b.servers);
      assert a.servers == b.servers by {
        assert forall i :: 0 <= i < |a.servers| ==>
            a.servers[i] == Tag(a.peerID, a.servers)[i].server && b.servers[i] == Tag(b.peerID, b.servers)[i].server;
      }
      GroupingOfFront(p, entries);
      GroupingOfFront(q, entries);
      GroupingUnique(p[..|p| - 1], q[..|q| - 1], entries[..k]);
      assert p == p[..|p| - 1] + [a] && q == q[..|q| - 1] + [b];
    }
  }

  // ---------------------------------------------------------------- sorted rows

  ghost predicate SortedByPeer(entries: seq<Entry>) {
    forall i, j :: 0 <= i < j < |entries| ==> entries[i].peerID <= entries[j].peerID
  }

  /** All servers the entries name for a peer, in order. */
  function ServersOf(entries: seq<Entry>, peerID: int): seq<Server> {
    if entries == [] then []
    else
      var last := entries[|entries| - 1];
      ServersOf(entries[..|entries| - 1], peerID) + (if last.peerID == peerID then [last.server] else [])
  }

  lemma {:induction false} ServersOfAppend(x: seq<Entry>, y: seq<Entry>, peerID: int)
    ensures ServersOf(x + y, peerID) == ServersOf(x, peerID) + ServersOf(y, peerID)
  {
    if y == [] {
      assert x + y == x;
    } else {
      var k := |y| - 1;
      ServersOfAppend(x, y[..k], peerID);
      assert (x + y)[..|x + y| - 1] == x + y[..k];
    }
  }

  lemma {:induction false} ServersOfTag(id: int, servers: seq<Server>, peerID: int)
    ensures ServersOf(Tag(id, servers), peerID) == if id == peerID then servers else []
  {
    if servers != [] {
      var k := |servers| - 1;
      ServersOfTag(id, servers[..k], peerID);
      assert Tag(id, servers)[..k] == Tag(id, servers[..k]);
      assert servers == servers[..k] + [servers[k]];
    }
  }

  /** Rows sorted by peer id, as the query orders them, give strictly increasing peers. */
  lemma {:induction false} SortedGivesIncreasing(peers: seq<Peer>, entries: seq<Entry>)
    requires IsGrouping(peers, entries) && SortedByPeer(entries)
    ensures forall i, j :: 0 <= i < j < |peers| ==> peers[i].peerID < peers[j].peerID
    decreases |peers|
  {
    if |peers| > 1 {
      var n := |peers| - 1;
      var front := peers[..n];
      GroupingOfFront(peers, entries);
      var k := |Flatten(front)|;
      assert Flatten(front) == entries[..k];
      SortedGivesIncreasing(front, entries[..k]);
      LastOfFlatten(front);
      LastOfFlatten(peers);
      assert entries[k - 1].peerID == peers[n - 1].peerID;
      assert entries[|entries| - 1].peerID == peers[n].peerID;
      assert peers[n - 1].peerID != peers[n - 1 + 1].peerID;
      forall i | 0 <= i < n
        ensures peers[i].peerID < peers[n].peerID
      {
        assert front[i] == peers[i];
        if i < n - 1 {
          assert front[i].peerID < front[n - 1].peerID;
        }
      }
    }
  }

  lemma {:induction false} FlattenHasAll(peers: seq<Peer>, i: nat)
    requires i < |peers| && forall j, k :: 0 <= j < k < |peers| ==> peers[j].peerID < peers[k].peerID
    ensures ServersOf(Flatten(peers), peers[i].peerID) == peers[i].servers
    decreases |peers|
  {
    var n := |peers| - 1;
    var front, last := peers[..n], peers[n];
    ServersOfAppend(Flatten(front), Tag(last.peerID, last.servers), peers[i].peerID);
    ServersOfTag(last.peerID, last.servers, peers[i].peerID);
    if i < n {
      FlattenHasAll(front, i);
    } else {
      NoneOf(front, last.peerID);
    }
  }

  lemma {:induction false} NoneOf(peers: seq<Peer>, peerID: int)
    requires forall p :: p in peers ==> p.peerID != peerID
    ensures ServersOf(Flatten(peers), peerID) == []
  {
    if peers != [] {
      var n := |peers| - 1;
      NoneOf(peers[..n], peerID);
      ServersOfAppend(Flatten(peers[..n]), Tag(peers[n].peerID, peers[n].servers), peerID);
      ServersOfTag(peers[n].peerID, peers[n].servers, peerID);
    }
  }

  /** With sorted rows each peer id forms one peer, which has all the servers of that id; this
      includes a peer whose id is the loop's initial -1. */
  lemma SortedRowsGroupWholly(peers: seq<Peer>, entries: seq<Entry>)
    requires IsGrouping(peers, entries) && SortedByPeer(entries)
    ensures forall i, j :: 0 <= i < j < |peers| ==> peers[i].peerID < peers[j].peerID
    ensures forall i :: 0 <= i < |peers| ==> peers[i].servers == ServersOf(entries, peers[i].peerID)
    ensures forall e :: e in entries ==> exists i :: 0 <= i < |peers| && peers[i].peerID == e.peerID
  {
    SortedGivesIncreasing(peers, entries);
    forall i | 0 <= i < |peers|
      ensures peers[i].servers == ServersOf(entries, peers[i].peerID)
    {
      FlattenHasAll(peers, i);
    }
    forall e | e in entries
      ensures exists i :: 0 <= i < |peers| && peers[i].peerID == e.peerID
    {
      EveryEntryHasPeer(peers, e);
    }
  }

  lemma {:induction false} EveryEntryHasPeer(peers: seq<Peer>, e: Entry)
    requires e in Flatten(peers)
    ensures exists i :: 0 <= i < |peers| && peers[i].peerID == e.peerID
  {
    var n := |peers| - 1;
    if e in Flatten(peers[..n]) {
      EveryEntryHasPeer(peers[..n], e);
      var i :| 0 <= i < n && peers[..n][i].peerID == e.peerID;
      assert peers[i].peerID == e.peerID;
    } else {
      assert e in Tag(peers[n].peerID, peers[n].servers);
      assert peers[n].peerID == e.peerID;
    }
  }
}
