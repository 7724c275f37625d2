# Verified core of the message queues, the IDC client and the update-user chaincodes

This project models four stateful parts of the repository in Dafny and proves what they are relied
on for.

- **Peer-to-peer message queue.** Every peer runs one callback service: the set of connected
  peers, the topics this peer wants, and a registry from topics to subscribers with a polling
  cursor per topic. `MqCallbackService.dfy` holds the service as classes that update their fields;
  each handler is proved to compute a function of `MqNode.dfy`. `MqNetwork.dfy` joins any number of
  peers with channels of messages in flight and proves an invariant of all runs;
  `MqSettling.dfy` shows that the network settles whatever the schedule, `MqDelivery.dfy` follows
  publications from end to end, `MqPolling.dfy` the polls of a topic over runs,
  `MqRefinement.dfy` shows that each step of the network is one event of one service, and
  `MqRetraction.dfy` is a run in which a topic is not given up.
- **Type array.** An array of references whose elements carry their own slot number, which grows by
  64 slots, deletes by moving the last element into the hole and hands out its elements in turn.
  `TypeArray.dfy` is the array in memory with its sized allocator, `TypeArraySpec.dfy` the value it
  refines. `AgentService.dfy` is the client that spreads publications over forwarders with it, and
  `AgentRuns.dfy` the machine it refines, with what follows for its runs; `AgentHistory.dfy` tells
  what it knows and says from the events alone.
- **IDC client.** `IdcPeers.dfy` groups the rows of the server table into peers in one pass;
  `IdcSelector.dfy` is the nested round robin over peers and their connections.
- **Update-user chaincodes.** `UserSessions.dfy` is the request, reply and timeout machine of both
  variants (object and JSON), `UpdateUserService.dfy` the service with its session objects.

The callback service, the type array, the agent and the chaincode service each have a `Drive` method
that takes them through any series of events and is proved to follow their machine, so what is proved
of every run is true of the objects.

`Cyclic.dfy` is the arithmetic of a rotating index that every round robin here shares;
`Wrappers.dfy` and `Maps.dfy` hold the optional value and facts about maps.

## Conventions and assumptions

- *Addresses.* Every callback service is registered with service id 1
  (`src/mq/p2p_mq/mq_app_mng.cpp:29`), so the address built for a connection is the source address
  of that peer's messages. The order of `CDscMsgAddr` in a set is not part of this model; a
  lexicographic order stands for it. `UNSET_ADDR` stands for a default-constructed address, and
  `PublishReaches` shows that nothing is ever sent to it.
- *Links.* A link comes up and goes down at both ends at once, and each end is told in a step of its
  own, at any later time. Assumed of the transport: a link comes up again only after both ends were
  told of its loss; nothing is handed to a peer before it was told that the link is up; a link that
  goes down loses what is in flight. `ListKeepsInvariantIff` shows that the second assumption is
  needed: the handler itself does not check that the sender is connected.
- *Hash map order.* The loop that prunes the registry is proved for every order in which the map
  may present its keys.
- *In-process publish type.* `m_nPubMsgType` is not among the attributes a publish request is
  encoded with (`src/mq/p2p_mq/mq_comm_def.h:112`); the request is taken as passed in process.
- *32-bit counters.* The type array's counters wrap at 2^32. The size at which the capacity itself
  would wrap is `SIZE_LIMIT`; `InsertKeepsIff` says exactly which insertion breaks the array.
- *Type array callers.* An element given to `Delete` is one this array knows or one that carries the
  sentinel; `Insert` leaves an element of another array alone.
- *Forwarder sessions.* The four handlers of `AgentService` are declared in
  `src/mq/mq_client_sdk/mq_client_sdk_agent_service.h:64-77`; what they do is in the `.cpp` file of
  the same name: a forwarder is withdrawn in lines 165-195, announced in 197-221, fails in 223-241
  and connects in 243-293.
- *Parameters.* Results of the database, of `AllocHandleID`, of decoding and of the request for a
  stored user are inputs. What the forwarding macro of the chaincodes returns on failure is taken to
  be the code of the failed call.
- *Replies.* A stored user that is at hand is answered from within the request for it
  (`src/vbh/cc/common/cc_service.cpp:318-328`); as the request is the last thing a proposal does,
  that is a reply right after the proposal. The reply to a failed query carries an empty user
  (`src/vbh/cc/common/cc_service.cpp:169-174`); what an empty user decodes to is a parameter.
- *Timers.* The armed timers are kept by the wheel, apart from map and heap: a timer comes on it when
  it is set and leaves it only when it is cancelled or fires. A session's `OnTimer` calls `OnTimeOut`
  (`src/vbh/cc/plugin/cc_update_user_demo_service/cc_update_user_demo_service.inl:1-4`), and the wheel
  fires every due timer before it moves on. An object is freed only while it is allocated and its
  timer is not armed.
- *Connections of the agent.* A connection has the handle its attempt was started under and keeps it
  when it fails and is taken up again by the transport. The transport reports only connections that
  were asked for and neither closed nor cancelled, the scheduler's apart, under their handle and
  address, and hands out handles that are not in use. The agent goes by the address alone: it looks
  for the session of a failed connection without comparing handles.

## What differs from what one might expect

- A new subscription list only adds at the peers: a topic that is no longer listed stays registered
  for as long as the link lasts (`GivenUpTopicStays` is such a run). Over the life of a link the
  settled registry equals the current list if and only if that list names every topic of the list
  at the start and of every call since (`RegistryOverLinkLifeIff`); a single call is honoured if and
  only if the new list names every topic of the old one (`ResubscribingIsExactIff`).
- `Next` of an element that was removed restarts the walk at slot 0 (`NextOfAbsentRestarts`); a scan
  must go on with what `Delete` returned.
- With deletions an element of the type array need not be returned within as many Gets as there are
  elements (`DeletionsCanStarve`, `DeletionCanPutOff`). `DeletionDelaysIff` says exactly which
  deletions make an element wait longer; a run without such deletions returns it within as many
  Gets as there were elements and new ones came (`ReturnedUnlessPutOff`).
- The branch of `Delete` that looks for a slot behind a deleted last element
  (`src/mq/mq_common/type_array.inl:58-69`) always yields no element.
- A withdrawn forwarder can come back unannounced. A withdrawal ends the connection or attempt its
  session knows; a first attempt is not known to it yet and goes on. What is left open, and that the
  forwarder can be back in the table if and only if something is, is `WithdrawalLeavesNothingIff`
  and `WithdrawnComesBackIff`; the first time this happens is the first withdrawal before a
  connection (`FirstLeftOpenIff`), and `WithdrawnForwarderReturns` is such a run.
- After such a withdrawal two connections to one forwarder can be up, and the failure of the older
  one is taken for that of the newer: a withdrawal then cancels, as if it were an attempt, a
  connection that is up (`CancelsLiveConnection`). The request fits what the transport has if and
  only if this has not happened since the last connection (`ClosingFitsIff`), and it cannot happen
  to a forwarder that was only withdrawn after a connection (`ClosingFits`).
- The application is not told when the last connected forwarder is withdrawn: its last notice is
  right if and only if that has not happened since (`NoticesAreTrueIff`).
- The JSON chaincode does not look at the return code. If the reply to a failed query decoded to the
  proposed user it would be stored and answered with success (`JsonIgnoresTheCode`, an assumed
  input); over all runs its success answers mean that the query succeeded if and only if an empty
  user does not decode (`JsonTrustsIff`), while those of the object variant always do
  (`ObjectTrusts`). The two variants agree on a live session exactly when the object variant accepts
  the reply (`VariantsAgreeIff`).
- When the request for the stored user fails, the caller is told but the session stays open: a
  failing proposal leaves nothing behind if and only if its name was in use
  (`FailureLeavesNothingIff`). A reply under its name would still be accepted
  (`FailedProposalCanBeAnswered`), but the caller forgets the proposal and hands on no reply for it
  (`src/vbh/cc/common/cc_service.cpp:122-128` and `:146-179`), and a session nobody answers is open
  until its timer fires (`FailedProposalWaits`).

## Model

| member | source | states |
|---|---|---|
| MqCallbackService.SubMsgAddr.Insert | src/mq/p2p_mq/mq_callback_service.cpp:15-29 | a new subscriber joins in order and restarts the rotation, a known one changes nothing and is reported with -1 |
| MqCallbackService.SubMsgAddr.Erase | src/mq/p2p_mq/mq_callback_service.cpp:31-45 | the subscriber is gone and the rotation restarts; an unknown one changes nothing and is reported with -1 |
| MqCallbackService.SubMsgAddr.GetAddr | src/mq/p2p_mq/mq_callback_service.cpp:52-70 | one poll: the subscriber under the cursor, or -1 and the caller's address untouched when there is none |
| MqCallbackService.CallbackService.OnConnected | src/mq/p2p_mq/mq_callback_service.cpp:133-154 | a new peer is remembered and sent the current list; a known peer gets nothing |
| MqCallbackService.CallbackService.OnDisConnected | src/mq/p2p_mq/mq_callback_service.cpp:156-188 | the peer is forgotten and pruned from every topic; no subscriber set leaks or is freed while in use |
| MqCallbackService.CallbackService.PruneTopics | src/mq/p2p_mq/mq_callback_service.cpp:171-186 | the loop that erases entries while walking them ends, and computes the pruned registry in whatever order it meets the topics |
| MqCallbackService.CallbackService.OnLocalSubscribe | src/mq/p2p_mq/mq_callback_service.cpp:190-202 | the list is replaced and sent once to every connected peer |
| MqCallbackService.CallbackService.OnRemoteSubscribe | src/mq/p2p_mq/mq_callback_service.cpp:204-223 | every listed topic is registered for the sender, with a subscriber set of its own |
| MqCallbackService.CallbackService.OnPublish | src/mq/p2p_mq/mq_callback_service.cpp:225-262 | a poll sends to the next subscriber and moves only that topic's cursor; any other kind sends to all subscribers; an unknown topic sends nothing |
| MqCallbackService.CallbackService.OnPubMsg | src/mq/p2p_mq/mq_callback_service.cpp:264-278 | the application receives the publication with its origin |
| MqCallbackService.Drive | src/mq/p2p_mq/mq_callback_service.cpp:133-278 | any series of events through the service: its state and everything it sends are those of the node functions |
| MqNode.SetInsert | src/mq/p2p_mq/mq_callback_service.cpp:17-20 | an ordered set gains exactly the element, stays ordered and holds nothing twice |
| MqNode.SetErase | src/mq/p2p_mq/mq_callback_service.cpp:33-40 | an ordered set loses exactly the element and stays ordered |
| MqNode.PollRotation | src/mq/p2p_mq/mq_callback_service.cpp:52-70 | between membership changes the i-th poll takes the subscriber i places behind the cursor, cyclically in ascending order |
| MqNode.PollsAreFair | src/mq/p2p_mq/mq_callback_service.cpp:52-70 | n polls serve each of n subscribers exactly once; k polls serve each one k/n or k/n + 1 times |
| MqNode.ListRestartsPolling | src/mq/p2p_mq/mq_callback_service.cpp:15-29 | once a list has added a new subscriber to a topic, poll i of it goes to subscriber i mod n of the new ones in ascending order, wherever the cursor stood before |
| MqNode.PruneRestartsPolling | src/mq/p2p_mq/mq_callback_service.cpp:31-45 | the same once a lost peer has been removed from a topic that others subscribe to |
| MqNode.SubscribeAllEffect | src/mq/p2p_mq/mq_callback_service.cpp:209-222 | a list adds exactly its topics for exactly its sender; entries that already know the sender keep their cursor |
| MqNode.PruneEffect | src/mq/p2p_mq/mq_callback_service.cpp:171-186 | pruning removes the address everywhere, deletes exactly the topics it alone kept alive and leaves every other entry as it was |
| MqNode.ConnectedKeeps | src/mq/p2p_mq/mq_callback_service.cpp:133-154 | being told of a peer keeps the node invariant and changes nobody's registrations |
| MqNode.DisconnectedKeeps | src/mq/p2p_mq/mq_callback_service.cpp:156-188 | losing a peer keeps the node invariant (no empty topic, only connected peers registered, cursors valid) and changes no other peer's registrations |
| MqNode.RemoteSubscribeKeeps | src/mq/p2p_mq/mq_callback_service.cpp:204-223 | a list from a connected peer keeps the node invariant and adds exactly its topics to that peer's registrations |
| MqNode.ListKeepsInvariantIff | src/mq/p2p_mq/mq_callback_service.cpp:204-223 | a list keeps the invariant if and only if its sender is connected or the list is empty |
| MqNode.PublishReaches | src/mq/p2p_mq/mq_callback_service.cpp:225-262 | every message of a publication goes to a registered peer; kind 1, a poll, sends exactly one whenever the topic is known (so the unchecked result of GetAddr is always good); kind 0, a broadcast, reaches every registered peer |
| MqNetwork.StepKeeps | src/mq/p2p_mq/mq_callback_service.cpp:133-262 | every step of the network keeps the invariant of peers, registries and lists in flight |
| MqRefinement.StepIsHandle | src/mq/p2p_mq/mq_callback_service.cpp:133-278 | every enabled step of the network is one event of one service: its handler gives the new state and the messages that enter its live channels, nothing else enters them, and only a delivered message leaves |
| MqRefinement.RunIsHandleAll | src/mq/p2p_mq/mq_callback_service.cpp:133-278 | after any run of the network a peer is in the state its service computes from the events it was told, in order |
| MqNetwork.Safety | src/mq/p2p_mq/mq_callback_service.cpp:133-262 | the invariant holds after every run: no topic without subscriber, cursors valid, only connected peers registered |
| MqNetwork.SubscriptionsConverge | src/mq/p2p_mq/mq_callback_service.cpp:133-223 | in every run each current topic of a peer is registered at everyone it knows a live link to, or in a list on its way there; with no list on its way all are registered |
| MqNetwork.RegistryIsExact | src/mq/p2p_mq/mq_callback_service.cpp:156-223 | registered together with in flight is exactly the union of the lists sent since the link came up; a peer not counted as connected is never registered |
| MqNetwork.ResubscribingOnlyAdds | src/mq/p2p_mq/mq_callback_service.cpp:190-223 | whatever the previous list named stays registered or on its way while the link lasts |
| MqNetwork.RegistryGrowsByCalls | src/mq/p2p_mq/mq_callback_service.cpp:190-223 | on a link its sender knows of, what is registered or on its way grows by exactly the topics of the subscription calls made, whatever else happens |
| MqNetwork.RegistryOverLinkLifeIff | src/mq/p2p_mq/mq_callback_service.cpp:133-223 | from the moment a peer is told of a link: registered or on its way is exactly its list then and every list it asked for since, so the settled registry equals the current list if and only if that list names them all |
| MqNetwork.InStepAgainIff | src/mq/p2p_mq/mq_callback_service.cpp:190-223 | two peers in step: after any calls that have arrived they are in step again if and only if the last list names every topic of the first one and of all calls |
| MqNetwork.ResubscribingIsExactIff | src/mq/p2p_mq/mq_callback_service.cpp:190-223 | two peers in step and one call: the new list is honoured if and only if it names every topic of the old one |
| MqRetraction.GivenUpTopicStays | src/mq/p2p_mq/mq_callback_service.cpp:190-223 | a run in which a peer gives up all topics and, with nothing in flight, stays registered for one |
| MqNetwork.SendEachReaches | src/mq/p2p_mq/mq_callback_service.cpp:198-201 | sending to each member of an ordered set reaches each member once and nobody else |
| MqSettling.NetworkCanSettle | src/mq/p2p_mq/mq_callback_service.cpp:133-223 | from every reachable state some transport steps alone empty all channels, and then every peer is registered for all its topics at everyone it has a live link to |
| MqSettling.EveryScheduleSettles | src/mq/p2p_mq/mq_callback_service.cpp:133-223 | no schedule of transport steps can avoid settling: each step that does anything does one of finitely many units of work, some step can go on while any is left, and when none is left every peer is registered for all its topics at everyone it has a live link to |
| MqDelivery.StepKeepsFlow | src/mq/p2p_mq/mq_callback_service.cpp:225-278 | every step keeps the order and the balance of publications on every link |
| MqDelivery.PublicationsAreConserved | src/mq/p2p_mq/mq_callback_service.cpp:225-278 | while a link lasts publications arrive in order without gap or repetition; over a whole run every one sent is received, lost with a link or in flight |
| MqDelivery.PublishTargets | src/mq/p2p_mq/mq_callback_service.cpp:243-254 | a publication puts exactly one message to each chosen peer in the outgoing messages, and none to anybody else |
| MqDelivery.PollChoosesOne | src/mq/p2p_mq/mq_callback_service.cpp:243-246 | a poll chooses exactly one peer whenever the topic has a subscriber |
| MqDelivery.DeliveryIsExact | src/mq/p2p_mq/mq_callback_service.cpp:225-278 | end to end, for any run over a link that lasts, with any number of publications: received and still in flight at the end is, in order, what was received, what was in flight, and exactly the publications the peer was chosen for since |
| MqDelivery.PublicationArrives | src/mq/p2p_mq/mq_callback_service.cpp:225-278 | one publication in any reachable state, whatever follows while the link lasts: the peer gets it exactly once if it was chosen and not at all otherwise, behind what was in flight and before what is published later |
| MqDelivery.SubscribersAreChosen | src/mq/p2p_mq/mq_callback_service.cpp:190-262 | a settled subscriber of the topic is chosen by every broadcast; a peer that is not connected or never listed the topic is never chosen |
| MqDelivery.BroadcastReachesExactlySubscribers | src/mq/p2p_mq/mq_callback_service.cpp:190-278 | in any reachable state a broadcast adds the publication exactly once to what each peer in step with the publisher receives that lists the topic, and nothing to what any other peer in step receives |
| MqPolling.SteadyStep | src/mq/p2p_mq/mq_callback_service.cpp:52-70 | while the subscribers of a topic stay the same only a poll of it moves its cursor, whatever step the network takes |
| MqPolling.PollingIsFair | src/mq/p2p_mq/mq_callback_service.cpp:225-247 | from any reachable state, while the subscribers of a topic stay the same, the polls of it take them in turn from the cursor, and of k polls each of n subscribers gets k/n or k/n + 1, whatever is interleaved |
| MqPolling.PollingStartsOver | src/mq/p2p_mq/mq_callback_service.cpp:15-45 | in any reachable state, once the subscribers of a topic have changed and while they stay as they are, poll i goes to subscriber i mod n, the least one first, whatever else happens |
| TypeArray.SizedAllocator.Free | src/mq/mq_common/type_array.inl:12 | a block can be freed once and only with the size it was allocated with |
| TypeArray.TypeArray.constructor | src/mq/mq_common/type_array.inl:3-7 | an empty array with storage for 64 elements |
| TypeArray.TypeArray.Destroy | src/mq/mq_common/type_array.inl:9-13 | the storage is freed with the size it was allocated with |
| TypeArray.TypeArray.Insert | src/mq/mq_common/type_array.inl:15-36 | the element is stored last with its slot number, or nothing happens when it is stored already, here or in another array; other storage and other elements are untouched |
| TypeArray.TypeArray.Enlarge | src/mq/mq_common/type_array.inl:25-34 | growth keeps every slot, and the old block is freed with its own size although the count of elements is used for it |
| TypeArray.TypeArray.Delete | src/mq/mq_common/type_array.inl:38-79 | the element carries the sentinel, the last one fills its slot and is returned, the cursor stays on a slot; an absent element changes nothing |
| TypeArray.TypeArray.Get | src/mq/mq_common/type_array.inl:81-102 | the element behind the cursor, cyclically; none when empty |
| TypeArray.TypeArray.Begin | src/mq/mq_common/type_array.inl:110-121 | the first element, none when empty |
| TypeArray.TypeArray.Next | src/mq/mq_common/type_array.inl:123-137 | the element in the slot after the number the given one carries, none at the end; for an element of this array the next one |
| TypeArray.TypeArray.Size | src/mq/mq_common/type_array.inl:139-143 | the number of stored elements |
| TypeArray.TypeArray.IndexIsSlot | src/mq/mq_common/type_array.inl:18-24 | the number an element carries is the slot it stands in, and the sentinel exactly when it is in none |
| TypeArray.TypeArray.ScanDropping | src/mq/mq_common/type_array.inl:38-137 | the walk that deletes some elements and steps over the others ends, visits every element exactly once and leaves exactly the kept ones |
| TypeArray.Drive | src/mq/mq_common/type_array.inl:15-102 | any sequence of operations leaves the array valid, in the state the specification computes, returns what the specification says its Gets return, and leaves all other storage untouched |
| TypeArray.WholeLife | src/mq/mq_common/type_array.inl:3-102 | after construction, any operations and destruction the allocator is exactly as it was: every block was freed once, with its size |
| TypeArraySpec.InsertKeepsIff | src/mq/mq_common/type_array.inl:15-36 | an insertion keeps the array valid if and only if it is not the one that makes the 32-bit capacity wrap around |
| TypeArraySpec.CapacityCanWrap | src/mq/mq_common/type_array.inl:25-34 | there is a valid array that one more element breaks: its recorded capacity becomes 0 |
| TypeArraySpec.CapacityStep | src/mq/mq_common/type_array.inl:25-34 | capacity 64 * (peak / 64 + 1) and copying cost 32 * k * (k + 1) after k growths go on holding when the peak grows |
| TypeArraySpec.DeleteKeeps | src/mq/mq_common/type_array.inl:38-79 | deletion keeps slots distinct and removes exactly the element |
| TypeArraySpec.RunRefinesSet | src/mq/mq_common/type_array.inl:15-102 | every run refines a finite set and keeps distinct slots, one free slot, the capacity formula and the copying cost |
| TypeArraySpec.GetsAreFair | src/mq/mq_common/type_array.inl:81-102 | n Gets on n elements return each exactly once; k Gets return each one k/n or k/n + 1 times |
| TypeArraySpec.ReturnedAppend | src/mq/mq_common/type_array.inl:81-102 | what a run of operations returns is what its parts return, in order |
| TypeArraySpec.ReturnedByGets | src/mq/mq_common/type_array.inl:81-102 | k Gets return, in order, the elements behind the cursor, cyclically |
| TypeArraySpec.RotationUnderGrowth | src/mq/mq_common/type_array.inl:15-102 | with insertions interleaved and no deletion, every element present is returned within as many Gets as the final size |
| TypeArraySpec.DeletionDelaysIff | src/mq/mq_common/type_array.inl:38-102 | a deletion makes another element wait longer for its turn if and only if the cursor stands on the last slot and the element on the first of several, or the element stands last and is moved into a slot, not the first, that the cursor has reached |
| TypeArraySpec.ReturnedUnlessPutOff | src/mq/mq_common/type_array.inl:15-102 | with insertions and deletions interleaved, an element that no deletion puts off is returned within as many Gets as there are elements at the start and new ones on the way |
| TypeArraySpec.DeletionsCanStarve | src/mq/mq_common/type_array.inl:38-102 | the bound by the final size does not survive deletions: a run of any length that never returns one of two elements |
| TypeArraySpec.DeletionCanPutOff | src/mq/mq_common/type_array.inl:38-102 | a deletion that puts an element off does break the bound by the elements at the start and the new ones |
| TypeArraySpec.ScanWhileDeleting | src/mq/mq_common/type_array.inl:38-137 | the scan from the first slot visits every element once and leaves exactly the kept ones |
| AgentService.AgentService.AddMqForwarderAddr | src/mq/mq_client_sdk/mq_client_sdk_agent_service.h:77 | the step of the machine: an unknown forwarder gets a session of its own and a connection is started under the given handle; a known one changes nothing |
| AgentService.AgentService.OnConnected | src/mq/mq_client_sdk/mq_client_sdk_agent_service.h:70 | the step of the machine: the scheduler's connection is used to register the client; a forwarder's is kept in its session, which joins the array, the topics are registered over it, and the application is told when it is the only one; the array goes on holding exactly the connected sessions |
| AgentService.AgentService.OnNetworkError | src/mq/mq_client_sdk/mq_client_sdk_agent_service.h:69 | the step of the machine: the session of a known forwarder loses its connection, keeps its handle and leaves the array, the application is told when none is left, and the failure is handed on |
| AgentService.AgentService.OnDelForwarder | src/mq/mq_client_sdk/mq_client_sdk_agent_service.h:64 | the step of the machine: the session leaves array and table and is freed; a connection it has is disconnected, one it has lost is cancelled, and nothing is asked for one that was never connected |
| AgentService.AgentService.SendDscMsg | src/mq/mq_client_sdk/mq_client_sdk_agent_service.inl:13-27 | the message goes to the forwarder whose turn it is, which always has a connection; with none it is dropped |
| AgentService.AgentService.SendAll | src/mq/mq_client_sdk/mq_client_sdk_agent_service.inl:13-27 | k messages go, in order, to the connections of the forwarders k Gets return, and each of n forwarders gets k/n or k/n + 1 of them |
| AgentService.Drive | src/mq/mq_client_sdk/mq_client_sdk_agent_service.h:57-77 | any series of events through the agent leaves it valid, in the state the machine computes |
| AgentService.Serve | src/mq/mq_client_sdk/mq_client_sdk_agent_service.h:34-77 | an agent from its start through any run: while a forwarder is connected the last notice is Ready, and it is right if and only if the last forwarder has not been withdrawn since |
| AgentRuns.Safety | src/mq/mq_client_sdk/mq_client_sdk_agent_service.h:57-77 | in every run the array holds exactly the connected forwarders, and every handle a session knows is open to its address |
| AgentRuns.WithdrawalLeavesNothingIff | src/mq/mq_client_sdk/mq_client_sdk_agent_service.h:64 | in every run a withdrawal ends exactly the handle the session knows, so nothing is left open to its address if and only if that was the only one |
| AgentRuns.WithdrawnComesBackIff | src/mq/mq_client_sdk/mq_client_sdk_agent_service.h:64-77 | a withdrawn forwarder can be back in table and array without being announced if and only if something else than the handle its session knew was open to it |
| AgentRuns.WithdrawnForwarderReturns | src/mq/mq_client_sdk/mq_client_sdk_agent_service.h:64-77 | a run in which a forwarder withdrawn before its connection is up is back when the connection comes up |
| AgentRuns.NoticesAreTrueIff | src/mq/mq_client_sdk/mq_client_sdk_agent_service.h:64-70 | in every run the last notice is Ready while a forwarder is connected, and only then if and only if the only connected one has not been withdrawn since the last notice |
| AgentRuns.PublicationsAreSpread | src/mq/mq_client_sdk/mq_client_sdk_agent_service.inl:13-27 | a series of publications in any state with a forwarder connected is carried in order and spread evenly |
| AgentHistory.RunIsHistory | src/mq/mq_client_sdk/mq_client_sdk_agent_service.h:57-77 | in every run, by what has happened in it: who has a session, with the handle of its last connection and a connection exactly while it is up; what has been said, in order, publications apart; the client registered once for each connection of the scheduler, the topics over each connection of a forwarder, every failure handed on |
| AgentHistory.KnowsHistory | src/mq/mq_client_sdk/mq_client_sdk_agent_service.h:64-77 | a session keeps the handle of the last connection since it was made, also after a failure, and has none before the first |
| AgentHistory.LogIsHistory | src/mq/mq_client_sdk/mq_client_sdk_agent_service.h:57-77 | everything the agent asks and says, publications apart, follows from the events and in their order |
| AgentHistory.RegistrationsAreExact | src/mq/mq_client_sdk/mq_client_sdk_agent_service.h:69-70 | as many registrations of the client as connections of the scheduler; the topics registered over each connection of a forwarder, in order; each failure handed on |
| AgentHistory.PublicationIsSent | src/mq/mq_client_sdk/mq_client_sdk_agent_service.inl:13-27 | in every run a publication is sent once, over the last connection of a forwarder that is up, and not at all exactly when none is |
| AgentHistory.ClosingFitsIff | src/mq/mq_client_sdk/mq_client_sdk_agent_service.h:64 | in every run a withdrawal of a forwarder that has been connected makes one request, for its last handle; it disconnects only what is up, and disconnects what is up and cancels what is not if and only if no failure of an older connection alone was reported since |
| AgentHistory.NothingToClose | src/mq/mq_client_sdk/mq_client_sdk_agent_service.h:64 | a withdrawal of a forwarder that has not been connected makes no request |
| AgentHistory.ClosingFits | src/mq/mq_client_sdk/mq_client_sdk_agent_service.h:64-70 | the request always fits a forwarder that was only withdrawn after a connection |
| AgentHistory.FirstLeftOpenIff | src/mq/mq_client_sdk/mq_client_sdk_agent_service.h:64-77 | as long as a forwarder has only been withdrawn after a connection, a withdrawal leaves nothing open to it if and only if it has been connected since the last withdrawal, a condition on the events |
| AgentHistory.CancelsLiveConnection | src/mq/mq_client_sdk/mq_client_sdk_agent_service.h:64-77 | a run in which a withdrawal cancels a connection that is up |
| IdcPeers.IdcClientService.LoadPeerInfo | src/idc/idc_client_service/idc_client_service.cpp:39-93 | on success the peers added are a grouping of the rows, each with its address, port and own handle: in order, nothing lost, no empty peer, neighbours differ; on a database failure -1 and no change |
| IdcPeers.GroupOne | src/idc/idc_client_service/idc_client_service.cpp:65-84 | one row keeps the closed peers and the open one a grouping of the rows read, also when a real id equals the initial -1 |
| IdcPeers.GroupingUnique | src/idc/idc_client_service/idc_client_service.cpp:65-90 | rows have exactly one grouping |
| IdcPeers.SortedRowsGroupWholly | src/idc/idc_client_service/idc_client_service.cpp:30-93 | rows sorted by peer id give strictly increasing peers, one for each id, with all of its servers in order |
| IdcSelector.PeerSession.Take | src/idc/idc_client_service/idc_client_service.cpp:244-249 | the inner index wraps when it rests one past the end, and moves on |
| IdcSelector.KernelSession.GetMcpHandler | src/idc/idc_client_service/idc_client_service.cpp:232-253 | no connection without peers; otherwise the one the two indices pick, and only the two indices move and stay in range |
| IdcSelector.KernelSession.GetMany | src/idc/idc_client_service/idc_client_service.cpp:232-253 | k calls return the connections at the k places the selector picks, which the closed form and the balance are about |
| IdcSelector.ClosedForm | src/idc/idc_client_service/idc_client_service.cpp:232-253 | from any reachable indices, call i takes peer (peer + i) mod P and its connection (at + i div P) mod H |
| IdcSelector.ClosedFormFromStart | src/idc/idc_client_service/idc_client_service.cpp:232-253 | from fresh indices, call i takes connection (i div P) mod H of peer i mod P |
| IdcSelector.Balance | src/idc/idc_client_service/idc_client_service.cpp:232-253 | over P * L calls, L a multiple of H, each of the peer's H connections is chosen exactly L / H times, from any reachable indices |
| IdcSelector.EvenWithinPeer | src/idc/idc_client_service/idc_client_service.cpp:232-253 | after any number of calls two connections of one peer differ by at most one choice |
| UpdateUserService.UpdateUserService.OnPorposal | src/vbh/cc/plugin/cc_update_user_demo_service/cc_update_user_demo_service.cpp:33-55 | a session name in use is refused with -1 and the new object freed; otherwise the object is mapped, its timer armed and the user asked for |
| UpdateUserService.UpdateUserService.Deallocate | src/vbh/cc/plugin/cc_update_user_demo_service/cc_update_user_demo_service.cpp:44 | an object is freed only while it is allocated and its timer is not armed |
| UpdateUserService.UpdateUserService.CloseSession | src/vbh/cc/plugin/cc_update_user_demo_service/cc_update_user_demo_service.cpp:81-83 | the timer leaves the wheel, the name the map and the object the heap, and no other session is touched; without the cancel the object could not be freed |
| UpdateUserService.UpdateUserService.OnGetVbhUserRsp | src/vbh/cc/plugin/cc_update_user_demo_service/cc_update_user_demo_service.cpp:57-116 | every reply to a live session cancels its timer and closes it: stored and answered OK when it succeeded, decodes and names the user, an error answer otherwise; an unknown session changes nothing |
| UpdateUserService.UpdateUserService.OnGetVbhUserRspJson | src/vbh/cc/plugin/cc_update_user_json_demo_service/cc_update_user_json_demo_service.cpp:57-79 | a reply that decodes and names the user stores, cancels the timer, closes and answers OK; any other reply is passed over in silence |
| UpdateUserService.UpdateUserService.OnTimer | src/vbh/cc/plugin/cc_update_user_demo_service/cc_update_user_demo_service.inl:1-4 | the wheel fires a due timer, of which nothing else is assumed: its session is there, allocated and mapped, and goes |
| UpdateUserService.UpdateUserService.OnTimeOut | src/vbh/cc/plugin/cc_update_user_demo_service/cc_update_user_demo_service.cpp:119-124 | the session of a timer that has fired is unmapped and freed, and no other |
| UpdateUserService.Drive | src/vbh/cc/plugin/cc_update_user_demo_service/cc_update_user_demo_service.cpp:33-124 | any series of proposals, replies, ticks and firing timers through the service is the run of the machine |
| UpdateUserService.Serve | src/vbh/cc/plugin/cc_update_user_demo_service/cc_update_user_demo_service.cpp:33-124 | a service from its start through any run: wheel and heap hold the same sessions, and nothing was used after it was freed |
| UserSessions.StepAgrees | src/vbh/cc/plugin/cc_update_user_demo_service/cc_update_user_demo_service.cpp:33-124 | every step keeps mapped sessions, armed timers and allocated objects the same set, each of which could change without the others |
| UserSessions.TimerFindsItsSession | src/vbh/cc/plugin/cc_update_user_demo_service/cc_update_user_demo_service.cpp:119-124 | a timer that is due, whatever the wheel holds on to, belongs to an allocated session that is mapped under its name |
| UserSessions.SessionsAgree | src/vbh/cc/plugin/cc_update_user_demo_service/cc_update_user_demo_service.cpp:33-124 | in every run of either variant wheel, heap and map hold the same sessions, a timer that can fire finds its session allocated and mapped, and no session outlives 60 ticks |
| UserSessions.NothingDangles | src/vbh/cc/plugin/cc_update_user_demo_service/cc_update_user_demo_service.cpp:33-124 | in no run does a timer or a reply use a session that has been freed |
| UserSessions.StepKeeps | src/vbh/cc/plugin/cc_update_user_demo_service/cc_update_user_demo_service.cpp:33-124 | every step keeps the life of every session well formed |
| UserSessions.LifeOfEverySession | src/vbh/cc/plugin/cc_update_user_json_demo_service/cc_update_user_json_demo_service.cpp:33-87 | every session is open, was refused, timed out after exactly 60 ticks, was answered OK after storing the proposed user for an accepted reply naming it, or (object variant only) was answered with an error; nothing happens to it afterwards |
| UserSessions.AtMostOneOutcome | src/vbh/cc/plugin/cc_update_user_demo_service/cc_update_user_demo_service.cpp:57-124 | every session ever made is answered at most once and stores at most once, and an open one has not been answered |
| UserSessions.ReplyOutcome | src/vbh/cc/plugin/cc_update_user_demo_service/cc_update_user_demo_service.cpp:57-116 | what a reply does to a live session, for every reply: code 0 and the same key, whatever else the stored user holds, store the proposed user and answer 0; anything else answers -19, or, in the JSON variant, which does not look at the code, changes nothing |
| UserSessions.AnswerMeans | src/vbh/cc/plugin/cc_update_user_demo_service/cc_update_user_demo_service.cpp:57-116 | in every run a success answer follows a reply with the key the session was proposed with and comes with a store, and an error answer a nonzero code, a decode failure or another key |
| UserSessions.ChangeIsStored | src/vbh/cc/plugin/cc_update_user_json_demo_service/cc_update_user_json_demo_service.cpp:33-79 | an update that changes a user is stored and answered with success, in both variants |
| UserSessions.TimeCanAdvance | src/vbh/cc/plugin/cc_update_user_demo_service/cc_update_user_demo_service.cpp:119-124 | from every reachable state the timers that are due, fired one after the other on sessions that are there, let the clock tick again |
| UserSessions.FailureLeavesNothingIff | src/vbh/cc/plugin/cc_update_user_demo_service/cc_update_user_demo_service.cpp:33-55 | a proposal reports -1 for a name in use and the code of its request otherwise; one that reports failure leaves sessions, objects and timers as they were if and only if its name was in use |
| UserSessions.FailedProposalCanBeAnswered | src/vbh/cc/plugin/cc_update_user_demo_service/cc_update_user_demo_service.cpp:49-54 | a session whose request failed is still open, and a reply that names its user would be stored and answered |
| UserSessions.UnansweredWaits | src/vbh/cc/plugin/cc_update_user_demo_service/cc_update_user_demo_service.cpp:33-124 | from any reachable state, a session nobody answers (or whose replies the JSON variant passes over) stays as it is until its timer fires, exactly 60 ticks after it was made, and is then over without an answer |
| UserSessions.FailedProposalWaits | src/vbh/cc/plugin/cc_update_user_demo_service/cc_update_user_demo_service.cpp:49-54 | that holds for a proposal whose request failed, in any reachable state, once its caller hands on no reply for it |
| UserSessions.VariantsAgreeIff | src/vbh/cc/plugin/cc_update_user_json_demo_service/cc_update_user_json_demo_service.cpp:57-79 | the variants act alike on a live session if and only if the object variant accepts the reply |
| UserSessions.JsonTrustsIff | src/vbh/cc/plugin/cc_update_user_json_demo_service/cc_update_user_json_demo_service.cpp:57-79 | with an empty user as the reply to every failed query, all success answers of all runs of the JSON variant follow a query that succeeded if and only if an empty user does not decode |
| UserSessions.ObjectTrusts | src/vbh/cc/plugin/cc_update_user_demo_service/cc_update_user_demo_service.cpp:57-116 | every success answer of the object variant follows a query that succeeded, whatever the replies |
| Cyclic.TurnsCount | src/mq/mq_common/type_array.inl:81-102 | a rotating index that may rest one past the end picks each of n items as often as the index passes it |
| Cyclic.HitsBalanced | src/idc/idc_client_service/idc_client_service.cpp:232-253 | any k steps of a rotating index hit each of n places k/n or k/n + 1 times |

## Left out

- TypeArray.TypeArray.Insert: asks its caller to stay below 2^32 - 64 elements, because the insertion that reaches that size wraps the capacity and copies into a block of size 0; `InsertKeepsIff` states this exactly.
- TypeArray.TypeArray.Delete: an element whose number belongs to another array is not accepted, because its number would be taken for a slot of this one.
- AgentService.AgentService.OnConnected: asks for the same bound as Insert, unless the forwarder is connected already or the connection is the scheduler's; an unknown forwarder is served as in a build without assertions.
- AgentService.AgentService.SendDscMsg: whether the transport accepts the message is not modelled, because the program only logs it.
- AgentService.AgentService.OnNetworkError: the failure is handed on to the transport's own handler, which is not part of this model.
- AgentService.AgentService.SendAll: stands for a caller that publishes repeatedly; the program itself has no such loop.
- IdcSelector.KernelSession.GetMcpHandler: requires that the peer whose turn it is has a connection and that the sessions are distinct objects; its array is read without a check, and where the sessions are filled is not part of this model.
- IdcSelector.KernelSession.GetMany: stands for a caller that asks repeatedly.
- IdcPeers.IdcClientService.LoadPeerInfo: the database and the allocation of handles are inputs.
- UserSessions.JsonTrustsIff: what an empty user decodes to is a parameter, because it is up to the codec, which is not part of this model.
- UpdateUserService.UpdateUserService.OnPorposal: the fields of a session that no handler reads (`m_updateUser`, `m_nRspNum`) and the fields by which the hash map links sessions are not modelled.
- UpdateUserService.UpdateUserService.OnTick: stands for the framework's timer wheel, which is not part of this model.
- The sessions the common chaincode service keeps for its callers (`src/vbh/cc/common/cc_service.cpp`): what they mean for the update-user sessions is stated as a hypothesis where it is used.
- MqCallbackService.CallbackService.OnPublish: the ownership of the message buffer, which the handlers set to NULL after use, and message encoding are not modelled.
- Listening and connecting in answer to a network address message (`src/mq/p2p_mq/mq_callback_service.cpp:99-131`): sockets and connections are the transport's.
- The forwarder's broadcast walk (`src/mq/mq_server/mq_forwarder_service/mq_forwarder_service.cpp:322-333`) is the scan of the type array with nothing to drop; the rest of the forwarder and the scheduler is not modelled.
- The IDC client's request encoding, encryption and request sessions: foreign calls and a map that is never drained.
- Sockets, heartbeats, the reactor and dispatcher, logging, plugins, databases, dialogs, the other SDKs, the block chain services and the demo programs.
