# Verified model of Kuzzle's cluster replication and concurrent utilities

Kuzzle nodes replicate their realtime rooms to each other. Each node numbers the sync messages it
publishes; every other node subscribes to it and replays its messages into a `State` that maps
rooms to nodes to subscriber counters. A joining node buffers messages, loads a snapshot from one
peer, drops what the snapshot covers and replays the rest. Around this core stand the resolution of
network splits, the overload scheduler of the API, a lock kept in Redis, and a few streaming and
concurrency utilities. This project models these parts in Dafny and proves what they are for.

`dafny verify dfyconfig.toml` checks everything.

## How the model is built

- Objects whose methods change fields are classes (`ClusterState`, `Subscriber`, `Publisher`,
  `Funnel`, `Mutex`, `BufferedPassThrough`, `PromisePool`, `PersistUser`, `Flatten`): each method is
  proved equal to a step of a pure specification, and the laws are proved about all runs of these
  steps. Loops of the source are loops here.
- `RealtimeView` is the value of the replicated state, with one function per operation.
  `Replication` gives the meaning of a message and of a whole log. `Cluster` is the step machine of
  joins, snapshots, deliveries, publications and evictions, and `Joining` follows a join on channels
  that lose nothing; `MessageOrder` is the id check alone; `Subscriber` ties the subscriber object to
  both.
- Asynchronous code is cut at its waits: what runs between two waits is one step, and runs are
  arbitrary sequences of steps.
- Clocks, random draws, executors, plugins and the answers of remote nodes are parameters.

## Assumptions

- Handling one sync message is one step, so a snapshot falls between two messages, and it is given
  by a node that has finished its own handshake.
- One room id always stands for one index, collection and filters (`defs` in the lemmas).
- A node publishes only what it can do itself: creation before subscription, no count below zero.
- In the step machine of `Cluster`, no heartbeat check ends the buffering and no eviction happens
  during `sync`; `CheckEndsBuffering`, `SlowHandshakeEvictsIff` and `SyncRevivesIff` say what happens
  otherwise.
- ID cards have distinct ids (they are stored under distinct keys).
- Channels need no assumption in `Cluster`: a message may be lost, repeated or reordered, only not
  invented.

## What the code does differently from what it promises

- `lib/util/wildcard.js:51-52`: the comment says matching elements are kept; the general path keeps
  the others. `MatchKeepsMeantIff` gives the exact cases in which the result is the intended one.
- `lib/cluster/node.js:410-421`: two isolated nodes with the same birthdate designate each other
  and both stay (`TwinsStay`). `AgreementIffDetermined` says exactly when all nodes conclude alike,
  whatever the orders in which they read the cards.
- `lib/cluster/node.js:387-390`: sizes are compared before dead nodes are dropped, so dead nodes in
  topologies can hide a split (`DeadNodeHidesSplit`) or make one up (`DeadNodesKillTheLastOne`).
  `SplitIffCountsDiffer` says exactly what is detected, `DetectionIsWrongIff` exactly when it is wrong.
- `lib/cluster/node.js:447`: the case said to never happen does (`RingHasNoIsolatedNode`).
  `enforceClusterConsistency` has no caller under `lib/`.
- `lib/cluster/node.js:608-612`: a peer that answers the handshake without being in the snapshot's
  list is played from the id of its answer. `UnlistedSyncIff` says exactly when the joiner then has
  its counters. In runs that give no node up and whose snapshots list no stranger, it is when the
  messages up to that id leave none (`UnlistedHasNone`); `StrangerIsWrong` is a run in which
  they leave one.
  A newcomer whose handshake request is handled late is played rightly exactly when the node has none
  of its counters (`GreetIff`).
- `lib/cluster/subscriber.js:171-186`: even when no message is lost, a joiner asks to leave when the
  snapshot is ahead of the first live message (`LosslessJoin`).
- `lib/cluster/subscriber.js:171-186`: `sync` ends in SANE even when the remote node was evicted
  meanwhile. `SyncRevivesIff` gives the exact condition on what was played. After an accepted eviction
  the socket is closed and nothing follows; after a malformed message it stays open, and the forgotten
  node comes back into the state with its next messages (`ForgottenComesBack`,
  `StaleMalformedComesBack`, `MalformedNextIsGap`).
- `lib/cluster/subscriber.js:684-711`: a heartbeat check ends the buffering, and messages put aside
  are no heartbeats: a handshake that lasts for two checks evicts the peer (`CheckEndsBuffering`,
  `TwoChecksEvictIff`, `SlowHandshakeEvictsIff`).
- `lib/cluster/subscriber.js:732-765`: the expected id moves on after a gap, so a stale first
  message followed by the right id is accepted (`StaleExample`); `ContiguousIffNotStale` is exact.
- `lib/cluster/publisher.js:322-326`: an unknown topic takes an id and then throws, and every
  subscriber later reports a gap (`NoHoleIffTopicsKnown`, `HoleIsNoticed`).
- `lib/api/funnel.js:214-223`: submitting again a request that waits, while a slot is free, blocks
  the queue (`SubmitKeepsInvIff`, `SecondSubmissionWedges`, `WedgedForGood`).
- `lib/util/async.ts:24-26`: for an empty list the caller gets `undefined` instead of a promise
  (`ReturnedPromise`).
- `lib/api/controllers/securityController.ts:1536-1540`: a failing deletion of the user in the
  rollback is only logged (`UserDeletionFailureIsSilent`).
- `lib/util/dump-collection.ts:47` and `lib/util/extractFields.js:48`: an empty path counts as no
  path (`EmptyKeyVanishes`), and a dotted key and nested ones can have the same path
  (`DottedKeyIsOverwritten`, `DottedKeyWritesOver`). `FlatIsLookupIffOrdered` says for which keys and
  which order of the leaves looking a path up is following its keys.
- `lib/util/bufferedPassThrough.ts:122`: all full blocks pushed are the same object, filled again
  afterwards. `HeldIsEachBlockIff` says exactly when a reader that looks at them at the end finds the
  blocks; `FirstBlockIsLost` is an input for which it does not.

## Model

| member | source | states |
|---|---|---|
| KoncordeCompat.CodecRoundTrip | lib/util/koncordeCompat.ts:41-61 | decoding an encoded pair gives the pair back exactly when neither name holds the separator |
| Replication.DefOfEncoded | lib/cluster/subscriber.js:290-316 | a room created from an encoded index gets its index and collection back, for separator-free names |
| KoncordeCompat.CodecInjective | lib/util/koncordeCompat.ts:41-43 | two pairs with separator-free index names never share an encoded name |
| KoncordeCompat.CodecCollision | lib/util/koncordeCompat.ts:41-43 | with a separator in the index name, two pairs do |
| KoncordeCompat.CollectionsAreThoseOfTheIndex | lib/util/koncordeCompat.ts:98-105 | the collections listed for an index are exactly those stored under it |
| KoncordeCompat.IndexesAreThoseOfThePairs | lib/util/koncordeCompat.ts:114-121 | the indexes listed are exactly those of the stored pairs, each once |
| RealtimeView.AddRoomKeepsCoherent | lib/cluster/state.ts:266-294 | adding a room keeps: each room has its one definition and a node, and Koncorde holds exactly the filters of the rooms |
| RealtimeView.RemoveRoomKeepsCoherent | lib/cluster/state.ts:316-337 | removing a node from a room keeps that agreement, the filter going with the last node |
| RealtimeView.SubscriptionsKeepCoherent | lib/cluster/state.ts:367-391 | subscription changes keep it |
| RealtimeView.RemoveNodeErases | lib/cluster/state.ts:398-402 | removing a node leaves no counter of it in any room and keeps the agreement |
| RealtimeView.LoadOfSerialized | lib/cluster/state.ts:433-459 | loading any serialization of a state into an empty one gives its rooms that have nodes, its counters, ids, strategies, and the filters of these rooms |
| RealtimeView.FullStateRoundTrip | lib/cluster/state.ts:416-459 | the round trip gives the very same state exactly when no room is without nodes and the filters are those of the rooms |
| RealtimeView.CoherentStateRoundTrip | lib/cluster/state.ts:416-459 | every state kept coherent survives the round trip |
| RealtimeView.LoadSucceedsIff | lib/cluster/state.ts:433-459 | a load meets a desync error exactly when a node is listed twice in a room or has a counter there already |
| RealtimeView.SumOverRemove | lib/cluster/state.ts:198-206 | the total of a room does not depend on the order in which its counters are summed |
| RealtimeView.CountIsTotal | lib/cluster/state.ts:198-206 | the total of a room is the sum over any list of its nodes, each once; nothing for an unknown room |
| RealtimeView.AddRoomCounts | lib/cluster/state.ts:266-294 | a node added to a room adds its first count to the room's total, and to no other |
| RealtimeView.SubscriptionCounts | lib/cluster/state.ts:68-86 | a newer message adds or takes away one and becomes the last one seen, one already seen changes nothing; below zero is an error |
| RealtimeView.RemovalCounts | lib/cluster/state.ts:316-402 | a node that leaves takes exactly its own subscriptions out of the totals |
| RealtimeView.ListsOneMore | lib/cluster/state.ts:349-365 | listing one more room adds its total under its index and collection and nothing else |
| ClusterState.RoomSubscriptions.Increment | lib/cluster/state.ts:68-76 | the counter moves only for a message id above the last one seen |
| ClusterState.RoomSubscriptions.Decrement | lib/cluster/state.ts:78-86 | same for unsubscriptions |
| ClusterState.RoomState.AddNode | lib/cluster/state.ts:143-155 | a node is added once; a second time is a desync error that changes nothing |
| ClusterState.RoomState.Decrement | lib/cluster/state.ts:175-192 | an unknown node or a count below zero is a desync error |
| ClusterState.RoomState.CountSubscriptions | lib/cluster/state.ts:198-206 | the result is the sum over the nodes |
| ClusterState.State.AddRealtimeRoom | lib/cluster/state.ts:266-294 | the object's new value is the specified one, filter included |
| ClusterState.State.GetNormalizedFilters | lib/cluster/state.ts:296-314 | the filters of a known room under its encoded index, nothing for an unknown one |
| ClusterState.State.RemoveRealtimeRoom | lib/cluster/state.ts:316-337 | the object's new value is the specified one |
| ClusterState.State.CountRealtimeSubscriptions | lib/cluster/state.ts:339-347 | the room's total, 0 for an unknown room |
| ClusterState.State.ListRealtimeRooms | lib/cluster/state.ts:349-365 | each room is listed under its own index and collection with its total, and nothing else is |
| ClusterState.State.AddRealtimeSubscription | lib/cluster/state.ts:367-378 | new value and desync errors as specified |
| ClusterState.State.RemoveRealtimeSubscription | lib/cluster/state.ts:380-391 | new value and desync errors as specified |
| ClusterState.State.RemoveNode | lib/cluster/state.ts:398-402 | the loop over the rooms removes the node from all of them |
| ClusterState.State.Serialize | lib/cluster/state.ts:416-431 | the result lists every room, counter and strategy once |
| ClusterState.State.LoadFullState | lib/cluster/state.ts:433-459 | loading is adding the listed rooms node by node, then the strategies |
| ClusterState.Transfer | lib/cluster/state.ts:416-459 | one object serialized and loaded into a fresh one has the same value |
| Replication.HandleIsLocal | lib/cluster/subscriber.js:290-376 | a node's message changes that node's counters by that message alone, and nobody else's |
| Replication.RemoveNodeIsLocal | lib/cluster/state.ts:398-402 | removing a node changes nobody else's counters |
| Replication.SharesDetermine | lib/cluster/state.ts:266-402 | two coherent states with the same counters for every node are the same state |
| Replication.RunIsSharewise | lib/cluster/subscriber.js:290-376 | an interleaving meets no desync error exactly when each node's own log is well formed, and then each node's counters are the result of its log alone |
| Replication.Convergence | lib/cluster/subscriber.js:290-376 | two interleavings of the same logs both fail, or give the same state |
| Replication.CounterIsBalance | lib/cluster/state.ts:68-86 | a counter exists exactly when the room was created and not dropped since, and it is subscriptions minus unsubscriptions since |
| Replication.RunCounts | lib/cluster/state.ts:161-192 | the same for every counter of every room after any interleaving |
| Replication.RunTotals | lib/cluster/state.ts:198-206 | in a run without desync error the total of a room is the sum of its nodes' subscriptions minus unsubscriptions since they created it |
| MessageOrder.NoGapNoHole | lib/cluster/subscriber.js:732-765 | as long as no gap is reported, what is handled is the block of ids that ends at the cursor, for any ids |
| MessageOrder.SyncOutcome | lib/cluster/subscriber.js:171-186 | playing the buffer handles a block that starts just after the sync id |
| MessageOrder.ContiguousIffNotStale | lib/cluster/subscriber.js:171-186 | all continuations handle one block of ids exactly when the first live id is above the sync id |
| MessageOrder.GapAheadIsFinal | lib/cluster/subscriber.js:732-765 | after a gap ahead nothing more is handled, whatever increasing ids follow |
| MessageOrder.LosslessGapIsFinal | lib/cluster/subscriber.js:732-765 | on a lossless channel any gap is final |
| MessageOrder.NoFalseAlarm | lib/cluster/subscriber.js:732-765 | on a lossless channel no gap is reported exactly when the buffer starts no later than the next id and live messages follow it without a hole |
| MessageOrder.StaleExample | lib/cluster/subscriber.js:732-765 | synced at 10, ids 5 then 12: 12 is handled although 11 never came |
| Cluster.SnapshotPlusReplay | lib/cluster/command.js:117-135 | in every run, for any channel: a node that plays a publisher's messages from known counters has asked to leave, or holds exactly the counters of the publisher's first `last` messages |
| Cluster.ListedIsKnown | lib/cluster/node.js:600-613 | counters are known for every publisher listed in a snapshot, directly or through other nodes' snapshots: only an unlisted peer, or a newcomer whose request is handled after it has joined, is played from unknown ones |
| Cluster.UnlistedSyncIff | lib/cluster/node.js:608-612 | a peer played from the id of its handshake answer has the right counters from there exactly when the node had those of its messages up to that id; without any in the snapshot, exactly when these messages leave none |
| Cluster.GreetIff | lib/cluster/command.js:140-158 | a newcomer is played from the right counters exactly when the node has none of it, which holds unless its request is handled after it has joined |
| Joining.UnlistedHasNone | lib/cluster/node.js:600-613 | in runs that give nobody up and whose snapshots list no stranger, a node has no counters of an unlisted peer, and plays it rightly exactly when the peer's messages up to the id of its answer leave none |
| Joining.StrangerIsWrong | lib/cluster/node.js:608-612 | a run in which an unlisted peer's messages leave a counter: the node plays the peer without having the peer's room |
| Joining.LosslessJoin | lib/cluster/subscriber.js:171-186 | without losses, messages a+1 to b put aside, the snapshot at k and messages b+1 to c live: the joiner asks to leave exactly when the snapshot is behind the first message put aside or does not join the first live one; otherwise it ends with the counters of all of them |
| Joining.CaughtUpAgree | lib/cluster/node.js:495-625 | two nodes that follow every other one, from known counters, up to its last message have the same rooms, counters and filters |
| Joining.HandshakeCanEnd | lib/cluster/node.js:597-624 | a joiner that has its snapshot can always end its handshake, giving up the peers that it does not play yet |
| Joining.ListedCanBePlayed | lib/cluster/node.js:600-613 | a joiner can play any peer that its snapshot lists, from the id listed, until it is live |
| Joining.CanPublishIff | lib/cluster/publisher.js:317-339 | a node can publish exactly what keeps its log well formed, and only heartbeats before it has joined |
| Joining.GreetingFollows | lib/cluster/node.js:278-304 | a newcomer is followed live from the id in its request, and nothing else changes |
| Joining.EvictionForgets | lib/cluster/node.js:330-354 | an evicted peer is followed no more and has no counter left, and nothing else changes |
| Cluster.NodesAgree | lib/cluster/node.js:495-625 | two nodes that have followed all publishers equally far, from known counters, have the same rooms, counters and filters |
| Cluster.AlwaysCoherent | lib/cluster/state.ts:266-402 | in every run, rooms and Koncorde filters agree on every node |
| Cluster.OnlyGapsDoom | lib/cluster/subscriber.js:201-235 | a genuine message makes a node ask to leave exactly when the id check reports a gap (an older id is skipped while the buffer is played) or when it is accepted and does not fit the counters; from known counters, exactly on a gap |
| Cluster.AcceptedIsHandled | lib/cluster/subscriber.js:219-234 | the next message of a well-formed log is handled without error and brings the counters one message further |
| Cluster.ActKeeps | lib/cluster/node.js:278-625 | every action of the step machine keeps the invariant |
| Heartbeat.SilenceByPhase | lib/cluster/subscriber.js:684-711 | SANE means silent for at most one delay, MISSING_HEARTBEAT for one to two |
| Heartbeat.EvictedIffSilent | lib/cluster/subscriber.js:684-711 | a check evicts exactly when the node has been silent for more than two delays |
| Heartbeat.SilentNodeIsEvicted | lib/cluster/subscriber.js:684-711 | a silent node is evicted within three delays |
| Heartbeat.ThreeSilentRoundsEvict | lib/cluster/subscriber.js:684-711 | three rounds in a row without any message evict the node |
| Heartbeat.TalkativeNodeStays | lib/cluster/subscriber.js:684-711 | a node heard between any two checks is never evicted |
| Subscriber.ClusterSubscriber.Listen | lib/cluster/subscriber.js:132-160 | a received message is put aside while buffering and processed otherwise; a failing or closed socket evicts the remote node if that is not done and ends the loop, and so does whatever arrives once evicted |
| Subscriber.ClusterSubscriber.Sync | lib/cluster/subscriber.js:171-186 | from any state, whatever arrives meanwhile, the result is that of processing all of it, in order while buffering and interleaved otherwise, and the state ends SANE; `listen` ends meanwhile only because of an eviction, for a buffering subscriber only when one more message arrives; if `listen` gets a turn for each message played, nothing of the stream is left behind |
| Subscriber.ClusterSubscriber.ProcessData | lib/cluster/subscriber.js:201-235 | new subscriber and node state for every kind of message, errors included |
| Subscriber.ClusterSubscriber.ValidateMessage | lib/cluster/subscriber.js:732-765 | accepts exactly what the id check accepts, and asks to leave exactly on a gap |
| Subscriber.ClusterSubscriber.HandleMessage | lib/cluster/subscriber.js:219-376 | what the handler of each topic does; a failing one makes the local node ask to leave |
| Subscriber.ClusterSubscriber.CheckHeartbeat | lib/cluster/subscriber.js:684-711 | the check of the heartbeat watch, skipped under eviction prevention |
| Subscriber.ClusterSubscriber.Dispose | lib/cluster/subscriber.js:716-725 | nothing when EVICTED; otherwise the subscriber ends EVICTED with its socket closed and its timer stopped |
| Subscriber.LocalNode.EvictNode | lib/cluster/node.js:330-366 | a known node leaves the list and the state, its subscriber is told to dispose of itself, others are told if asked, and too few nodes left deactivate this one; an unknown one changes nothing |
| Subscriber.EvictedProcessesNothing | lib/cluster/subscriber.js:201-205 | an evicted subscriber handles no message |
| Subscriber.EvictedHearsNothing | lib/cluster/subscriber.js:132-160 | once evicted, whatever the socket gives only ends the loop |
| Subscriber.DepartureMeans | lib/cluster/subscriber.js:256-281 | an accepted eviction of the local node tells it to shut down; one of another known node, or its shutdown, removes that node with its counters and nothing else, unannounced; an unknown one changes nothing |
| Subscriber.MalformedMeans | lib/cluster/subscriber.js:201-216 | a malformed message makes the subscriber give its node up, which is announced |
| Subscriber.SilenceMeans | lib/cluster/subscriber.js:684-711 | so do a failing socket and a second late check, and nothing else in a check |
| Subscriber.PlayedAccounts | lib/cluster/subscriber.js:201-281 | over any messages: the nodes left are those that no message gave up, the remote one is announced exactly for a malformed message, and the node is told to shut down exactly when an accepted message says that it was evicted |
| Subscriber.AsksToLeaveIff | lib/cluster/subscriber.js:219-235 | the node asks to leave, once, exactly for a gap and for an accepted message that cannot be handled |
| Subscriber.ProcessFollowsFeed | lib/cluster/subscriber.js:201-235 | over any messages the object's cursor is that of the id check, and a gap makes the node ask to leave |
| Subscriber.WireIsClusterProcess | lib/cluster/subscriber.js:201-235 | the object does to the state what the step machine says |
| Subscriber.SyncRevivesIff | lib/cluster/subscriber.js:171-186 | `sync` ends SANE with the publisher forgotten exactly when some message it played, after well-formed ones, is malformed or is an accepted eviction or shutdown of the publisher; its messages are then still received exactly when a malformed one came first and nothing ended `listen` meanwhile |
| Subscriber.ForgottenComesBack | lib/cluster/subscriber.js:132-186 | if its messages are still received after `sync`, the next ones of a forgotten publisher give it counters again, as if its log started there, until one does not fit and the node asks to leave; otherwise nothing it sends changes the node |
| Subscriber.StaleMalformedComesBack | lib/cluster/subscriber.js:201-216 | an input: a malformed message with an id already seen, then a room with the next one |
| Subscriber.MalformedNextIsGap | lib/cluster/subscriber.js:201-216 | if the malformed message has the next id, the one after it makes the node ask to leave |
| Subscriber.SyncIsActions | lib/cluster/subscriber.js:171-186 | a whole `sync` of messages other than evictions is begin, drain once per message, end of the step machine |
| Subscriber.ListeningIsDelivering | lib/cluster/subscriber.js:132-160 | a turn of `listen` does to a subscriber what `Deliver` does in the step machine: put aside in order while buffering, processed once live |
| Subscriber.CheckEndsBuffering | lib/cluster/subscriber.js:684-711 | a check ends the buffering exactly when eviction is not prevented, late or not; the next message then counts before `sync` |
| Subscriber.PreventedCheckIsHeartbeat | lib/cluster/subscriber.js:684-692 | under eviction prevention a check counts as a heartbeat and does nothing else |
| Subscriber.TwoChecksEvictIff | lib/cluster/subscriber.js:697-711 | two checks evict the peer of a buffering subscriber exactly when both find it late |
| Subscriber.SlowHandshakeEvictsIff | lib/cluster/subscriber.js:684-711 | whatever is put aside before the first check and comes between the two, the second evicts the peer exactly when eviction is prevented at neither, the first finds it late, and the second does with respect to the last accepted message |
| Subscriber.SlowHandshakeEvicts | lib/cluster/subscriber.js:684-711 | in particular, live messages beyond the next id do not prevent that eviction |
| SplitElection.SameSplit | lib/cluster/node.js:387-406 | sorted lists are equal exactly when the same nodes are seen |
| SplitElection.ElectIsElected | lib/cluster/node.js:381-464 | for cards in any order, the lists compute the election as it is meant on sets, and there is none exactly without a split |
| SplitElection.AgreementIffDetermined | lib/cluster/node.js:381-464 | any two nodes, each reading its own card last, conclude on the same nodes whatever their orders exactly when the youngest isolated nodes are in one split or, without isolated nodes, the youngest node with the least id is the same in all eligible splits that hold some of the youngest |
| SplitElection.DistinctBirthdatesDetermine | lib/cluster/node.js:449-454 | distinct birthdates leave no tie that matters |
| SplitElection.NodesConcludeAlike | lib/cluster/node.js:381-464 | two nodes reading the cards in different orders conclude on the same nodes |
| SplitElection.ElectedAreAlive | lib/cluster/node.js:423-464 | some node is designated, and only nodes that have a card |
| SplitElection.SurvivalCondition | lib/cluster/node.js:428-464 | all nodes are designated exactly when the smallest split is alone of its size and holds them all |
| SplitElection.HealthySplits | lib/cluster/node.js:384-408 | without dead nodes in topologies, a split is recorded exactly when some node does not see every other one |
| SplitElection.HealthySurvival | lib/cluster/node.js:410-464 | then at least one node leaves and at least one stays |
| SplitElection.ClusterOutcome | lib/cluster/node.js:375-475 | for the whole cluster, each node with its own order and no tie that matters, whatever dead nodes topologies name: nobody leaves exactly without a recorded split, and all leave exactly when the smallest split is alone of its size and holds them all |
| SplitElection.SplitIsResolved | lib/cluster/node.js:375-475 | without dead nodes in topologies: nobody leaves if everybody sees everybody, otherwise some leave and some stay |
| SplitElection.EnforceClusterConsistency | lib/cluster/node.js:375-475 | the loops compute that decision for this node |
| SplitElection.TwinsStay | lib/cluster/node.js:449-454 | two isolated nodes born together both stay |
| SplitElection.SplitIffCountsDiffer | lib/cluster/node.js:384-408 | whatever dead nodes topologies name, a split is recorded exactly when some node names other than as many dead nodes as it misses existing ones |
| SplitElection.DetectionIsWrongIff | lib/cluster/node.js:384-408 | exactly when a split goes unnoticed, and exactly when one is seen where there is none |
| SplitElection.DeadNodeHidesSplit | lib/cluster/node.js:387-390 | an input for which a split is missed |
| SplitElection.DeadNodesKillTheLastOne | lib/cluster/node.js:387-390 | an input for which one is made up: the only node left shuts down |
| SplitElection.RingHasNoIsolatedNode | lib/cluster/node.js:440-446 | a split without isolated nodes exists |
| Publisher.NothingLostOrOvertaken | lib/cluster/publisher.js:349-371 | sent, outstanding, rest of the batch and buffer are, in order, all accepted messages; at most one send is outstanding |
| Publisher.ReadyHasSentAll | lib/cluster/publisher.js:349-383 | a ready publisher, and so a closed one, has sent all it accepted |
| Publisher.CompletionsDrain | lib/cluster/publisher.js:349-371 | without new calls, as many completions as pending messages send them all |
| Publisher.OpenAcceptsAll | lib/cluster/publisher.js:317-339 | while the socket is open every call with a known topic is accepted, and every call takes one id |
| Publisher.DisposeCloses | lib/cluster/publisher.js:373-383 | disposing changes nothing while a message is being sent, and closes an idle publisher, which then refuses every call for good |
| Publisher.IdsGrow | lib/cluster/publisher.js:317-339 | accepted messages have growing ids, from 1 to the last id at most |
| Publisher.NoHoleIffTopicsKnown | lib/cluster/publisher.js:317-339 | their ids are 1, 2, … up to the last one exactly when no call had an unknown topic while the socket was open |
| Publisher.HoleIsNoticed | lib/cluster/subscriber.js:732-765 | a subscriber present from the start reports a gap exactly when the ids have a hole |
| Publisher.ClusterPublisher.Send | lib/cluster/publisher.js:317-339 | -1 when closed, an id burned by an unknown topic, otherwise the next id and the message in line |
| Publisher.ClusterPublisher.BufferSend | lib/cluster/publisher.js:349-371 | the message is put at the end of the line, and sent at once when nothing is |
| Publisher.ClusterPublisher.Resume | lib/cluster/publisher.js:356-370 | after a send: the next of the batch, or the next batch, or READY |
| Publisher.ClusterPublisher.PollDispose | lib/cluster/publisher.js:373-383 | the socket closes only when READY |
| Command.GetFullState | lib/cluster/command.js:168-208 | the first answer on the way round is kept, each node is asked at most once, and there is none exactly when no node answers |
| Command.FullTurn | lib/cluster/command.js:198 | the rotation meets each node once |
| Funnel.RunsKeepRequests | lib/api/funnel.js:176-277 | in every proper run each accepted request is started or waiting, exactly once, and the invariant of overload mode, queue, map, order and buffer size holds |
| Funnel.SubmissionMeans | lib/api/funnel.js:176-277 | which requests start, join the queue and where, change nothing or are refused, from the mode, the free slots, the room left and the waiting ids |
| Funnel.AcceptedAreSubmittedIff | lib/api/funnel.js:176-277 | in a proper run all submitted requests are accepted, in order, exactly when each one found the node running with a slot, or did not wait and found room or came from a debug session |
| Funnel.WelcomeRunsLoseNothing | lib/api/funnel.js:176-277 | every request submitted in such a run is started or waiting, exactly once |
| Funnel.RunningIsBalance | lib/api/funnel.js:658-703 | the counter is that of the executions begun and not ended |
| Funnel.ConsistentMeans | lib/api/funnel.js:247-258 | the queue holds the keys of the map, each once, debug requests first |
| Funnel.SubmitKeepsInvIff | lib/api/funnel.js:214-277 | a submission keeps the invariant exactly when it does not start a request whose id waits |
| Funnel.TickStarts | lib/api/funnel.js:986-1015 | one playback starts no more than the free slots, at least one if it can, and all it can when executors do not run at once |
| Funnel.AnyRequestMayCome | lib/api/funnel.js:176-277 | at any time a request that does not wait is started or waits exactly once if it is welcome, and changes nothing otherwise |
| Funnel.QueueDrains | lib/api/funnel.js:986-1033 | from any proper run of a running node, ends of executions and playbacks can start all that waits |
| Funnel.SecondSubmissionWedges | lib/api/funnel.js:214-223 | submitting the first waiting request again while a slot is free leaves an id without request at the front |
| Funnel.WedgedForGood | lib/api/funnel.js:994-1015 | from then on nothing that waits is replayed, whatever ordinary requests come |
| Funnel.Funnel.Throttle | lib/api/funnel.js:176-277 | start, delay or refusal, with the new queue, map and playback |
| Funnel.Funnel.PlayPendingRequests | lib/api/funnel.js:986-1033 | the loop replays waiting requests while they start, then reschedules itself or ends overload mode |
| Funnel.Funnel.Fire | lib/api/funnel.js:1017-1018 | a scheduled playback runs once |
| Mutex.Mutex.Lock | lib/util/mutex.ts:123-160 | followed for any number of attempts: those made, the sleep, success exactly when the last attempt succeeds, and still trying only when the loop goes on |
| Mutex.Mutex.Wait | lib/util/mutex.ts:210-236 | the same loop on whether the resource is free |
| Mutex.LastAttemptIsUnique | lib/util/mutex.ts:133-153 | the number of attempts is determined by their results |
| Mutex.NeverEndsIff | lib/util/mutex.ts:133-153 | the loop never ends exactly when no attempt succeeds and there is no timeout to exhaust |
| Mutex.AttemptsAreBounded | lib/util/mutex.ts:133-153 | with timeout T and delay d, at most ⌊T/d⌋ + 1 attempts, all of them on failure, and at most T of sleep |
| Mutex.RunsKeepInv | lib/util/mutex.ts:36-43 | over all interleavings, a section younger than the time to live holds the lock |
| Mutex.SectionsDoNotOverlap | lib/util/mutex.ts:123-190 | a critical section shorter than the time to live is over before any later one starts |
| Mutex.LateUnlockOverlaps | lib/util/mutex.ts:123-190 | without that bound they can |
| Mutex.UnlockIsOwn | lib/util/mutex.ts:36-43 | unlocking never removes another's lock |
| Mutex.AttemptSucceedsIff | lib/util/mutex.ts:135-140 | an attempt succeeds exactly when no open section is younger than the time to live |
| BufferedPassThrough.ChopIsTheOnlyCut | lib/util/bufferedPassThrough.ts:101-142 | the output is the only cut of the input into full blocks and a shorter non-empty last one |
| BufferedPassThrough.Arrival | lib/util/bufferedPassThrough.ts:107-141 | arriving bytes complete the current block or extend what is left |
| BufferedPassThrough.BufferedPassThrough.WriteToBuffer | lib/util/bufferedPassThrough.ts:64-87 | copies what fits after the bytes already there |
| BufferedPassThrough.HeldIsEachBlockIff | lib/util/bufferedPassThrough.ts:107-129 | what the buffer shows at the end is each of the blocks exactly when the input repeats itself with the block size as period |
| BufferedPassThrough.FirstBlockIsLost | lib/util/bufferedPassThrough.ts:122-129 | an input whose first block is written over |
| BufferedPassThrough.BufferedPassThrough.WriteChunkData | lib/util/bufferedPassThrough.ts:101-142 | blocks as they were when pushed and buffered prefix are the input so far, the end of the buffer is still that of the last block; the loop ends |
| BufferedPassThrough.BufferedPassThrough.WriteChunks | lib/util/bufferedPassThrough.ts:89-93 | several chunks count as their concatenation |
| BufferedPassThrough.BufferedPassThrough.Final | lib/util/bufferedPassThrough.ts:184-192 | the output, as it was when pushed, is the cut of the whole input, however it was split; the pushed objects still hold it exactly when the input is periodic |
| PromisePool.Concurrency | lib/util/async.ts:29-64 | at most n jobs at once, each started at most once and in order, some job in flight until the promise settles when n ≥ 1, and a promise that never settles when n ≤ 0 |
| PromisePool.PromiseOutcome | lib/util/async.ts:29-54 | rejects with the first failure, otherwise resolves when all succeeded with result j at place j |
| PromisePool.ReturnedPromise | lib/util/async.ts:23-64 | the caller gets a promise exactly for a non-empty list; it rejects exactly on a failure, resolves with all the values, and is pending with nothing in flight only when nothing may run |
| PromisePool.PromiseAllN | lib/util/async.ts:7-64 | the bootstrapped runner, and what is returned before any job ends |
| PromisePool.NothingStartsAfterRejection | lib/util/async.ts:29-54 | no job starts after a rejection |
| PromisePool.RunsAreShort | lib/util/async.ts:29-64 | the jobs started are those that ended and those in flight, never more than the list |
| PromisePool.StartCanSucceed | lib/util/async.ts:7-64 | from the start, with n ≥ 1, as many successes as there are jobs resolve the promise with all the values |
| PromisePool.AllCanSucceed | lib/util/async.ts:29-64 | from any run without rejection, with n ≥ 1, as many successes as there are jobs left resolve the promise with all the values |
| PromisePool.Runner.Resolve | lib/util/async.ts:31-46 | what the success callback does |
| PromisePool.Runner.Reject | lib/util/async.ts:47-54 | what the failure callback does |
| PromisePool.Runner.constructor | lib/util/async.ts:11-61 | the first jobs are started by the loop |
| PersistUser.ScanMeans | lib/api/controllers/securityController.ts:1452-1478 | the checks pass exactly when all strategies are known and none has credentials for the id |
| PersistUser.CreatedMeansComplete | lib/api/controllers/securityController.ts:1438-1523 | a normal return: the id was free, the user and exactly the requested credentials were added |
| PersistUser.CreatedIff | lib/api/controllers/securityController.ts:1438-1523 | a creation succeeds exactly when the id is free of a user and of credentials, all strategies are known, the storage works, and every validation and creation succeeds; the id is the given one, or the first one drawn that is not taken |
| PersistUser.RefusedBefore | lib/api/controllers/securityController.ts:1452-1486 | what is reported for an unknown strategy, existing credentials and a user that cannot be created, with nothing stored |
| PersistUser.FailureIsReported | lib/api/controllers/securityController.ts:1550-1576 | what is reported for the first failing validation or creation, with the errors of the failed deletions |
| PersistUser.WhatRollBackLeaves | lib/api/controllers/securityController.ts:1525-1548 | a rollback leaves exactly the credentials and the user whose deletion failed, and reports several messages exactly when a credential deletion failed |
| PersistUser.AllOrNothing | lib/api/controllers/securityController.ts:1438-1576 | a failed creation leaves the store unchanged exactly when every deletion it needed succeeded |
| PersistUser.UserDeletionFailureIsSilent | lib/api/controllers/securityController.ts:1536-1540 | the caller's outcome does not depend on the deletion of the user |
| PersistUser.SecurityController.PersistUser | lib/api/controllers/securityController.ts:1426-1576 | the method's new store and outcome are the specified ones |
| PersistUser.SecurityController.ChooseId | lib/api/controllers/securityController.ts:1441-1479 | the first drawn id that is not taken, or the given one |
| PersistUser.SecurityController.CreateCredentials | lib/api/controllers/securityController.ts:1492-1515 | credentials are created up to the first failure |
| PersistUser.SecurityController.DeleteCredentials | lib/api/controllers/securityController.ts:1525-1536 | all created credentials are deleted, errors collected |
| Wildcard.TestMeansGlob | lib/util/wildcard.js:35-49 | the expression built from a pattern is well formed and accepts exactly what the pattern means, repeated stars included |
| Wildcard.UnescapedIsRefused | lib/util/wildcard.js:41 | a syntax character is a literal only when it is escaped |
| Wildcard.CollapseAfterKeepsMeaning | lib/util/wildcard.js:35-41 | dropping repeated stars changes nothing |
| Wildcard.GlobOnOneLine | lib/util/wildcard.js:49 | on texts without line terminators a star stands for any text |
| Wildcard.ShortcutIffOnlyStars | lib/util/wildcard.js:44-47 | the shortcut is taken exactly for patterns made of stars |
| Wildcard.MatchKeepsMeantIff | lib/util/wildcard.js:26-53 | the items kept are those the pattern means exactly for patterns of stars, or when every item is meant only across a line terminator |
| Wildcard.OneLineItems | lib/util/wildcard.js:26-53 | without line terminators: exactly for patterns of stars or an empty list |
| Wildcard.Opposite | lib/util/wildcard.js:51-52 | the general path keeps exactly the items the pattern does not mean within a line |
| Flatten.FlattenersAgree | lib/util/dump-collection.ts:29-56 | flattening is collecting the pairs of the other function, the last one winning |
| Flatten.PairsAreBranches | lib/util/extractFields.js:40-63 | what is collected: each leaf with no non-empty key to ignore on its way, in order, under its dotted path |
| Flatten.PairsOfKept | lib/util/extractFields.js:40-63 | a path and value are collected exactly on account of such a leaf |
| Flatten.FlatIsLookupIffOrdered | lib/util/dump-collection.ts:29-56 | for any values, looking every path up in the flat object is following its keys if each leaf has plain keys (no dot, the first not empty unless alone), or a key with a dot and on its path a later leaf that the path leads to; and only then, unless two leaves hold the same value |
| Flatten.FlatIsLookupIffPlain | lib/util/dump-collection.ts:29-56 | where no two leaves have the same path: exactly when all leaves have plain keys |
| Flatten.DottedKeyIsOverwritten | lib/util/dump-collection.ts:47-54 | a dotted key followed by the nested ones it stands for is written over, and lookups agree all the same |
| Flatten.DottedKeyWritesOver | lib/util/dump-collection.ts:47-54 | the other way round, lookups agree only if the two values are the same |
| Flatten.EmptyKeyVanishes | lib/util/dump-collection.ts:47 | an empty key on top leaves no trace |
| Flatten.FlattenStep | lib/util/dump-collection.ts:37-56 | the loop fills the output object as specified |
| Flatten.ExtractFields | lib/util/extractFields.js:35-63 | the loop appends the specified fields to the shared list |

## Left out

- Message ids are unbounded: the wrap-around of 64-bit unsigned ids is not modelled.
- ZeroMQ, protobuf, Redis and Koncorde's matching: channels, an expiring key and a set of stored filters stand for them; a message missing its id and an unknown topic are kept as cases, bytes that cannot be decoded and failures to save the ID card are not.
- A node given up during the handshake keeps the counters the snapshot gave it (`Abandon`), as in the source.
- Auth-strategy messages are only part of the state's round trip: the last writer wins, so they do not commute.
- Handling a message is atomic, also when `listen` and `sync` both process messages; heartbeat checks do not fire in the middle of `sync`.
- A `receive` that fails because `dispose` closed the socket during `sync` is seen after `sync`; either order leaves the node as it is.
- The timeout and retry of the join handshake, the activity log, reactivation when enough nodes are back, and the ID-card worker.
- Iteration order of maps: loops over rooms and nodes take them in any order.
- Command.GetFullState: what the answers contain is not modelled; the handshake broadcast has no law of its own.
- Funnel: warnings, rate limits and the steps of an executor are left out; an executor neither throws nor submits requests before it returns, and its effect on the counter of running requests is a parameter. The counter itself has no bound.
- Mutex: the delay between the store and its answer; sections are counted from the moment the lock is stored.
- BufferedPassThrough: string encodings, destruction and back-pressure; what a reader sees between two pushes is between the two cases stated, at the push and at the end.
- PromisePool: jobs that throw instead of returning a promise, and callbacks that throw.
- PersistUser: `exists` checks that fail, plugins whose failing calls change something, and the refresh options.
- Flatten: the key `__proto__`, arrays and other objects are leaves, `extractMappingFields` and the dump classes are not modelled.
- `koncordeTest`, `loadInitialState`, rate limiter, pagination, memoization and other small utilities would only add easy members.
