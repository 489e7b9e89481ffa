# mqant verification model

mqant is a Go framework for microservices and MQTT gateways. This project models the parts of it whose
correctness rests on protocols and data structures, and proves what they keep:

- **NATS reply client** (`NatsClient.dfy`, `NatsDelivery.dfy`): callers, a timeout path, closers and one receiver goroutine hand
  reply channels to each other under one mutex, and replies reach the calls they answer.
- **Discovery** (`Discovery.dfy`, `ConsulWatcher.dfy`, `DiscoverySync.dfy`,
  `DiscoveryReports.dfy`): the Consul watcher turns snapshots
  into events, the selector cache applies them; together they must reproduce the snapshot.
- **Instance routing** (`Registry.dfy`, `LatestProofs.dfy`, `Routing.dfy`, `RoutingAnswers.dfy`,
  `RoutingApp.dfy`): which instance a logical server resolves to, over concurrent lookups and removals, and when
  none is found.
- **MQTT codec and write queue** (`MqttCodec.dfy`, `MqttReader.dfy`, `MqttWriter.dfy`, `MqttProofs.dfy`,
  `MqttFrames.dfy`, `MqttLists.dfy`, `MqttWire.dfy`, `PackQueue.dfy`): what is written has the standard's bytes, can
  be read back, and leaves the queue in lock order.
- **Timing wheel** (`TimeWheel.dfy`, `TimeWheelProofs.dfy`, `TimeWheelObject.dfy`): the hashed wheel refines a
  list of tasks with due ticks.
- **Ring-buffer queue** (`RingQueue.dfy`): refines a sequence at constant amortised cost.
- **Service and module lifecycle** (`Lifecycle.dfy`, `ModuleManager.dfy`): registration against shutdown, and
  the order in which modules start and stop.

`Wrappers.dfy` holds Option and `Arithmetic.dfy` facts about division.

Concurrent parts are step machines: a state, actions with an `Enabled` guard, an `Apply` function, an
invariant that every action keeps, and theorems about every finite interleaving. A section that the program
runs under a mutex, or one operation on a concurrent map, is one action; whatever the network, the clock, the
scheduler or the order of a map walk decides is an argument. Beside each machine stands the class with the
program's own fields, whose methods are proved equal to the machine's steps. Sequential code that works in
place is a class or a method with loops, proved equal to a specification function; the properties are then
proved of that function.

## Assumptions

- Call ids are fresh for each accepted call, and so are the callback channels (`CallOwnershipExact` says exactly
  what the ids are needed for). After `Unsubscribe` a subscription is not valid. `NextMsg` and registry calls return.
- Every node of an instance carries the same ServerID. `Lifecycle.ServerIdIsFixed` shows when the server keeps it so.
- All services of one discovery answer carry the name that was asked for.
- A module's Run either returns by itself or returns when it takes the close signal.
- Events and services are values. In Go the watcher and the cache share `*Service` pointers.
- MQTT header fields hold only as many bits as the standard gives them, so that or-ing them together is addition.
- The wheel's interval is at least a millisecond where a theorem needs it; below that an addition panics, which
  `TimeWheelObject.Timer.AddTask` models.

## Where the code differs from its comments, or surprises

- `selector/cache/cache.go:138` says an expired entry is returned as a last resort. Line 124 has overwritten it by
  then, so the answer is an empty list without an error. An entry also lives for two time-to-lives: the deadline
  stored at line 144 is compared with the time-to-live again at line 119. `CacheSelector.Selector.Get` states both.
- A live instance can be reported as gone in two ways: it changed its version, or a version that had kept no
  healthy node disappears, which the cache takes for the end of the whole service. `DiscoveryReports.LiveReportedIff`
  says exactly when, `DiscoverySync.LiveInstanceReported` and `DiscoveryReports.MovedInstanceReported` give the inputs.
- The entry is dropped, and not brought up to date, when every cached version loses all its nodes before the walk
  reaches a new node; this depends on the order of the walk (`DiscoveryReports.DroppedExactly`,
  `DiscoveryReports.WalkOrderDecides`).
- An answer without entries carries no service name, so it deletes nothing (`DiscoverySync.EmptyAnswerLeavesCache`).
- A service name with a NUL byte can make two logical servers share a key, and LatestServices then loses one of them
  (`LatestProofs.NulNameLosesServer`; exactly when, `LatestProofs.LatestIsComplete`).
- The MQTT reader takes at most three length bytes: lengths from 2^21 on, which section 2.2.3 of OASIS MQTT 3.1.1
  allows and the writer writes, are cut to 21 bits (`MqttProofs.LongLengthIsCut`).
- The SUBSCRIBE and UNSUBSCRIBE writers leave the two id bytes out of the length and write one length byte only.
  The package's own reader makes up for it below 128 bytes, but loses a short last topic
  (`MqttLists.SubscribeWritten` and `MqttLists.UnsubscribeWritten` say exactly what can be read back).
- A client identifier of zero bytes, which section 3.1.3.1 lets a server accept, is rejected (`MqttFrames.ConnectFrame`).
- A pack whose variable part has the wrong type, whose topic is nil or whose length is 2^28 or more panics under
  `writelock`, which is then never released (`PackQueue.HeldExactly`): nothing is accepted or sent afterwards
  (`PackQueue.NothingAfterwards`). A nil topic never gets to the nil check of `writeString`: its length is taken first.
- A flush error ends the flusher without closing the queue. If 256 tokens are then left, a writer that would close the
  queue waits before its send until something else does (`PackQueue.BlockedSendIff`).
- For CONNECT, PINGREQ and DISCONNECT the writer sends the type byte only, which is no frame (`MqttWire.FrameLaw`).
- The reader leaves the body of a PINGREQ or DISCONNECT in the stream (`MqttWire.SignalFrame`).
- `removeTask` removes the first task with the key only, because unlinking a list element ends the walk: a task with
  a reused key survives (`TimeWheelProofs.ReusedKeySurvives`; exactly when a removal is right, `RemovesKeyIff`).

## Model

| member | source | states |
|---|---|---|
| NatsClient.OwnershipHolds | rpc/base/nats_client.go:62-249 | In every interleaving no channel is closed twice or sent to after its close, every accepted callback is in exactly one of table, receiver, closed, withdrawn, and gets at most one reply, its own; at most one subscription is valid |
| NatsClient.ActionKeepsInv | rpc/base/nats_client.go:62-249 | The ownership invariant is kept by every action of callers, closers and receiver |
| NatsClient.HistoryIsStable | rpc/base/nats_client.go:68-75 | Between any two states of a run no reply or close is retracted, and nothing is sent on a callback once it is closed or withdrawn |
| NatsClient.StoppedIsFinal | rpc/base/nats_client.go:78-151 | Once stopped is closed, for ever: no valid subscription, empty table, every accepted callback closed or withdrawn, every Call and CallNR refused, no reply written |
| NatsClient.RankDecreases | rpc/base/nats_client.go:157-249 | After close each receiver step lowers the rank and no other action changes it |
| NatsClient.ReceiverNeverStuck | rpc/base/nats_client.go:157-249 | After close and before stopped the receiver always has a step to take |
| NatsClient.ShutdownIsBounded | rpc/base/nats_client.go:89-107 | Whatever callers do, after at most nine receiver steps from the close stopped is closed |
| NatsClient.DeliveryNeverBlocks | rpc/base/rpc_client.go:87-117 | With the one-slot callback of CallArgs a delivery never waits |
| NatsClient.CallArgsOutcome | rpc/base/rpc_client.go:102-117 | What CallArgs can see: a reply answers its call, "client closed" only on a closed client, and no callback is left unreadable once the receiver is gone |
| NatsClient.CallOwnershipExact | rpc/base/nats_client.go:113-134 | A call keeps every callback in one place if and only if its id names no entry with a callback |
| NatsClient.Client.Call | rpc/base/nats_client.go:113-134 | The locked section of Call, with its refusal, marshalling and publishing failures, is the machine's step and keeps the invariant |
| NatsClient.Client.CallNR | rpc/base/nats_client.go:140-151 | Accepted exactly when the client is open and the publish succeeds |
| NatsClient.Client.Delete | rpc/base/nats_client.go:62-67 | The timeout path takes the entry out and gives the callback up, nothing else |
| NatsClient.Client.Stop | rpc/base/nats_client.go:78-87 | Close is published, done closed and the subscription dropped exactly once |
| NatsClient.Client.DrainTable | rpc/base/nats_client.go:96-107 | The loop of finish, in any map order, closes each remaining callback once and empties the table |
| NatsClient.Client.Drain | rpc/base/nats_client.go:98-105 | The locked section of finish is the machine's step and keeps the invariant |
| NatsClient.Client.Take | rpc/base/nats_client.go:232-240 | The method is the machine's lookup, which `NatsDelivery.LookupTakes` describes |
| NatsClient.Client.RecoverSubscription | rpc/base/nats_client.go:186-225 | A failed NextMsg leaves, keeps or rebuilds the subscription without ever having two |
| NatsDelivery.ReplyIsDelivered | rpc/base/nats_client.go:227-249 | In every run a reply that arrives for a tabled call is delivered: when the receiver is next at the top of its loop, with the client open and the caller still waiting, the callback was sent exactly that message and closed once |
| NatsDelivery.CallGetsFirstReply | rpc/base/nats_client.go:113-249 | From call to answer: an accepted call with a callback gets the first reply that arrives under its id, if the client stays open and the caller keeps waiting |
| NatsDelivery.CallIsTabled | rpc/base/nats_client.go:113-134 | An accepted call is in the table under its id with its callback, still empty and open; no call touches the entry of another |
| NatsDelivery.LookupTakes | rpc/base/nats_client.go:232-244 | The lookup empties the entry of the reply's id and no other, and goes on to its callback; a reply without one is dropped |
| NatsDelivery.SendWrites | rpc/base/nats_client.go:241-246 | A delivery writes exactly the reply, which is still to be taken unless it was handed over, and then the callback is closed once |
| NatsDelivery.DeleteWithdraws | rpc/base/nats_client.go:62-67 | The caller that gives up removes its own entry and no other, and touches no channel |
| NatsDelivery.StopCloses | rpc/base/nats_client.go:78-87 | Stop closes done once and drops the subscription, and leaves table and callbacks to the receiver |
| NatsDelivery.StopIsSeen | rpc/base/nats_client.go:177-249 | A stopped client's receiver leaves its loop wherever it looks at done |
| NatsDelivery.ReceiverReads | rpc/base/nats_client.go:177-225 | While the client is open the receiver reads from the current subscription; a rebuilt one is new and valid, a garbled reply or a timeout changes nothing |
| NatsDelivery.ReceiverLives | rpc/base/nats_client.go:177-249 | In every run the receive loop is left only after the client or the connection was closed |
| NatsDelivery.TakenOnce | rpc/base/rpc_client.go:102-117 | Once a caller has taken its reply there is never another to take |
| Latest.LatestServices | registry/latest.go:7-43 | The two-pass loop computes the listing that keeps exactly the winning and the anonymous nodes, in order |
| LatestProofs.LatestIsMaximal | registry/latest.go:10-25 | The node kept for a (Name, ServerID) started no earlier than any of them, across versions, and on a tie no other has a lexicographically larger instance id |
| StringOrder.StrLeLexicographic | registry/latest.go:19-20 | The order of instance ids on a tie is the lexicographic one |
| LatestProofs.LatestIsUnique | registry/latest.go:27-35 | At most one node is kept per (Name, ServerID) |
| LatestProofs.LatestIsComplete | registry/latest.go:15-35 | Every (Name, ServerID) that occurs keeps a node if and only if no two of them share a map key |
| LatestProofs.NulFreeSeparates | registry/latest.go:15 | NUL-free names never share a key |
| LatestProofs.LatestKeepsAnonymous | registry/latest.go:12-14 | Nodes without ServerID are all kept, in order |
| LatestProofs.LatestListing | registry/latest.go:27-42 | The result lists the input's items in their order with only the losers left out |
| LatestProofs.LatestIdempotent | registry/latest.go:7-43 | Applying LatestServices twice changes nothing more |
| LatestProofs.LatestIgnoresOrder | registry/latest.go:19-24 | Two snapshots with the same nodes in any order and grouping pick, for each key, the same StartedAt and InstanceID; the same server when keys are separate |
| LatestProofs.NulNameLosesServer | registry/latest.go:15 | The two-service input on which LatestServices loses a logical server |
| CacheSelector.Selector.Update | selector/cache/cache.go:147-264 | The whole new state after an event: nothing for a service nobody looked up, else the patched entry, its deadline, and the nodes a Watcher is told |
| CacheSelector.Selector.Get | selector/cache/cache.go:83-145 | When the cache answers and what each registry answer leads to, with the two-time-to-lives rule and the empty answer on failure |
| CacheSelector.Selector.Reset | selector/cache/cache.go:394-398 | The entry of one service is dropped, all others stay |
| ConsulWatcher.GroupExact | registry/consul_watcher.go:57-109 | The grouping lists under each version exactly its non-critical entries, in order |
| ConsulWatcher.SnapshotListsAnswer | registry/consul_watcher.go:57-109 | The snapshot has exactly the versions of the answer, under each one node for every entry without a critical check, in order, and name and endpoints of the version's first entry |
| ConsulWatcher.EntriesAreNodes | registry/consul_watcher.go:69-107 | Both ways: every entry without a critical check is listed under its version with its id, start time, server, port, metadata and the service's address, or the host's when that is empty; every listed node comes from such an entry |
| ConsulWatcher.DiffAnnounces | registry/consul_watcher.go:134-164 | The creates and updates sent are exactly one kind for each version of the new snapshot: update when the old one listed it, create when not |
| ConsulWatcher.Watcher.ServiceHandler | registry/consul_watcher.go:51-187 | The events sent are the difference of the last snapshot and the new one, which lists the answer entry by entry and is remembered, for any order of the map walk |
| ConsulWatcher.Watcher.Handle | registry/consul_watcher.go:189-243 | New names are announced and watched unless their watch cannot be made, vanished ones forgotten and deleted service-wide |
| ConsulWatcher.AnnounceExact | registry/consul_watcher.go:189-243 | One announcement for each name, in order, without nodes |
| DiscoverySync.SyncExact | selector/cache/cache.go:147-264 | After a snapshot's events a surviving entry holds, under each version, the new nodes and then the cached ones neither snapshot knows |
| DiscoverySync.SyncAgreesExactly | registry/consul_watcher.go:111-186 | A surviving entry equals the new snapshot if and only if every cached node was known to one of the two snapshots |
| DiscoverySync.SyncFromOld | registry/consul_watcher.go:111-186 | An entry that held the old snapshot is, after the events in any version order, absent or equal to the new one |
| DiscoveryReports.SyncOutcome | registry/consul_watcher.go:111-186 | Which of the two: absent exactly when an old version without nodes is gone or every cached version is emptied before a new node arrives |
| DiscoveryReports.DroppedExactly | selector/cache/cache.go:243-250 | The same for every cache entry, whatever it held |
| DiscoveryReports.ReplacedIsDropped | selector/cache/cache.go:243-250 | The input: the only cached node is replaced, and the entry is dropped though the new snapshot has a node |
| DiscoveryReports.WalkOrderDecides | registry/consul_watcher.go:121-173 | Two snapshots of which one walk order drops the entry and the other brings it up to date |
| DiscoverySync.SyncRun | registry/consul_watcher.go:51-187 | Over any run of snapshots the entry is, after each, absent or that snapshot |
| DiscoverySync.SnapshotIsHealthy | registry/consul_watcher.go:86-108 | The remembered snapshot is exactly the healthy part of the answer |
| DiscoverySync.EmptyAnswerLeavesCache | registry/consul_watcher.go:57-187 | The handler given an answer without entries sends no event and keeps every real snapshot, so the cache keeps its nodes; that is right if and only if there were none |
| DiscoverySync.DiffDeletes | registry/consul_watcher.go:134-182 | Deletes name only instances that vanished from their version; one is service-wide if and only if an old version without nodes is dropped |
| DiscoverySync.ReportsOnlyGone | selector/cache/cache.go:210-233 | A node that one event reports, unless it is service-wide, was cached, was known to the old snapshot and is gone from that version of the new |
| DiscoveryReports.ReportedExactly | selector/cache/cache.go:147-264 | Exactly which nodes the events of a snapshot report, for every entry and every two snapshots: the cached ones their version lost, and everything else when a service-wide delete finds the entry |
| DiscoveryReports.LiveReportedIff | selector/cache/cache.go:162-233 | An instance that the new snapshot lists is reported gone if and only if a cached node's id left its version for another, or a service-wide delete finds the entry holding new nodes |
| DiscoveryReports.LiveReportedFromOld | selector/cache/cache.go:162-233 | The same for a cache that holds the old snapshot, as a condition on the two snapshots |
| DiscoveryReports.MovedInstanceReported | registry/consul_watcher.go:175-182 | The concrete input on which an instance that changed its version is reported, without a service-wide delete |
| DiscoverySync.LiveInstanceReported | selector/cache/cache.go:162-174 | The concrete input on which a live instance is reported |
| DiscoverySync.PatchKeepsWellFormed | selector/cache/cache.go:177-263 | Versions stay distinct, instance ids distinct within a version, names equal to the key |
| DiscoverySync.CreateLosesNothing | selector/cache/cache.go:188-209 | Create and update lose no cached instance of any version and report none |
| DiscoverySync.PatchTouchesOne | selector/cache/cache.go:177-263 | An event leaves all other versions as they were; its own has the endpoints of the event after a create or update, and keeps its own after a delete |
| DiscoverySync.RenewedExactly | selector/cache/cache.go:142-263 | The time-to-live is renewed exactly by events with nodes that touch an entry which then remains |
| DiscoverySync.DeleteConserves | selector/cache/cache.go:162-263 | Nodes cached before a delete are, with multiplicity, those cached after it plus those reported |
| Routing.SessionInOnePlace | app/app.go:291-309 | Every session ever created is listed under its instance, held by one goroutine, or closed once; exactly one of these |
| Routing.LosersAreClosed | app/app.go:402-418 | With no lookup or removal under way, all losers of LoadOrStore races are closed and one session per instance is left open |
| Routing.RoutesNeverDangle | app/app.go:340-374 | A route points to a listed instance whose session carries the route's key |
| Routing.RouteIsSticky | app/app.go:291-309 | Over all interleavings a route stays until the watcher removes its instance |
| Routing.LookupIsSticky | app/app.go:340-376 | Two GetServerByID answers for one server differ only if the first instance was removed in between |
| Routing.AnswerIsRoute | app/app.go:379-399 | GetServerByID answers with the current route, GetServerByInstanceID with the asked instance and no other |
| Routing.FirstBindingIsLatest | app/app.go:354-374 | Whatever route is bound, its instance is a node of an earlier discovery's snapshot with that logical server, and of all such nodes there the maximum of (StartedAt, InstanceID) |
| RoutingAnswers.HitAnswers | app/app.go:340-382 | A routed server and a listed instance are answered at once; anything else goes on to discovery |
| RoutingAnswers.AskDoes | app/app.go:349-354 | A list of instances, and those discovered for a server, are all to be collected |
| RoutingAnswers.CollectDoes | app/app.go:402-405 | A listed instance gives its listed session, any other is to be made |
| RoutingAnswers.NewDoes | app/app.go:406-409 | A new session is of the instance and its server and is not listed yet; a failure ends a lookup of one instance and passes over one of many |
| RoutingAnswers.BindAnswers | app/app.go:354-374 | A candidate of the asked server is answered if it has a route or its instance is listed, with the route, which is bound to the instance if there was none; any other is passed over without a trace |
| RoutingAnswers.NoAnswerMeans | app/app.go:354-375 | In every run the candidate loop ends without an answer only when each candidate was of another server, or unlisted at its own try with no route then |
| RoutingAnswers.CollectsAll | app/app.go:438-460 | In every interleaving what a goroutine collects has a session of every instance it was to collect, unless no client could be made for it |
| RoutingAnswers.NothingFound | app/app.go:340-376 | From discovery to "nofound": for every discovered instance no client could be made, or its session was of another server, or it was unlisted at its own try with no route then |
| RoutingAnswers.StoreDoes | app/app.go:410-418 | After LoadOrStore the instance is listed; the session that was there first is the one taken |
| RoutingAnswers.LoserDoes | app/app.go:414-417 | The session that came second is closed once and the listed one is taken |
| RoutingAnswers.WatchDoes | app/app.go:291-309 | After Watcher the instance is in no list and no route, all others stay listed, and its session is in hand to be closed |
| RoutingAnswers.RemovedIsClosed | app/app.go:291-309 | The session taken out of the list is closed once |
| RoutingAnswers.RegisteredIsDiscoverable | app/app.go:350-353 | The id a module registers under goes on to discovery if and only if neither name nor id contains the separator |
| Routing.ActionKeepsInv | app/app.go:291-460 | Sessions, list, routes and what goroutines hold fit together after every action |
| RoutingApp.App.Watcher | app/app.go:291-309 | The instance leaves the list, its own route goes, another instance's route stays, and its session is closed |
| RoutingApp.App.LoadOrStore | app/app.go:410-412 | A listed instance keeps its session; otherwise the new one is listed |
| RoutingApp.App.TryCandidate | app/app.go:354-373 | The locked section for one candidate is the machine's binding step, which `RoutingAnswers.BindAnswers` describes |
| MqttReader.Reader.ReadLength | gate/base/mqtt/mqtt.go:331-345 | The length loop reads what the recursive definition says, at most three bytes |
| MqttReader.Reader.ReadPack | gate/base/mqtt/mqtt.go:305-614 | The reader's outcome and position on any bytes, malformed ones included, are those of the parser the theorems are about |
| MqttReader.Reader.ReadTopics | gate/base/mqtt/mqtt.go:512-544 | The topic loop and where it stops |
| MqttReader.Reader.ReadNames | gate/base/mqtt/mqtt.go:560-586 | The name loop, whose failed reads leave zero bytes |
| MqttWriter.RemainingLength | gate/base/mqtt/mqtt.go:808-824 | The four-byte buffer holds the base-128 encoding for lengths below 2^28 and overflows from there on |
| MqttWriter.Writer.DelayWritePack | gate/base/mqtt/mqtt.go:651-806 | Exactly the encoding is appended, or the beginning of it that a failing connection takes; a variable part of another type, a nil topic or a length of 2^28 or more panics, and leaves the header byte written |
| MqttProofs.LengthRoundTrip | gate/base/mqtt/mqtt.go:331-345 | Every length below 2^21 is read back from its encoding, which is taken exactly, whatever follows |
| MqttProofs.LongLengthIsCut | gate/base/mqtt/mqtt.go:331-345 | From 2^21 on the reader stops one byte early with the length modulo 2^21 |
| MqttProofs.PublishRoundTripExact | gate/base/mqtt/mqtt.go:437-467 | A written PUBLISH is read back as it was if and only if it is in range: topic 1 to 65535 bytes, id of 16 bits and 0 at QoS 0, retain 0, length below 2^21 and within the maximum |
| MqttProofs.AckRoundTrip | gate/base/mqtt/mqtt.go:468-559 | PUBACK, PUBREC, PUBREL, PUBCOMP, SUBACK and UNSUBACK are read back as written and take exactly their bytes |
| MqttProofs.StreamRoundTrip | gate/base/mqtt/mqtt.go:305-604 | Any list of in-range packs written one after the other is read back as that list, and every byte is used |
| MqttFrames.SubscribeFrame | gate/base/mqtt/mqtt.go:512-544 | A conforming SUBSCRIBE frame gives back all its topics and is taken exactly |
| MqttFrames.TopicsAt | gate/base/mqtt/mqtt.go:522-544 | The loop counter that is two too high never makes the reader read on or stop early |
| MqttFrames.UnsubscribeFrame | gate/base/mqtt/mqtt.go:560-586 | A conforming UNSUBSCRIBE frame gives back all its names and is taken exactly |
| MqttFrames.ConnectFrame | gate/base/mqtt/mqtt.go:354-436 | A conforming CONNECT frame is read back whole and taken exactly if its identifier has 1 to 64 bytes, and rejected otherwise |
| MqttLists.SubscribeWritten | gate/base/mqtt/mqtt.go:732-757 | A written SUBSCRIBE is read back by this package as it was and taken exactly if and only if its length is below 128 and within the maximum, its last topic is not empty, its id has 16 bits and retain is not set |
| MqttLists.UnsubscribeWritten | gate/base/mqtt/mqtt.go:770-792 | The same for UNSUBSCRIBE, whose last name needs two bytes |
| MqttFrames.FlagsRoundTrip | gate/base/mqtt/mqtt.go:281-302 | The connect flags come back from their byte |
| MqttWire.FrameLaw | gate/base/mqtt/mqtt.go:651-806 | Every pack the writer accepts, but the two list types, is sent as one type byte, the base-128 length of what follows in at most four bytes, and exactly that body, byte by byte, if and only if its type has a body; CONNECT, PINGREQ, DISCONNECT and the reserved types give one byte, which is no frame |
| MqttWire.ConnackBytes | gate/base/mqtt/mqtt.go:665-673 | A CONNACK is 0x20, 2, the reserved byte and the return code |
| MqttWire.PingrespBytes | gate/base/mqtt/mqtt.go:651-806 | A PINGRESP is 0xD0 and 0 |
| MqttWire.LengthSpells | gate/base/mqtt/mqtt.go:808-824 | What is written for a length spells it in base 128, least significant digit first, with the top bit on all bytes but the last |
| MqttWire.OneSpelling | gate/base/mqtt/mqtt.go:808-824 | No other field without leading zero digits spells that length |
| MqttWire.SkippedFrame | gate/base/mqtt/mqtt.go:602-610 | A frame of a type the reader has no case for is taken whole and its body dropped |
| MqttWire.SignalFrame | gate/base/mqtt/mqtt.go:598-601 | A PINGREQ or DISCONNECT frame is taken whole if and only if it has no body; a body is left to be read as the next frame |
| MqttWire.AckFrame | gate/base/mqtt/mqtt.go:468-597 | Any frame of an acknowledgement type is taken, whole and with what its body says, if and only if the body has the one length allowed |
| MqttWire.ConnectAccepted | gate/base/mqtt/mqtt.go:354-436 | Whatever bytes come, an accepted CONNECT has an identifier of 1 to 64 bytes and declares a length that covers its protocol name and its texts as the reader counts them |
| MqttWire.NothingLeft | gate/base/mqtt/mqtt.go:394-436 | When the will has used up what the reader thinks is left, user name and password are not read, whatever the flags say |
| MqttWire.PublishAccepted | gate/base/mqtt/mqtt.go:437-467 | Whatever bytes come, an accepted PUBLISH names a topic, has room for its id and carries exactly the payload bytes that the declared length leaves |
| PackQueue.ActionKeepsInv | gate/base/mqtt/pack_queue.go:101-213 | Byte conservation, pending wakeups, token bound and who closes are kept by every step |
| PackQueue.BytesInLockOrder | gate/base/mqtt/pack_queue.go:123-155 | In every run, while the connection is whole and no writer panicked under the lock, bytes sent plus bytes buffered are the encodings of the accepted packs in lock order; after that, what was sent is a prefix of those and of one cut pack |
| PackQueue.PeerReadsAccepted | gate/base/mqtt/pack_queue.go:123-155 | A peer that reads an emptied queue with no error or panic gets exactly the accepted packs in lock order |
| PackQueue.WakeupNeverLost | gate/base/mqtt/pack_queue.go:101-155 | In every run: while connected, fch open, the connection whole, the lock not held by a panicked writer and bytes buffered, a token is in fch, or a writer stands before its send, or the flusher has one and has not flushed |
| PackQueue.FlushIsNear | gate/base/mqtt/pack_queue.go:101-120 | In such a state one to four steps that are possible now send every buffered byte and leave the connection whole: the flusher's own, after at most one send of a writer that has already written |
| PackQueue.ThreeStepsFlush | gate/base/mqtt/pack_queue.go:101-120 | Every run that ends whole and connected and in which the flusher takes three steps has sent every byte that was buffered at its start |
| PackQueue.HeldExactly | gate/base/mqtt/pack_queue.go:124-147 | The lock stays held for good exactly when some admitted write on a whole connection has a pack with a variable part of another type, a nil topic, or a length of 2^28 or more |
| PackQueue.NothingAfterwards | gate/base/mqtt/pack_queue.go:124-148 | Once disconnected, or once a writer panicked under the lock, nothing is accepted or sent |
| PackQueue.WriteDoes | gate/base/mqtt/pack_queue.go:133-148 | A write on a connected, error-free queue with room and a whole connection adds the pack and exactly its encoding to the stream; a refused one changes nothing |
| PackQueue.SendDoes | gate/base/mqtt/pack_queue.go:148-154 | A sent token is counted, a failed write goes on to close, a closed channel too |
| PackQueue.CloseDoes | gate/base/mqtt/pack_queue.go:194-213 | The steps of a close record the error, close the channel and end the connection, in this order |
| PackQueue.AcceptedExactly | gate/base/mqtt/pack_queue.go:123-155 | In every run the accepted packs are exactly those of the admitted, uncut, writable writes of the run, in order |
| PackQueue.NothingAfterError | gate/base/mqtt/pack_queue.go:138-141 | After a write error was recorded no further pack is accepted in any run |
| PackQueue.FlushDoes | gate/base/mqtt/pack_queue.go:106-117 | The flusher sends all that is buffered and goes round, and leaves for good on a closed queue, a connection that broke before, or a flush that fails |
| PackQueue.BlockedSendIff | gate/base/mqtt/pack_queue.go:101-148 | A writer before a full channel is let on by the flusher alone if and only if the flusher will take a token: always while the queue is connected and whole, never once the flusher has gone |
| PackQueue.Queue.WriteLocked | gate/base/mqtt/pack_queue.go:133-147 | The locked section of WritePack, with its three refusals, is the machine's step, which `PackQueue.WriteDoes` describes |
| PackQueue.Queue.Send | gate/base/mqtt/pack_queue.go:148-154 | The token send, and what a failed write or a closed channel leads to |
| PackQueue.Queue.CloseStep | gate/base/mqtt/pack_queue.go:204-213 | The three unlocked assignments of Close, one at a time |
| PackQueue.Queue.Flush | gate/base/mqtt/pack_queue.go:106-117 | The flusher's locked section, with its two exits |
| TimeWheelProofs.FiresOnceOnTime | module/modules/timer/timingwheel.go:132-199 | A task added after any run fires on tick floor(delay/interval)+1 after its addition, unless removed, for any slot count and any further run, and its job is started exactly that once |
| TimeWheelProofs.RunsExactlyWhenDue | module/modules/timer/timingwheel.go:143-173 | A tick runs a task if and only if it is pending and due on that tick |
| TimeWheelProofs.RunsAtMostOnce | module/modules/timer/timingwheel.go:143-173 | A tick starts no job twice, and none that was started before or removed |
| TimeWheelProofs.StepKeepsInv | module/modules/timer/timingwheel.go:132-219 | Slot and circle of every task say its due tick after each tick, addition and removal |
| TimeWheelProofs.PlaceIsSteps | module/modules/timer/timingwheel.go:193-199 | Position and circle together are the number of whole intervals |
| TimeWheelProofs.WithinOneInterval | module/modules/timer/timingwheel.go:193-199 | With ideal ticks and whole milliseconds a task runs within one interval of its delay |
| TimeWheelProofs.AddKeepsIndex | module/modules/timer/timingwheel.go:176-190 | An addition keeps the key index exact if and only if its key is not in use |
| TimeWheelProofs.ExecKeepsIndex | module/modules/timer/timingwheel.go:143-219 | Over any run with distinct live keys, timer[key] = p exactly when one task with that key sits in slot p |
| TimeWheelProofs.OwnKeysKeepIndex | module/modules/timer/timingwheel.go:176-190 | Over any run that leaves the keys to the wheel the index stays exact for the first 2^63 - 1 additions |
| TimeWheelProofs.RemovesExactly | module/modules/timer/timingwheel.go:202-219 | With an exact index a removal takes out the task with that key and no other |
| TimeWheelProofs.RemovesKeyIff | module/modules/timer/timingwheel.go:202-219 | On any wheel, a removal takes out all pending tasks with the key and no others if and only if at most one is pending with it and it sits in slot timer[key] |
| TimeWheelProofs.ReusedKeySurvives | module/modules/timer/timingwheel.go:210-218 | The run in which a second task with a reused key stays pending after the removal |
| TimeWheelObject.Timer.TickHandler | module/modules/timer/timingwheel.go:132-140 | The in-place tick is the specified one, and starts the jobs that are due, in slot order |
| TimeWheelObject.Timer.ScanAndRunTask | module/modules/timer/timingwheel.go:143-173 | The scan of one slot: kept tasks, unindexed keys, started jobs |
| TimeWheelObject.Timer.AddTask | module/modules/timer/timingwheel.go:176-190 | The in-place addition, with generated keys and the division by zero |
| TimeWheelObject.Timer.RemoveTask | module/modules/timer/timingwheel.go:202-219 | The in-place removal of the first match |
| RingQueue.RunRefines | utils/queue.go:48-100 | Any run of Add, Remove, Peek and Get, negative and bad indices included, answers as a plain sequence and leaves its contents; capacity stays a power of two of at least 16 and unused cells nil |
| RingQueue.AmortisedCopies | utils/queue.go:32-45 | From a new queue n operations copy at most 2n elements |
| RingQueue.MaskIsRemainder | utils/queue.go:54-55 | Masking with the capacity less one is the remainder |
| RingQueue.ResizedIsValid | utils/queue.go:32-45 | A resize, growing or shrinking, keeps contents and shape and leaves room |
| RingQueue.StepPaysTwo | utils/queue.go:92-98 | Copies of one operation are covered by the credit it frees plus two |
| RingQueue.Queue.Resize | utils/queue.go:32-45 | The copy in one piece or in two fills the new buffer from the head on |
| RingQueue.Queue.Add | utils/queue.go:48-57 | The element is appended in place |
| RingQueue.Queue.Remove | utils/queue.go:86-100 | The front is taken in place, or the call panics on an empty queue |
| RingQueue.Queue.Get | utils/queue.go:72-82 | The element at an index counted from either end, or a panic |
| RingQueue.Queue.Peek | utils/queue.go:61-66 | The front element, or a panic |
| Lifecycle.OrderlyShutdown | service/service.go:30-161 | In every interleaving no registration follows a deregistration, every registration carries the same instance and start time, and a started module's RPC server is closed at most once and only after the deregister attempt |
| Lifecycle.DestroyedIsClosed | module/base/base_module.go:173-181 | When OnDestroy has returned, on whatever path, the RPC server was closed exactly once |
| Lifecycle.GoneIsQuiet | module/base/base_module.go:173-181 | After OnDestroy has returned, in any further run, nothing registers, deregisters or closes any more |
| Lifecycle.ShutdownEnds | service/service.go:138-161 | While OnDestroy waits, a bounded number of steps of the two goroutines alone lets it go on |
| Lifecycle.ShutdownIsBounded | service/service.go:30-161 | In every run of a started module the two goroutines take at most ten steps and one more per tick; a cancelled run that goes on until neither has a step left has stopped the service |
| Lifecycle.RankDecreases | service/service.go:138-161 | Each step of the two goroutines lowers the rank, by exactly one unless it leaves others out |
| Lifecycle.NeverStuck | service/service.go:138-161 | Once a started module is cancelled, one of the two goroutines can move until the service has stopped |
| Lifecycle.ServerIdIsFixed | server/rpc_server.go:127-135 | Unless the options change, every registration names the same logical server |
| Lifecycle.StartedIsRegistered | service/service.go:30-161 | In every run a started module was registered first of all; the registered flag says exactly whether a registration stands; the registry got exactly the run's calls, with one renewal for each tick; the loop goes on until Wait ends it; and stopping closes the server exactly after a successful deregistration |
| Lifecycle.CallsExactly | service/service.go:30-126 | From any state the registry gets exactly the calls of the run's actions in order: the start, every renewal, the deregistration |
| Lifecycle.RpcServer.ServiceRegister | server/rpc_server.go:94-179 | The node sent, and the registered flag afterwards |
| Lifecycle.RpcServer.ServiceDeregister | server/rpc_server.go:181-236 | The attempt, and the flag afterwards |
| Lifecycle.RpcServer.Stop | server/rpc_server.go:249-265 | The server is closed if it is still there, and never again |
| Lifecycle.RpcServer.StopService | service/service.go:102-126 | A failed deregistration leaves the RPC server to OnDestroy |
| ModuleManager.CheckModuleSettings | module/base/module_manager.go:105-125 | The check accepts exactly the configurations with globally unique ids and process ids unique per type, whatever the order of the walk |
| ModuleManager.CheckedRunsOnce | module/base/module_manager.go:61-77 | After the check no agent is listed twice |
| ModuleManager.RunsOnceIff | module/base/module_manager.go:63-77 | No agent is listed twice if and only if no registered module has two settings for the process |
| ModuleManager.RunsExactly | module/base/module_manager.go:62-77 | The run list holds every bootstrap module and exactly the registered modules with a setting for the process, in order of registration |
| ModuleManager.StartsEachOnce | module/base/module_manager.go:79-98 | Every module of the list, bootstrap or entry, is initialised, made ready and run exactly once, and nothing else happens |
| ModuleManager.InitThenReady | module/base/module_manager.go:79-92 | Each OnInit comes directly before its OnReady |
| ModuleManager.EntriesRunLast | module/base/module_manager.go:94-98 | When an entry module starts to run every module is ready |
| ModuleManager.BootstrapRunsFirst | module/base/module_manager.go:62-92 | A bootstrap module runs before any later module is initialised |
| ModuleManager.StopsInReverse | module/base/module_manager.go:128-135 | Modules are signalled and destroyed in exactly the reverse order |
| ModuleManager.NeverBlocksIff | module/base/module_manager.go:129-134 | No close signal blocks and no wait hangs, whatever the modules do, if and only if no agent is listed twice |
| ModuleManager.Manager.Select | module/base/module_manager.go:63-77 | The modules that run here, and the settings each gets |
| ModuleManager.Manager.Init | module/base/module_manager.go:58-100 | The check's verdict on the global configuration, the run list from the application's, when that has no duplicate, and the order of all calls |
| ModuleManager.Manager.Destroy | module/base/module_manager.go:128-135 | The order of all calls, and exactly when a signal blocks on a full channel or a wait hangs because two goroutines of one agent share a signal |

## Left out

- The NATS, Consul and etcd clients, sockets, TLS, websocket and HTTP: their answers are arguments.
- `rpc/base/nats_server.go` and `rpc/base/rpc_server.go`: dispatch by reflection.
- Panics inside library calls of the reply client; the recover at `rpc/base/nats_client.go:159-175` then has nothing to do.
- Sharing of `*Service` pointers: the watcher overwrites the nodes of an old service at `registry/consul_watcher.go:166-167`, and the cache appends to the event's nodes; both act on values here.
- Tag, metadata and version encodings of `registry/encoding.go`: opaque values.
- What a returned session does beyond naming its instance: the liveness test at `app/app.go:366` is by instance only.
- The partial pack that ReadPack returns together with an error.
- MQTT QoS 1 and 2 delivery: the code does not provide it.
- Fairness: progress is stated as steps that are possible and few, not as something a scheduler must do.
- Real time in the wheel: ticks are counted, and the jobs are only named.
- The linked list of a slot: a sequence, rebuilt by a scan and not unlinked element by element.
- Stop hooks of a service and the log lines: no branch depends on them.
- The modules' own OnInit, OnReady, Run and OnDestroy: the manager's calls to them are events.
- `utils/base62.go`, `utils/safemap.go`, selector filters and strategies: they would only add easy members.
