# A verified model of the MQTT push server

The repository is a broker for MQTT V3.1 (protocol name `MQIsdp`, version 3). This project models its core and proves
what it keeps over whole runs, and, where the code falls short of what it is for, exactly when it does.

| file | contents |
|---|---|
| `TimerList.dfy` | the sorted list of connection deadlines: on values (`TimerSpec`) and as linked nodes changed in place (`TimerList`) |
| `KeepAlive.dfy` | what the list operations do to order and contents (`DeadlineOrder`), and all runs of connect, activity, close and tick (`KeepAlive`) |
| `HashTable.dfy` | byte strings and the 26-bucket chained table, as linked nodes, against a map |
| `Subscribers.dfy` | a topic's subscriber list, whose tail pointer can go stale: on values (`SubscriberSpec`) and as linked nodes (`Subscribers`) |
| `Topics.dfy` | the topic table as linked objects: a `HashTable` of topics, each with its `SubscriberList` and its log |
| `PubSub.dfy` | topics, message logs and per-client queues: conservation and delivery over all runs |
| `Session.dfy` | connections, client ids and client records over all runs: who may be connected, where messages go |
| `Broker.dfy` | the handlers as methods that update the tables step by step, each proved against `PubSub` and `Session` |
| `Connections.dfy` | the timers of all slots with their `TimerList`, proved to do what `KeepAlive` says |
| `ServerEnv.dfy` | tables and deadlines together: the handlers, the tick and the packet loop as one server that performs its inputs, against `Server` |
| `RemainingLength.dfy`, `Codec.dfy`, `Frames.dfy` | length field, message bodies and whole frames on values |
| `Arrivals.dfy` | streams of frames, streams that break off, and streams that arrive in parts |
| `Packet.dfy`, `Stream.dfy` | the packet buffer with its moving position, reading from a socket in pieces, the packet loop, the sending loop |
| `MessageQueue.dfy` | a client's linked queue and the loop that turns it into bytes |
| `Outgoing.dfy` | messages as the bytes that are sent for them, and the messages that can be sent |
| `Server.dfy` | all inputs of the server (bytes, closed connections, ticks) and what they do to sessions and deadlines |
| `Outcomes.dfy` | what each input does to the whole server after any run, by its bytes, flags and lengths |
| `Delivery.dfy` | from the bytes that clients send to the bytes that clients receive, over all runs |
| `Bits.dfy`, `Sequences.dfy`, `Wrappers.dfy` | masks and shifts as arithmetic, inserting into and removing from sequences, prefixes of runs, `Option` |

## The code as written, and where it departs from its purpose

The model follows the code. Where a property the broker is for does not hold of the code, the model keeps the code's
behaviour, shows a run on which the property fails, and proves the condition under which it holds. Repaired forms are
modelled beside it and named as such.

- **Mutex.** `timer_init` asks for a default mutex, which its holder cannot lock again. `timer_tick` holds it while
  `shut_dead_conn` calls `remove_timer`, and `inc_timer` holds it while `adjust_timer` may call `add_timer`. The class
  `TimerList` has a constant `reentrant`; with `false` (the source) these calls end in `Blocked`, and the contracts of
  `TimerTick` and `IncTimer` say exactly when. `KeepAlive` has the same as a `Server`: `AS_WRITTEN`, `REENTRANT` (a
  mutex that its holder may lock again) and `REPAIRED` (also the tick). `KeepAlive.RunIff` says for each when a run
  neither hangs nor loses a deadline; `HangsAtFirstReap` and `HangsOnActivity` are runs on which the code as written
  hangs. Until it hangs, the list as written is the repaired one (`SameUntilItHangs`).
- **Tick.** `remove_timer` clears the links from which `timer_tick` then reads the rest of the list. The parameter
  `unlinks` says whether the callback unlinks its timer, as `shut_dead_conn` (src/server.c:195) does.
  `TickAsWrittenIff` gives the condition and `LostDeadline` a run, both with a mutex that may be locked again, because
  as written the server hangs there first. `TimerTickRepaired` takes the head from the list.
- **Unsubscribe.** The tail pointer is not moved when the last node is removed, and a list emptied this way leads to a
  null pointer when somebody unsubscribes again: `SubscriberSpec.RunIff`, `StaleIff` and `LostSubscriber` for the list,
  `PubSub.DeliveryIff` and `MissedMessage` for the messages. With `movesTail` the tail is always the last node
  (`RepairedRun`) and every client gets what its subscriptions owe it (`RepairedDelivery`). A run on which every step
  finds the tail where it may be used delivers as well (`FaithfulRunIff`, `GuardedDelivers`). No bytes that a client
  sends lead to `MissedMessage`: the handler of UNSUBSCRIBE fails before it takes anybody out of a list, so on every run
  of the whole server each client gets what its subscriptions owe it, as written too (`Delivery.ServedAsOwed`).
- **Two-byte integers.** The decoder multiplies the high byte by 16, the sender masks the length with `0xf0` and
  `0x0f`. `Rule` chooses between `AsWritten` and `Standard` (MQTT V3.1 section 2.5). `OwnFrameIff`, `PublishIff`,
  `ConnectIff`, `SubscribeIff` and `StreamIff` say when messages are nevertheless understood.
- **Arrivals.** A frame whose rest is still under way shuts the connection or fails an assertion: `CutStreamIff` and
  `TwoParts`. A stream that comes in several parts is read back exactly when every part ends where a frame does:
  `ArrivalsIff`. There is no repaired form of this.
- **Fixed header.** The shifts in `mqtt_fix_header` bind tighter than the masks: `FixHeaderIff`.
- **Remaining Length.** The decoder accepts a fifth byte, on which its `int` overflows: `OverflowIff`.
- **Sessions.** Closing leaves the client id and the client record in the slot, and a known client keeps the socket it
  was first seen on. Two connections can end up with one id (`RegisteredRunIff`, `TwoSessionsOneId`), and messages can
  go to a socket that is closed or belongs to somebody else (`RoutedIff`, `SentToClosedSocket`);
  `PublicationReachesIff` says when a live connection gets all its copies nevertheless. With `repaired` the
  slot is cleared on closing, the socket refreshed on CONNECT and the tail moved: `SessionsConsistent`, `StepRoutes`,
  `SessionDelivery`. A CONNECT that registers its id and is then refused leaves the id in use for ever, in both forms:
  `BurnedIff`, `BurnedForever`.
- **Missing password.** A CONNECT with a user name and no password fails an assertion of `check_auth`
  (src/redis_com.c:49): `Login.Passwordless`, which stops the server.
- **Missing returns.** `mqtt_str` ends without a return value (src/mqtt_packet.c:154-158); it is taken to succeed, as
  all its callers need. `mqtt_handler_connect` does so for a client without a user name (src/mqtt_handler.c:131-142),
  which gets no CONNACK and no session; what the caller makes of it is a parameter (`Anonymous(failed)`).

## Model

| member | source | states |
|---|---|---|
| TimerList.TimerList.AddTimer | src/mqtt_timer.c:21-50 | links a detached timer in at the position `AddIndex`, all others staying in place, links and ends of the list correct; blocked, with nothing changed, exactly when the mutex is held and not reentrant |
| TimerList.TimerList.AddTimerAfter | src/mqtt_timer.c:51-70 | the search from a member ends, and the timer stands before the first later one that is not earlier |
| TimerList.TimerList.LinkAfter | src/mqtt_timer.c:56-67 | links a timer in after a member, as the last node or in the middle, both directions right |
| TimerList.TimerList.LinkFirst | src/mqtt_timer.c:30-45 | links a timer in as the head of an empty or a longer list |
| TimerList.TimerList.AdjustTimer | src/mqtt_timer.c:71-96 | leaves a timer whose expiry was rewritten at the position `AdjustIndex`, whether it stays, leaves the head or leaves the middle; the list stays linked both ways |
| TimerList.TimerList.UnhookHead | src/mqtt_timer.c:83-87 | takes the head out of the doubly linked list |
| TimerList.TimerList.UnhookMiddle | src/mqtt_timer.c:90-93 | takes a middle node out of the doubly linked list |
| TimerList.TimerList.IncTimer | src/mqtt_timer.c:177-186 | refreshes a timer's deadline; on the default mutex the server blocks itself exactly when the head must move behind its successor |
| TimerList.TimerList.RemoveTimer | src/mqtt_timer.c:98-131 | removes exactly the given member and detaches it; a timer in no list changes nothing; an empty list is reported |
| TimerList.TimerList.Unlink | src/mqtt_timer.c:104-127 | the pointer changes at the head, at the tail and in between take out that node only |
| TimerList.TimerList.TimerTick | src/mqtt_timer.c:133-170 | reaps what `Tick` says, in order, leaves what it says as a linked list; on the default mutex it blocks exactly when a timer is due and the callback removes it |
| TimerList.TimerList.DropHead | src/mqtt_timer.c:152-165 | after the callback the list is the old one without its head, or empty if the callback has unlinked the head |
| TimerList.TimerList.TimerTickRepaired | src/mqtt_timer.c:133-170 | with the new head read from the list, reaps the due prefix, in order, keeps the rest, and leaves every reaped timer detached, so that its slot may be used again |
| DeadlineOrder.AfterIndexBounds | src/mqtt_timer.c:54-55 | the position found by the search: everything passed is earlier, what follows is not |
| DeadlineOrder.AddKeepsOrder | src/mqtt_timer.c:21-70 | adding keeps the deadlines sorted, and taking the new entry out gives the old list back |
| DeadlineOrder.AddIndexIs | src/mqtt_timer.c:21-70 | among equal deadlines a new entry goes behind an equal head and before all others |
| DeadlineOrder.RefreshContents | src/mqtt_timer.c:71-96 | a refresh moves one entry and leaves all others in place and order |
| DeadlineOrder.RefreshOrderIff | src/mqtt_timer.c:71-96 | a refresh keeps the list sorted if and only if the new deadline is not before the predecessor's |
| DeadlineOrder.RefreshIndexIs | src/mqtt_timer.c:71-96 | a refreshed entry stays if and only if it is the last or strictly before its successor; otherwise it goes behind its successor and all later ones strictly before it, and no further |
| DeadlineOrder.MovesHeadIff | src/mqtt_timer.c:83-88 | the head is taken out and added again if and only if its place changes |
| DeadlineOrder.RefreshIsReinsertion | src/mqtt_timer.c:83-95 | searching on from the old successor gives the order of deadlines that removing and adding again from the head would give |
| DeadlineOrder.TickSplits | src/mqtt_timer.c:140-167 | a tick that keeps the list splits it into what is due and what is not |
| DeadlineOrder.TickAsWrittenIff | src/mqtt_timer.c:152-165 | with the callback that removes its timer, a tick does the same if and only if nothing is due or there is a single timer; otherwise it reaps the head alone and loses the rest |
| KeepAlive.SpanIff | src/mqtt_handler.c:57-70 | the span is one and a half keep-alive times if and only if the time is at most 43690; 0 counts as 30 |
| KeepAlive.SpanAsWritten | src/mqtt_packet.c:225-226 | the keep-alive times the decoder can return never wrap in 16 bits |
| KeepAlive.StepAgrees | src/mqtt_handler.c:343-349 | every event keeps the repaired list equal to the connections watched one by one |
| KeepAlive.OpenAgrees | src/mqtt_handler.c:62-71 | CONNECT enters the connection with its own deadline |
| KeepAlive.ActivityAgrees | src/mqtt_handler.c:343-349 | activity moves that connection's deadline and no other |
| KeepAlive.ShutAgrees | src/mqtt_handler.c:280 | shutting a connection takes its deadline out, and does nothing if it has none |
| KeepAlive.ExpiryAgrees | src/mqtt_timer.c:133-170 | a tick that keeps the list closes exactly the connections whose own deadline has come |
| KeepAlive.EveryRunAgrees | src/mqtt_timer.c:21-186 | on every run of the repaired list with a clock that does not run backwards, the sorted list holds exactly the live connections with their own deadlines |
| KeepAlive.SameUntilItHangs | src/mqtt_timer.c:71-186 | every run of the list as written that has not hung is the run of the repaired list |
| KeepAlive.AgreesUntilItHangs | src/mqtt_timer.c:71-186 | so until it hangs the list as written, too, holds exactly the live connections with their own deadlines |
| KeepAlive.TickReapsExactlyTheSilent | src/mqtt_timer.c:133-170 | on every run of the repaired list, a tick reaps a connection if and only if it is live and silent for its span, which is one and a half keep-alive times for times from 1 to 43690 |
| KeepAlive.TickReapsInOrder | src/mqtt_timer.c:133-170 | a tick of the repaired list reaps none twice, and the longest overdue first |
| KeepAlive.ExpiryAgreesIff | src/mqtt_timer.c:152-165 | with a mutex its holder may lock again, a tick whose callback unlinks its timer keeps list and connections in agreement if and only if nothing is due or there is a single timer |
| KeepAlive.StepSafeIff | src/mqtt_timer.c:71-186 | for each form of the list, a step comes back and keeps the agreement if and only if it is safe: as written, no deadline is due and the head stays where it is |
| KeepAlive.RunIff | src/mqtt_timer.c:71-186 | a run never hangs and keeps the agreement throughout if and only if every step of the run is safe, as written, with another mutex and repaired |
| KeepAlive.ActivityHangsIff | src/mqtt_timer.c:71-96 | as written, activity hangs if and only if it is that of the connection at the head and its new deadline is not before the second one |
| KeepAlive.ExpiryHangsIff | src/mqtt_timer.c:133-170 | as written, a tick hangs if and only if the head is due |
| KeepAlive.HangsAtFirstReap | src/mqtt_timer.c:133-170 | a run as written that hangs at the first deadline |
| KeepAlive.HangsOnActivity | src/mqtt_timer.c:71-96 | a run as written that hangs on activity, with no deadline due |
| KeepAlive.LostDeadline | src/mqtt_timer.c:152-165 | with a mutex its holder may lock again, a run after which a live connection has no deadline |
| Connections.TracksInsert | src/mqtt_handler.c:69-71 | a timer put in keeps the list the list of the slots that have one |
| Connections.TracksRemove | src/mqtt_timer.c:98-131 | so does a timer taken out |
| Connections.TracksSuffix | src/mqtt_timer.c:140-167 | so do the timers reaped by a tick |
| Connections.Connections.Open | src/mqtt_handler.c:62-71 | enters the slot's timer as `KeepAlive` says, whatever the slot was used for before |
| Connections.Connections.Activity | src/mqtt_handler.c:343-349 | moves the slot's deadline as `KeepAlive` says; hangs exactly when it says so |
| Connections.Connections.Shut | src/mqtt_handler.c:280 | takes the slot's timer out, if it is in |
| Connections.Connections.OpenAndShut | src/mqtt_handler.c:57-75 | a slot whose CONNECT fails in the course of its reads has its timer put in and taken out again |
| Connections.Connections.Expiry | src/server.c:59-65 | a tick does what `KeepAlive` says and reports whom it reaps, in order; as written it hangs exactly when it says so |
| Strings.StringCmp | src/mqtt_string.c:40-52 | 0 exactly for equal strings, -1 otherwise |
| HashTable.CalcIndex | src/mqtt_hash.c:100-110 | the byte sum modulo 26, with no sum outside `int` on the way |
| HashTable.BucketNext | src/mqtt_hash.c:100-110 | the bucket is the byte sum modulo 26, byte by byte |
| HashTable.SumOverflowIff | src/mqtt_hash.c:102-107 | all keys of a length are summed inside `int` if and only if the length is at most 8421504 |
| HashTable.HashTable.Get | src/mqtt_hash.c:112-132 | map lookup |
| HashTable.HashTable.Set | src/mqtt_hash.c:24-66 | map update, for new and known keys, empty and colliding buckets |
| HashTable.HashTable.FindLast | src/mqtt_hash.c:45-52 | the walk ends at the node with the key, or at the last one if no node of the chain has it |
| HashTable.HashTable.LinkFirst | src/mqtt_hash.c:32-43 | a node in an empty bucket binds its key |
| HashTable.HashTable.LinkLast | src/mqtt_hash.c:57-63 | a node after the last one binds a new key, all other buckets as they were |
| HashTable.HashTable.Overwrite | src/mqtt_hash.c:53-55 | writing the data of a node rebinds its key only |
| HashTable.HashTable.Del | src/mqtt_hash.c:68-98 | removes the binding of the key and no other, and returns it |
| HashTable.HashTable.FindBefore | src/mqtt_hash.c:84-87 | the walk ends before the node with the key, or at the last one if no node of the chain has it |
| HashTable.HashTable.UnlinkFirst | src/mqtt_hash.c:77-82 | taking out the first node of a chain unbinds its key only |
| HashTable.HashTable.UnlinkNext | src/mqtt_hash.c:93-96 | taking out a later node unbinds its key only |
| HashTable.BindsHome | src/mqtt_hash.c:24-66 | a node is in the chain of its own key's bucket only, so chains are disjoint |
| HashTable.BindsAppend | src/mqtt_hash.c:57-63 | a node appended for a new key extends the bound map by that key |
| HashTable.BindsRemove | src/mqtt_hash.c:89-97 | a chain without a node binds the map without its key |
| Subscribers.SubscriberList.TopicSub | src/mqtt_message.c:191-217 | the pointers do what `Subscribe` says: appended at the tail, on a stale tail reachable from nowhere; with `movesTail` the tail is the last node |
| Subscribers.SubscriberList.TopicUnsub | src/mqtt_message.c:219-265 | unlinks the first node of the client and keeps the others in order; reports the null head that the code follows; with `movesTail` the tail stays the last node |
| Subscribers.SubscriberList.UnlinkFirst | src/mqtt_message.c:237-242 | the list without its first node; the tail pointer stays, unless it is repaired |
| Subscribers.SubscriberList.UnlinkNext | src/mqtt_message.c:254-258 | the list without one later node; the tail pointer stays, unless it is repaired |
| SubscriberSpec.StepIff | src/mqtt_message.c:191-265 | a step has its intended effect if and only if the tail may be used |
| SubscriberSpec.StaleIff | src/mqtt_message.c:237-257 | the tail goes stale if and only if the client's first node is the last node |
| SubscriberSpec.RunIff | src/mqtt_message.c:191-265 | a topic has the intended subscribers after every step of a run if and only if no step finds the tail stale when it matters |
| SubscriberSpec.RepairedRun | src/mqtt_message.c:237-257 | with the tail moved, every run has the intended subscribers and follows no null pointer |
| SubscriberSpec.LostSubscriber | src/mqtt_message.c:237-257 | a run that loses a subscriber, and a run that follows a null pointer |
| Topics.Apart | src/mqtt_message.c:42-75 | topics of different names share no object |
| Topics.Topic.AddToLog | src/mqtt_message.c:98-119 | appends to the topic's log and touches nothing else |
| Topics.TopicTable.Lookup | src/mqtt_message.c:26-41 | the topic bound to the name, if any |
| Topics.TopicTable.GetOrAdd | src/mqtt_message.c:26-75 | adds an empty topic under a new name; every other topic stays as it was |
| Topics.TopicTable.TopicSub | src/mqtt_packet.c:312-328 | subscribes in the linked list of that topic, created if need be; every other topic stays as it was |
| Topics.TopicTable.TopicUnsub | src/mqtt_message.c:219-265 | unsubscribes in the linked list of that topic, or follows the null pointer; every other topic stays as it was |
| Topics.TopicTable.LogMessage | src/mqtt_message.c:98-119 | logs a message with that topic, created if need be; every other topic stays as it was |
| PubSub.FlushConserves | src/mqtt_handler.c:178-256 | flushing any slot moves messages from a queue to the output, for every client in order and without loss |
| PubSub.DistributeAddsOne | src/mqtt_message.c:142-162 | distributing a message adds one copy for its client and nothing for others, even if the socket is stale |
| PubSub.DistributeAllAddsCopies | src/mqtt_message.c:121-129 | a publication adds one copy for each subscription a client holds |
| PubSub.PublishAddsCopies | src/mqtt_message.c:98-131 | a publication to a new or known topic adds, for every client, one copy per subscription to that topic |
| PubSub.StepTables | src/mqtt_message.c:26-131 | what each step does to the client table, to a topic's list and to its log |
| PubSub.TablesFollowTrace | src/mqtt_message.c:26-131 | on every run each topic has the subscribers that its own subscriptions make, and its log is exactly what was published to it |
| PubSub.StepConserves | src/mqtt_message.c:98-162 | every step but a publication leaves what a client has been and will be sent as it is |
| PubSub.Conservation | src/mqtt_message.c:98-162 | on every run, what was handed out for a client followed by its queue is what it is owed: each message once per subscription held at the time, in order |
| PubSub.DeliveryIff | src/mqtt_message.c:98-265 | every client gets what its intended subscriptions owe it throughout a run, and no null pointer is followed, if and only if every publication meets the nodes each client means to have and nobody unsubscribes from an emptied list |
| PubSub.FaithfulRunIff | src/mqtt_message.c:191-265 | all topics have the subscribers they are meant to have throughout a run if and only if every step finds the tail of its list where it may be used |
| PubSub.GuardedDelivers | src/mqtt_message.c:98-265 | a run of such steps delivers to every client what it is meant to get, at every point of the run |
| PubSub.RepairedDelivery | src/mqtt_message.c:98-265 | with the tail moved, every run delivers exactly that, to every client |
| PubSub.MissedMessage | src/mqtt_message.c:237-257 | a run as written on which a subscriber never gets a message |
| PubSub.FlushRoutes | src/mqtt_handler.c:186-248 | what a flush hands out goes to the slot whose node is the client it was waiting for |
| PubSub.PromptIff | src/mqtt_message.c:146-157 | a message is handed out at once if and only if the record of its client names a slot whose node is that client |
| PubSub.PublishRoutes | src/mqtt_message.c:98-162 | what a publication hands out goes to slots whose node is the client it was waiting for |
| PubSub.TargetsExact | src/mqtt_message.c:121-129 | a walk over the subscribers sends to exactly the slots, and leaves waiting exactly the clients, that the records, nodes and queues before it say |
| PubSub.PublishTargets | src/mqtt_message.c:98-162 | so does a publication |
| PubSub.ReachesIff | src/mqtt_message.c:98-162 | a publication sends a slot all that waits for its client and one copy per subscription if and only if it sends to no other slot with that client and leaves nothing waiting, by the state before it |
| PubSub.ReachesByRecordIff | src/mqtt_message.c:142-162 | where the record of every subscriber names a slot of its own, it does so if and only if the client's record names this slot |
| Session.SessionConservation | src/mqtt_handler.c:17-282 | conservation for all runs of sessions, as written and repaired |
| Session.SessionIsEngineRun | src/mqtt_handler.c:17-282 | every run of sessions is a run of topics and queues |
| Session.StepGoesOnIff | src/mqtt_handler.c:17-436 | a step other than UNSUBSCRIBE stops the server if and only if it is a publication with an empty string, a SUBSCRIBE with an empty topic, or a CONNECT with a free id of at most 23 bytes that lacks its password or is granted with an empty id |
| Session.BookIs | src/mqtt_handler.c:76-142 | on every run the slots bear, and the ids in use are, what a replay of the CONNECTs and closings says: an id is taken if it was free and has at most 23 bytes, a slot bears it if the CONNECT was granted |
| Session.AskedIs | src/mqtt_packet.c:303-336 | on every run what reaches a topic's list is what a replay of the events alone says: one subscription for each time that the topic occurs in a SUBSCRIBE, in order, and its end for each UNSUBSCRIBE |
| Session.DueIs | src/mqtt_message.c:98-131 | on every run a client is owed each message published, once for each subscription that it has asked for by then |
| Session.SessionDelivery | src/mqtt_handler.c:17-282 | on every run of the repaired code, and on every run as written without an UNSUBSCRIBE, each client is sent, or will be sent, exactly that |
| Session.NamesKnown | src/mqtt_handler.c:396-436 | a slot with a client id always has a record in the client table |
| Session.NamesAreNodes | src/mqtt_handler.c:396-436 | a slot's record is that of the client id it bears, as written and repaired |
| Session.LiveTimed | src/mqtt_handler.c:62-71 | a connection with a session has its timer in the list, as written and repaired |
| Session.ConnectDelivers | src/mqtt_handler.c:170-174 | a granted CONNECT sends all that was waiting, in order, to the new connection and empties the queue, as written |
| Session.StepConsistent | src/mqtt_handler.c:86-436 | every step of the repaired code keeps slots, ids and records consistent |
| Session.SessionsConsistent | src/mqtt_handler.c:86-436 | on every repaired run live connections have distinct ids in the set, records that point back at them and empty queues |
| Session.StepRoutes | src/mqtt_handler.c:178-256 | on every repaired run messages go to live connections of the client they were waiting for |
| Session.PublicationReaches | src/mqtt_message.c:98-162 | on every repaired run a publication sends each live connection one copy per subscription its client means to have, and nothing else |
| Session.PublicationReachesIff | src/mqtt_message.c:98-162 | as written and repaired, after any run: a publication reaches a connection in full if and only if it sends to no other slot with its client id and leaves nothing waiting; without an UNSUBSCRIBE, or repaired, the copies are those of the subscriptions the client means to have |
| Session.RoutesIff | src/mqtt_handler.c:178-256 | as written and repaired, a step hands out only to live connections of the right client if and only if every slot it sends something to has one, by the state before it |
| Session.RoutedIff | src/mqtt_handler.c:178-256 | the same for every run |
| Session.SentToClosedSocket | src/mqtt_message.c:146-157 | a run as written that hands a connected client's message to a closed socket |
| Session.RegisteredIff | src/mqtt_handler.c:258-282 | a step as written keeps ids distinct and registered if and only if it does not close a slot bearing the id of another live connection |
| Session.RegisteredRunIff | src/mqtt_handler.c:258-282 | the same for every run |
| Session.TwoSessionsOneId | src/mqtt_handler.c:258-282 | a run as written with two live connections of one client id |
| Session.BurnedIff | src/mqtt_handler.c:86-141 | an id registered by a CONNECT is left in use by nobody if and only if the CONNECT is not granted |
| Session.BurnedForever | src/mqtt_handler.c:86-95 | such an id stays so in every continuation, and no CONNECT with it is granted |
| Broker.Broker.SendClientMsg | src/mqtt_handler.c:178-256 | the loop over the queue does what `Flush` says and nothing else |
| Broker.Broker.DistributeMsg | src/mqtt_message.c:142-162 | does what `Distribute` says |
| Broker.Broker.TopicAddMsg | src/mqtt_message.c:98-131 | the walk over the subscribers does what `Publish` says, topic creation and log included |
| Broker.Broker.DistributeTo | src/mqtt_message.c:121-129 | the loop over the subscribers does what `DistributeAll` says |
| Broker.Broker.HandlerPublish | src/mqtt_handler.c:321-337 | does what the session step says |
| Broker.Broker.SetEnv | src/mqtt_handler.c:396-436 | ties slot and client record together and creates the record if need be |
| Broker.Broker.ShutDeadConn | src/mqtt_handler.c:258-282 | does what the session step says, as written and repaired |
| Broker.Broker.ConnAck | src/mqtt_handler.c:144-176 | ties slot and record together, then sends what was waiting |
| Broker.Broker.HandlerConnect | src/mqtt_handler.c:76-142 | all outcomes of CONNECT from the client id on do what the session step says |
| Broker.Broker.ShutAll | src/mqtt_timer.c:140-167 | shuts the connections that a tick reaps, one after the other, as a run of closings |
| Broker.Broker.HandlerSubscribe | src/mqtt_handler.c:351-394 | the loop over the topics subscribes the slot's client to each, in order; without a client id the connection is shut |
| Broker.Broker.SubscribeAll | src/mqtt_packet.c:303-336 | the loop over the topics performs one subscription after the other |
| Broker.Broker.TopicSub | src/mqtt_packet.c:312-328 | creates a missing topic and appends the subscription |
| ServerEnv.Env.HandlePublish | src/mqtt_handler.c:284-342 | session step and activity of the timer together; hangs exactly when the list says so |
| ServerEnv.Env.HandlePing | src/mqtt_handler.c:438-452 | activity of the timer |
| ServerEnv.Env.HandleConnect | src/mqtt_handler.c:57-142 | the timer goes in first, then the session step; a CONNECT that fails takes the timer out again |
| ServerEnv.Env.HandleSubscribe | src/mqtt_handler.c:351-394 | the session step; without a client id the connection is shut, timer included |
| ServerEnv.Env.ShutDeadConn | src/mqtt_handler.c:258-282 | session and timer end together |
| ServerEnv.Env.TimerHandler | src/server.c:59-65 | a tick ends the session of everybody it reaps |
| ServerEnv.Env.Connected | src/mqtt_handler.c:57-142 | a CONNECT whose client id has been read does to sessions and list what its outcome says, or stops the server exactly when an assertion fails |
| ServerEnv.Env.BrokenOff | src/mqtt_handler.c:57-75 | a CONNECT without a client id puts its timer in, and is shut |
| ServerEnv.Env.ConnectTurn | src/mqtt_handler.c:17-142 | CONNECT from its bytes, whatever they are |
| ServerEnv.Env.Conclude | src/server.c:73-174 | every other packet, from what its handler tells the packet loop |
| ServerEnv.Env.Turn | src/server.c:67-174 | one turn of the packet loop, from any bytes: sessions and list change as `Server.Do` says, and the server goes on exactly when it says so |
| ServerEnv.Env.Perform | src/server.c:59-236 | the same for every input: bytes that arrive, a connection that closes, a tick |
| ServerEnv.Env.Run | src/server.c:59-236 | over any list of inputs, as written and repaired, the handlers with their tables and linked deadline list reach exactly the sessions and deadlines of `Server.Serve`, and stop exactly where it stops |
| MessageQueue.MessageQueue.Enqueue | src/mqtt_message.c:145-154 | appends a node to the queue |
| MessageQueue.MessageQueue.SendAll | src/mqtt_handler.c:192-255 | the bytes of the frames of all queued messages, in order, and an empty queue |
| MessageQueue.SendOne | src/mqtt_handler.c:196-248 | the frame of one message |
| RemainingLength.LengthBytes | src/mqtt_packet.c:24-44 | the encoding of every length up to 268435455, and a failure for all others |
| RemainingLength.EncodeLenSize | src/mqtt_packet.c:33-42 | one to four bytes, each one more exactly when the length needs it |
| RemainingLength.LengthRoundTrip | src/mqtt_packet.c:64-87 | decoding what was encoded, with anything after it, returns the length and leaves the rest |
| RemainingLength.PrefixFree | src/mqtt_packet.c:22-57 | no encoding is a prefix of another |
| RemainingLength.CutShort | src/mqtt_packet.c:64-87 | an encoding that breaks off is found too short |
| RemainingLength.Shortest | src/mqtt_packet.c:22-87 | whatever bytes decode to a length, the encoder needs no more of them |
| RemainingLength.OverflowIff | src/mqtt_packet.c:66-84 | decoding leaves `int` if and only if a fifth byte is read |
| RemainingLength.ShortIff | src/mqtt_packet.c:66-84 | the field is found too short if and only if no byte ends it and there is no fifth one |
| RemainingLength.DigitsDecode | src/mqtt_packet.c:64-87 | any bytes decode to their digits of base 128, also where fewer would do |
| RemainingLength.LengthExample | src/mqtt_packet.c:22-57 | the standard's example: 321 is 193 and 2 |
| Codec.MaskBits | src/mqtt_handler.c:219-220 | the sender's masks leave nothing of the high byte and four bits of the low byte |
| Codec.MaskIs | src/mqtt_handler.c:219-220 | so they leave what the model writes |
| Codec.JoinIff | src/mqtt_packet.c:151 | a standard two-byte integer is read right if and only if it is below 256 |
| Codec.ReadStrIff | src/mqtt_packet.c:137-158 | a standard string is read back, and as written only if it is shorter than 256 bytes, otherwise cut short |
| Codec.PublishIff | src/mqtt_handler.c:284-320 | a PUBLISH body, with its message id for quality of service 1 and 2, is read back if and only if the rule is the standard's or the topic is shorter than 256 bytes |
| Codec.PublishReads | src/mqtt_handler.c:284-325 | what becomes of any body of a PUBLISH, by its bytes: too few end the connection, an empty topic or content fails an assertion, anything else is a message whose strings end before their first zero |
| Codec.PublishAsWritten | src/mqtt_handler.c:219-244 | the server's own body, read as written or by the standard: the topic ends after its length modulo 16, the rest is content |
| Codec.TopicsIff | src/mqtt_packet.c:303-336 | the topics of a SUBSCRIBE are read back in order, and the loop ends, if and only if the rule is the standard's or all are shorter than 256 bytes |
| Codec.SubscribeIff | src/mqtt_handler.c:367-391 | the same with the message id before them |
| Codec.SubscribeOtherIff | src/mqtt_handler.c:380-391 | at quality of service 0 and 2 the same without the message id |
| Codec.BadSubscribeIff | src/mqtt_handler.c:380-387 | the message id is missing if and only if there are fewer than two bytes at quality of service 1 |
| Codec.TopicsThen | src/mqtt_packet.c:303-336 | after any number of good topics one that is cut short is undefined, an empty one fails an assertion, and one whose quality of service is missing is taken |
| Codec.ConnectFlagBits | src/mqtt_packet.c:200-205 | the masks and shifts yield the flags that `ReadFlags` yields |
| Codec.FlagsRoundTrip | src/mqtt_packet.c:191-207 | the flag byte is read back |
| Codec.StringsIff | src/mqtt_handler.c:72-126 | the strings that the flags announce are read back in order |
| Codec.StepsIs | src/mqtt_handler.c:26-126 | reading a CONNECT string by string, with the timer put in on the way, ends in the packet that `ParseConnect` yields, or fails where it fails |
| Codec.HeadIff | src/mqtt_packet.c:159-229 | any bytes pass for the head of a CONNECT if and only if their first string begins with MQIsdp, the byte after it is 3 and flags and keep-alive time are there |
| Codec.ConnectReads | src/mqtt_handler.c:30-126 | whatever the body: without that head nothing is read; with it flags, keep-alive time and client id are those bytes, and strings that the flags do not announce are empty |
| Codec.ConnectCut | src/mqtt_handler.c:30-126 | a well-formed CONNECT that breaks off anywhere fails |
| Codec.ConnectIff | src/mqtt_handler.c:26-126 | a CONNECT is read back to its last byte if and only if the rule is the standard's or keep-alive time and strings are below 256 |
| Frames.FixHeaderIff | src/mqtt_packet.c:58-62 | the header flags are read back if and only if the message is no duplicate and of quality of service 0 |
| Frames.FixHeaderBits | src/mqtt_packet.c:58-62 | the header that `FixedHeader` computes is what the masks and shifts make of command and flags |
| Frames.PlainHeader | src/mqtt_packet.c:58-62 | without flags it is the command |
| Frames.PublishHeaderIs | src/mqtt_packet.c:252-259 | command, duplicate flag, quality of service and retain flag are read back from a client's header |
| Frames.FlagBits | src/mqtt_packet.c:252-259 | masks and shifts yield the quality of service and the command that the model reads |
| Frames.BareTaken | src/mqtt_handler.c:438-520 | PINGREQ goes on, DISCONNECT ends the loop and the connection, UNSUBSCRIBE fails an assertion if it has a payload, whatever the length |
| Frames.UnknownTaken | src/server.c:147-150 | an unknown command uses up one byte and does nothing |
| Frames.BadQosTaken | src/mqtt_packet.c:257 | quality of service 3 shuts the connection, whatever follows |
| Frames.BrokenTaken | src/mqtt_packet.c:64-105 | for any bytes: a length field that breaks off shuts the connection, one of five bytes leaves what C defines, a body that is not all there fails an assertion |
| Frames.ConnectExample | src/mqtt_handler.c:30-126 | a CONNECT with all its strings, byte by byte as the standard lays it out |
| Frames.PublishExample | src/mqtt_handler.c:284-325 | a PUBLISH with its flags and message id, byte by byte |
| Frames.SubscribeExample | src/mqtt_packet.c:303-336 | a SUBSCRIBE with two topics, byte by byte |
| Frames.PingExample | src/mqtt_handler.c:438-444 | a PINGREQ, byte by byte |
| Frames.SplitOne | src/mqtt_packet.c:22-105 | a frame is split off a stream with its body and nothing more |
| Frames.TakeIff | src/server.c:73-152 | one turn of the packet loop consumes one frame (CONNECT, PUBLISH with any flags, SUBSCRIBE, PINGREQ) and understands it if and only if the rule is the standard's or no high byte matters |
| Frames.OwnFrameIff | src/mqtt_handler.c:203-248 | the server's PUBLISH frames are understood, by its own reader or by a standard one, if and only if the topic is shorter than 16 bytes; written by the standard, if the reader is too or the topic is shorter than 256 bytes; their first byte is 0x30 |
| Arrivals.TakeCut | src/mqtt_packet.c:64-105 | a frame that breaks off after any number of bytes shuts the connection or fails an assertion, by where it breaks off |
| Arrivals.CutStreamIff | src/server.c:67-174 | of any prefix of any stream the whole messages are read, and the loop ends as the broken off frame says, if and only if the rule is the standard's or no high byte matters; it waits for more only at the end of a frame |
| Arrivals.StreamIff | src/server.c:67-174 | any list of CONNECT, PUBLISH, SUBSCRIBE and PINGREQ frames is read back, message by message and to the last byte, under the same condition |
| Arrivals.ArrivalsIff | src/server.c:67-174 | a stream that arrives in any number of parts is read back if and only if it is understood and every part ends where a frame does |
| Arrivals.TwoParts | src/mqtt_packet.c:88-105 | every frame that comes in two parts is lost, and the connection or the server with it |
| Packet.Packet.Alloc | src/mqtt_packet.c:22-62 | header (command and flags, as `mqtt_fix_header` makes it) and length bytes in a buffer that fits the whole frame, the position after them; fails for longer messages |
| Packet.Packet.Put | src/mqtt_handler.c:221-227 | appends at the position, inside the buffer |
| Packet.Packet.BuildPublish | src/mqtt_handler.c:196-248 | the buffer is the frame, with a message id for quality of service above 0, and the position ends exactly where it does |
| Packet.Packet.PayloadByte | src/mqtt_packet.c:106-120 | reads a byte or fails at the end, never past it |
| Packet.Packet.PayloadBytes | src/mqtt_packet.c:121-136 | fails if and only if fewer bytes are left, and then has used them up |
| Packet.Packet.Text | src/mqtt_packet.c:137-158 | the string that `ReadStr` reads |
| Packet.Packet.ReadHead | src/mqtt_packet.c:159-229 | protocol name, version, flags and keep-alive time, or the same failure |
| Packet.Packet.ReadSteps | src/mqtt_handler.c:30-126 | the reads of CONNECT get exactly as far as `ConnectSteps` says, with the same results |
| Packet.Packet.ReadRest | src/mqtt_handler.c:96-126 | the reads after the client id yield the strings that the flags announce, or the same failure |
| Packet.Packet.ReadPublish | src/mqtt_handler.c:304-325 | the reads of PUBLISH yield what `ParsePublish` says |
| Packet.Packet.PublishContent | src/mqtt_packet.c:260-276 | copies all that is left |
| Packet.Packet.ReadTopics | src/mqtt_packet.c:294-338 | the loop ends and yields what `ParseTopics` says |
| Stream.ReadLength | src/mqtt_packet.c:64-87 | reads byte by byte what `DecodeLen` decodes, and no byte more |
| Stream.ReadPayload | src/mqtt_packet.c:88-105 | however the bytes come in, the payload is the next bytes of the stream; complete if and only if they have arrived |
| Stream.ReadFrame | src/mqtt_packet.c:64-105 | length field and payload are split off as `SplitFrame` says |
| Stream.ReadConnect | src/mqtt_handler.c:17-126 | takes a CONNECT off the stream and reads it as far as it goes |
| Stream.HandleConnect | src/mqtt_handler.c:17-126 | takes a CONNECT off the stream as `TakeConnect` says, and leaves the rest |
| Stream.HandlePublish | src/mqtt_handler.c:284-342 | takes a PUBLISH off the stream, or shuts the connection, or fails an assertion, as `TakePublish` says |
| Stream.HandleSubscribe | src/mqtt_handler.c:367-394 | takes a SUBSCRIBE off the stream as `TakeSubscribe` says |
| Stream.HandleBare | src/mqtt_handler.c:438-453 | takes PINGREQ or DISCONNECT with its length field and no body |
| Stream.HandleUnsubscribe | src/mqtt_handler.c:492-520 | reads the length field of an UNSUBSCRIBE only, and goes on without the payload |
| Stream.Dispatch | src/server.c:73-152 | the handler chosen by the first byte does what `Take` says of the bytes, whatever they are |
| Stream.ConnHandler | src/server.c:67-174 | the packet loop yields the items of the bytes that are there, however they are cut into pieces, and has used them up if it waits for more |
| Stream.ServeArrivals | src/server.c:228-236 | started again whenever bytes have come in, it yields what `ReadArrivals` says |
| Stream.SendBuffer | src/server.c:241-258 | what has been sent is a prefix of the buffer, and all of it if and only if the peer takes that much |
| Server.ServeTick | src/server.c:59-65 | after any run, a tick of the repaired list comes back and closes exactly the slots it reaps |
| Session.CloseAllDoes | src/mqtt_handler.c:258-282 | shutting several connections ends exactly their sessions, frees exactly their ids and leaves the others, all topics and all messages alone |
| Server.ServeAfter | src/server.c:59-236 | one more input takes sessions and list of a run where `After` says, or stops the server |
| Server.TimersMatch | src/server.c:67-174 | whatever comes in, with the repaired list, and as written until it hangs, every call meets what the deadline list asks of its callers, and the slots with a timer are exactly those that are watched |
| Server.GoesOnIff | src/server.c:73-152 | after any run, with any form of the list, the server deals with a well-formed message whose integers it reads right and goes on if and only if it comes in order (CONNECT first, once, with a password where there is a user name, PUBLISH and PINGREQ after it) and the list does not hang on it |
| Server.TickEndsSilentSessions | src/mqtt_timer.c:133-170 | after any run, a tick that comes back (any tick of the repaired list, and as written a tick with nothing due) ends exactly the sessions whose connection has been silent for the span that its CONNECT was granted, and their client ids are free again |
| Outcomes.LeavesEnds | src/server.c:153-158 | a client that hangs up: the server goes on, its slot has neither session nor deadline, its id is free, and nothing else has changed |
| Outcomes.DisconnectEnds | src/server.c:137-145 | so does DISCONNECT, whatever its length field says |
| Outcomes.UnknownIgnored | src/server.c:147-150 | an unknown command, and a turn for which no byte is there, change nothing at all |
| Outcomes.NamelessSubscribeEnds | src/mqtt_handler.c:362-365 | SUBSCRIBE on a slot without a client id ends the connection, whatever follows |
| Outcomes.WrongProtocolEnds | src/mqtt_packet.c:159-189 | a CONNECT with another protocol name or version ends the connection, and no deadline has been entered for it |
| Outcomes.BrokenConnectEnds | src/mqtt_handler.c:72-126 | so does a CONNECT whose strings are not all there; its client id stays in use if it was read, was free and has at most 23 bytes |
| Outcomes.SecondConnectStops | src/mqtt_handler.c:71 | a second CONNECT on a connection with a timer leaves what the timer list asks for |
| Outcomes.ConnectOutcome | src/mqtt_handler.c:57-174 | whether the server goes on from any CONNECT that can be read, and then whether the client has a session with all that was waiting sent to it in order, keeps its connection and deadline without one, or loses it, by flags, acceptance, length and use of its id |
| Outcomes.ConnectGrantedIff | src/mqtt_handler.c:131-174 | a well-formed first CONNECT under a free id gets a session if and only if it has user name and password and these are accepted; without acceptance it keeps its deadline only, without a user name it has no session |
| Outcomes.SubscribeAdds | src/mqtt_packet.c:303-336 | a SUBSCRIBE adds to every topic one subscription of the slot's client for each time that it occurs, behind those that were there, and changes nothing else |
| Outcomes.PublishOutcome | src/mqtt_handler.c:284-342 | a PUBLISH is dealt with if and only if the connection has a deadline and the list does not hang; then the topic's log, what every client has been and will be sent, and the publisher's deadline change as they should, and nothing else |
| Outcomes.PingOutcome | src/mqtt_handler.c:438-452 | PINGREQ moves the connection's deadline and changes nothing else |
| Outcomes.BrokenFrame | src/mqtt_packet.c:64-105 | after any run: a length field that breaks off ends the connection, one of five bytes and a body that is not all there stop the server |
| Outcomes.MalformedBody | src/mqtt_handler.c:284-391 | a PUBLISH or SUBSCRIBE that cannot be read ends the connection or stops the server, by what is wrong with it |
| Outcomes.UnsubscribeOutcome | src/mqtt_handler.c:492-520 | UNSUBSCRIBE takes nobody out of a list: it stops the server, ends the connection or does nothing, by its payload and quality of service |
| Outcomes.TickOutcome | src/mqtt_timer.c:133-170 | a tick that comes back ends exactly the silent connections and frees exactly their ids; topics, messages and all other connections stay as they are |
| Outgoing.AcceptedSendable | src/mqtt_handler.c:284-325 | whatever bytes come in, a message that the server accepts is one that it can send |
| Outgoing.AcceptedStrings | src/mqtt_handler.c:284-391 | whatever bytes come in, a turn yields no empty topic and no empty content |
| Outgoing.WireIff | src/mqtt_handler.c:178-256 | the bytes for any list of messages read back as these messages if and only if their topics fit what the two ends make of a length |
| Delivery.ServedAsOwed | src/server.c:59-236 | whatever bytes come in, on every run of the server, as written and repaired, each client is sent, or will be sent, exactly what the subscriptions it asked for owe it |
| Delivery.HandedOutIff | src/mqtt_handler.c:178-256 | whatever bytes come in, what was handed out for a client is the beginning of what the subscriptions it asked for owe it, and reads back if and only if all topics in it fit what the two ends make of a length, as written and repaired |
| Delivery.ConnectedReadsAll | src/mqtt_handler.c:144-256 | whatever bytes come in, what a connected client has been sent reads back, by the standard, as exactly what its subscriptions owe it, if and only if the length fields are the standard's or all topics are shorter than 16 bytes (repaired sessions) |
| Delivery.PublicationArrivesIff | src/mqtt_message.c:98-162 | a publication puts into each live connection exactly one frame per subscription its client means to have, understood if and only if the topic fits or there is none (repaired sessions) |
| Delivery.EndToEnd | src/server.c:67-174 | the same from a publisher's frame, with any flags, to each subscriber's bytes |

## Left out

- Sockets, epoll, signals and thread creation: `recv` and `send` are methods that move any allowed number of bytes; output is a log to which `set_fd_out` appends, whereas the real `EPOLL_CTL_MOD` call can replace a buffer that was not sent.
- Interleaving of threads: every handler and every tick is one step. The mutex matters only to the thread that holds it.
- Redis: the set of ids in use is a set, authentication an outcome of CONNECT (`Login`).
- Memory: allocation succeeds and nothing is freed. `mqtt_string_copy` writes one byte past its buffer (src/mqtt_string.c:36); the model's strings are values.
- Object identity of client records: `PubSub`, `Session` and `Broker` reach them by client id through a map, and a subscriber node holds the id where the code holds a pointer to the record. There is one record per id, so the two agree; aliasing between records is not modelled.
- Broker.Broker.TopicAddMsg: takes the topics as a map to values; `Topics.TopicTable` shows that the linked table, lists and logs implement that map, and `Broker` is not itself built on it.
- Broker.Broker.TopicSub: the same.
- Broker.Broker.DistributeTo: walks a sequence of subscriptions, each with its client id; `Subscribers.SubscriberList` is the linked list.
- Broker.Broker.DistributeMsg: the queue is a sequence in the client's record; `MessageQueue` is the linked queue.
- Broker.Broker.SendClientMsg: the queue is a sequence, topic names have at most 65535 bytes, because the code never leaves its loop on a longer one, and messages, not their bytes, go into the log; `MessageQueue.SendAll` makes the bytes.
- Broker.Broker.HandlerPublish: without the timer, which `ServerEnv.Env.HandlePublish` adds, and without the reads, which `ServerEnv.Env.Turn` adds.
- Broker.Broker.ShutDeadConn: without the timer, which `ServerEnv.Env.ShutDeadConn` adds.
- Broker.Broker.ConnAck: without the CONNACK frame itself.
- Broker.Broker.ShutAll: the closings follow the list's own part of the tick, while the code makes each inside it; `ServerEnv.Env.TimerHandler` joins the two. What a closing does to the tables does not depend on the list, nor the list on the tables.
- Broker.Broker.HandlerConnect: without the timer, which `ServerEnv.Env.HandleConnect` adds, and only for a user name that comes with a password: the abort of `check_auth` is `Login.Passwordless` in `Session.Stops`.
- Broker.Broker.HandlerSubscribe: takes the topics as already read; the code subscribes to each as it reads it, which differs only if a later one cannot be read, and then the code leaves what C defines.
- ServerEnv.Env.HandlePublish: on a topic and a content that have been read; `ServerEnv.Env.Turn` starts from the bytes, as for the three members below.
- ServerEnv.Env.HandlePing: after its length field, and without the PINGRESP frame.
- ServerEnv.Env.HandleConnect: on a packet that has been read, and without the abort of `check_auth`, which `ServerEnv.Env.Connected` adds.
- ServerEnv.Env.HandleSubscribe: on topics that have been read.
- Calls outside their contract: a second CONNECT on a connection that has sent one, accepted or not, would add a timer that is in the list, and PUBLISH or PINGREQ before CONNECT would refresh one that is not. Runs end there (`Session.Allowed`, and None in `Server.Do`).
- Connections.Connections.Expiry: the tick as written and the repaired one; the code as written with a mutex that may be locked again loses timers and then calls `remove_timer` on stale links, which `KeepAlive.LostDeadline` shows on values only.
- `Frames.ReadStream` reads messages as if sessions accepted them; `Server.Do` adds the refusals of CONNECT and SUBSCRIBE. After a handler fails the code reads once more from the closed socket, which fails again.
- UNSUBSCRIBE on the wire: its handler never reads the payload; `Frames.TakeUnsubscribe` models that it then fails, and `TopicUnsub` the list operation.
- Quality of service above 0 in what is sent: `mqtt_msg_init` sets 0, so `Delivery` uses that only; `mqtt_msg_id_gen` is a parameter of `BuildPublish`.
- Data bound to a null pointer in the hash table, which `mqtt_hash_get` cannot tell from a missing key: no caller stores one.
- CONNACK, PINGRESP and UNSUBACK frames, logging, `mqtt_packet_format`, `mqtt_topic_add_msg` and src/command_send.c.
