# Subscription protocol and buffer engines: a verified model

lite_rpc is a small publish/subscribe and request system. Clients hold a callback map and a send
queue; the server holds a topic -> tag -> sessions registry; each session holds its own copy of what
it is subscribed to. Application threads, publishers, one thread per io_context and the completions of
asynchronous writes all interleave. The repository also carries four buffer engines in source form: a
sparse file writer and a gz reader and writer (zstd), and the msgpack streaming unpacker with its zones.

This project models both and proves what they keep over whole runs. `dafny verify dfyconfig.toml`
checks everything.

## The protocol

The concurrent part is a set of labelled transition systems, one label per mutex-protected region,
completion event or uninterrupted stretch of a session's thread. Each has an invariant that every label
keeps and theorems about every state of every run.

- `ServerProtocol`, `Broadcast`: registry, sessions, publishers. The registry and the sessions' own
  records agree up to the one command under way; a session whose reader has ended is registered nowhere;
  there is one global sequence of dispatches, made of the "*" and the tag dispatch of each publish
  call, and every session's history is exactly that sequence filtered to the visits that found it
  registered and, with check_verify, enabled. Every command and every publish call can be carried
  through, and does what it says: who is registered when a publish starts has it when it is over.
- `SendQueue`: the single-writer queue. One agent is busy exactly while the queue holds something,
  the packet in flight is the front, and order is kept; that one agent can always write out all that is
  queued. `re_subscribe` keeps this exactly when its caller holds the failed front.
- `Reconnect`: the client across failed writes, lost connections and fresh sessions. Outside the
  stretch from a failed write to the end of `re_subscribe`, replaying what is in transit or queued onto
  the live session gives exactly the client's keys. Two things can break this, and for both the exact
  condition is proved. Overlapping calls on one (topic, tag) are harmless except for a cancel that
  begins on a key that a subscribe has inserted and not yet sent while no subscribe is about to insert
  it again: from any state, completing the calls converges iff the cancel was not such a one
  (`Apart`, `ApartIsExact`). And `re_subscribe` brings a topic's tags back in every iteration order iff
  there is one tag, or none ends in '|', or they are "|" and the empty tag (`SafeTags`,
  `TopicRestoredExactly` of the packet, `TopicAgreesExactly` of the state it leads to). Each comes with
  a run that goes wrong. `CallersConvergence` puts conditions on subscribe and cancel calls only, but
  looks at how far other threads' calls have come; `LockedCallersConvergence` asks for what callers can
  arrange among themselves: no cancel begins on a key that a call under way names.
- `ClientQueue`: `SendQueue` and `Reconnect` are two views of the client's queue, and each is mapped onto
  the other. Every step of the agents is a step of `Reconnect` or shows nowhere, and every run of
  `Reconnect` is the outside of a run of the agents, so its queue is first in, first out whatever
  becomes of the connections.
- `Recovery`: from every state of such a run, in the middle of a failure or of a reconnect, the client
  can get back to a live connection whose session holds exactly its keys.
- `Requests`: ids and callbacks, over a network that may repeat and reorder everything. A response fires
  its call's callback exactly once, and a callback that has not run can always still run.

The same code as objects is in `Server`, `Client`, `Outbox`, `TagStrings` and `Frames`: classes whose
methods follow the source statement by statement and are proved against the functions (`Registry.Add`,
`SendQueue.Wrote`, `Reconnect.Replay`, ...) that the transition systems use.

## The engines

- `SparseFile`: any sequence of sparse writes and the closing call leave the file a plain writer leaves.
- `GzRead`: raw input; over any sequence of reads, single-byte reads, push-backs, seeks and rewinds the
  reader is a small reference cursor over one byte stream with a stack of pushed-back bytes, call by
  call and position by position. The cursor also knows when the buffer is full, so the one thing that
  ends a run early, a push-back refused for want of room, is predicted exactly; it never follows a call
  that took bytes.
- `GzWrite`: direct mode, any sequence of writes, `gzputc` and seeks. Every call's bytes lie in the file
  at the position that was reported before it, and a seek moves that position. A seek becomes zeros
  exactly when no `gzputc` or close is the first to process a pending seek on a writer whose buffer does
  not exist yet: in that case `gz_zero` spends its one memset on a chunk of length zero (the size is
  still 0) and the bytes malloc left in the buffer go to the file. `BareExample` is a concrete instance.
  A refused backward seek also cancels the seek that was pending (`RefusedSeekCancels`).
- `Unpacker`, `Zone`: over any sequence of calls every call leads where a step relation on states says,
  reference counts equal owners, nothing is freed early or leaked, realloc never moves a buffer that an
  object points into, and the bytes parsed and still unparsed are the bytes fed; finalizers run once, in
  reverse.

Cited lines are the code each member models or states something about.

## Model

| member | source | states |
|---|---|---|
| TagStrings.Find | include/rpc_common.hpp:81-87 | first occurrence of the two-bar separator: none exactly when the text has no separator, else the lowest position |
| TagStrings.SplitTagString | include/rpc_common.hpp:93-105 | the loop computes `Split` of the text and terminates because the text shrinks |
| TagStrings.SplitTagHash | include/rpc_common.hpp:79-91 | the same split with the hash applied to each tag |
| TagStrings.JoinTags | include/rpc_client.hpp:248-252 | appending a separator after every tag and cutting the last two characters is `Join`, an empty text included |
| TagStrings.JoinOfSplit | include/rpc_common.hpp:93-105 | join undoes split for every string |
| TagStrings.SplitTagsHaveNoSeparator | include/rpc_common.hpp:93-105 | no tag out of a split contains the separator |
| TagStrings.FirstSeparator | include/rpc_client.hpp:249-252 | in head, separator, rest the first separator found is the written one iff the head has none and does not end in a bar |
| TagStrings.SplitOfJoin | include/rpc_client.hpp:246-254 | split undoes join iff the list is not empty, no tag contains the separator and no tag but the last ends in a bar |
| TagStrings.TrailingBarChangesTags | include/rpc_client.hpp:249-252 | a tag ending in one bar, joined with another tag and split again, gives two other tags |
| TagStrings.SplitIsJoinable | include/rpc_common.hpp:93-105 | what a split gives has no separator inside and a bar at the end at most of its last tag |
| TagStrings.SurvivesEveryOrder | include/rpc_client.hpp:246-254 | the tags of a topic come back from join and split as the same set in every iteration order iff there is at most one, or none ends in a bar, or they are the bar and the empty tag |
| TagStrings.KeySetsAgree | include/rpc_common.hpp:79-105 | with an injective hash the server's hashed tags contain a tag exactly when the client's tags do |
| Bytes.NumberOfLittleEndian | include/rpc_common.hpp:40-50 | a number that fits k bytes comes back from its k little-endian bytes |
| Frames.HeaderRoundTrip | include/rpc_common.hpp:40-50 | every header whose fields fit their widths is read back from its 18 packed bytes whatever follows |
| Frames.HeaderLayout | include/rpc_common.hpp:40-50 | the offset and byte order of each field in the 18 bytes |
| Frames.PacketLayout | include/rpc_server_session.hpp:224-226 | a queued packet byte by byte: magic numbers, kind and truncated lengths at their offsets, then name, tag and body |
| Frames.TurnOfServer | include/rpc_server_session.hpp:84-101 | of the bytes received: the session frees itself exactly on a wrong magic or an announced body over 8 MB, waits exactly while bytes are missing, and otherwise takes name and body at their places |
| Frames.TurnOfClient | include/rpc_client.hpp:129-142 | of the bytes received: the client waits exactly while bytes are missing and otherwise takes name, tag and body at their places, unless the lengths wrap in 32 bits |
| Frames.NextOfEncode | include/rpc_server_session.hpp:82-102 | one turn of either reading loop takes exactly one fitting packet off the front of the bytes |
| Frames.PacketRoundTrip | include/rpc_server_session.hpp:224-226 | a packet survives framing iff its name fits 8 bits and its tag 16 bits: the casts lose nothing exactly then |
| Frames.PartialWaits | include/rpc_client.hpp:129-142 | a packet cut anywhere, also inside the header, makes the loop wait |
| Frames.StreamRoundTrip | include/rpc_server_session.hpp:82-102 | any packets in a row and part of one more parse to exactly those packets, with the part left over, in both directions |
| Frames.NextIsStable | include/rpc_client.hpp:129-142 | bytes that arrive later never change a packet already complete or a refusal already made |
| Frames.ParseInChunks | include/rpc_client.hpp:129-142 | how the stream is cut into reads does not matter |
| Frames.Reader.Receive | include/rpc_server_session.hpp:82-108 | packets dealt after each chunk are the parse of everything received; after a bad header nothing more is dealt |
| Registry.AddHas | include/rpc_server.hpp:67-89 | add_subscribe registers this session under these tags and changes no other registration |
| Registry.AddPruned | include/rpc_server.hpp:67-89 | it leaves no empty map or set |
| Registry.RemoveHas | include/rpc_server.hpp:91-113 | remove_subscribe takes out this session under this tag and nothing else |
| Registry.RemovePruned | include/rpc_server.hpp:104-112 | emptied sets and then emptied maps are erased |
| Registry.KeysAddIn | include/rpc_server_session.hpp:253-265 | the session's own record after a subscribe: the old keys and the named ones |
| Registry.KeysCancelIn | include/rpc_server_session.hpp:277-287 | the session's own record after a cancel: the old keys without the named ones |
| Registry.KeysStayPruned | include/rpc_server_session.hpp:253-287 | the session's record never keeps an empty set |
| Registry.PrunedIsCanonical | include/rpc_server.hpp:91-113 | without empty entries, who is registered where determines the whole structure |
| Registry.RemoveUndoesAdd | include/rpc_server.hpp:67-113 | removing a fresh registration restores the registry exactly, empty entries included |
| Registry.RemoveAllHas | include/rpc_server_session.hpp:273-275 | the loop of a cancel takes out this session under the named tags and nothing else |
| Registry.RemoveTakesOut | include/rpc_server_session.hpp:68-72 | each removal of free_rc takes out one more pair and nothing else |
| Server.RpcServer.AddSubscribe | include/rpc_server.hpp:67-89 | both branches (new topic, known topic) with their loops compute `Registry.Add` |
| Server.RpcServer.RemoveSubscribe | include/rpc_server.hpp:91-113 | all four exits compute `Registry.Remove` |
| Server.RpcServer.Publish | include/rpc_server.hpp:29-65 | a session registered for "*" and the tag gets both packets, "*" first; for one of them that one; for neither, or disabled while check_verify is set, nothing; nobody else's queue changes |
| Server.RpcServer.DispatchTo | include/rpc_server.hpp:49-60 | without check_verify, or with it and the session enabled, the packet goes to the end of this session's queue; otherwise not; every other queue stays |
| Server.RpcServer.Dispatch | include/rpc_server.hpp:38-61 | the packet goes to the end of the queue of each session of one tag that check_verify lets through, once, in any iteration order; every other queue stays |
| Server.Session.constructor | include/rpc_server_session.hpp:51-60 | a session starts with no keys, publications disabled and empty queues |
| Server.Session.DealSubscribe | include/rpc_server_session.hpp:248-267 | the registry gains exactly this session under the command's tags, the record those keys; if they agreed before they agree after |
| Server.Session.DealCancel | include/rpc_server_session.hpp:270-289 | the registry loses exactly this session under the command's tags, the record those keys; if they agreed before they agree after |
| Server.Session.FreeRc | include/rpc_server_session.hpp:62-74 | the nested loop takes the session out of every entry of its record and nothing else, in any iteration order; afterwards it is registered nowhere if the indexes agreed |
| Server.Session.Publish | include/rpc_server_session.hpp:123-126 | the packet goes to the end of this session's queue and no other |
| Server.Session.PublishCompleted | include/rpc_server_session.hpp:326-352 | success pops the front and starts the next packet if there is one, failure keeps the front and closes the socket |
| ServerProtocol.IndexSub | include/rpc_server_session.hpp:248-267 | the two halves of a subscribe keep the index invariant |
| ServerProtocol.IndexCancel | include/rpc_server_session.hpp:270-289 | every removal and the last half of a cancel keep it |
| ServerProtocol.IndexFree | include/rpc_server_session.hpp:62-74 | every step of free_rc keeps it, whoever called it and when |
| ServerProtocol.IndexStep | include/rpc_server_session.hpp:62-121 | every label keeps it: other sessions, timers, handlers and publishers included |
| ServerProtocol.TwoIndexesAgree | include/rpc_server_session.hpp:248-289 | in every state of every run a session outside an update is registered under exactly its own keys; inside one the difference is bounded by that command; nothing empty is kept |
| ServerProtocol.EndedIsUnregistered | include/rpc_server_session.hpp:62-121 | whoever is registered has a reader that has not ended, also when the timer freed the session before a completed read subscribed it again |
| ServerProtocol.SessionStep | include/rpc_server_session.hpp:248-289 | a session's record changes only when its commands are through, by exactly the tags they name; it ends only by its reader's free_rc; check_verify's switch moves only when set |
| ServerProtocol.AcceptedIsBlank | include/rpc_server_session.hpp:46-60 | an accepted session has no keys and no publications, is registered nowhere, is disabled for check_verify and can deal |
| ServerProtocol.FreedForGood | include/rpc_server_session.hpp:87-107 | after its reader's free_rc a session never deals again and is registered nowhere, for ever |
| ServerProtocol.SubscribeRegisters | include/rpc_server_session.hpp:248-267 | a subscribe command can always be carried through, registers the session under exactly the named tags, and changes nothing for anybody else |
| ServerProtocol.CancelUnregisters | include/rpc_server_session.hpp:270-289 | a cancel command can always be carried through, takes the session out of exactly the named tags, and changes nothing for anybody else |
| ServerProtocol.FreeUnregisters | include/rpc_server_session.hpp:62-74 | free_rc can always be carried through, takes the session out of everything, and changes nothing for anybody else; the reader's own ends it |
| Broadcast.LogStep | include/rpc_server.hpp:29-65 | every label keeps each history equal to the log's deliveries and each entry's sessions split into delivered, passed over and still to visit |
| Broadcast.DeliveredStep | include/rpc_server.hpp:49-60 | a visit delivers iff check_verify is not set or the session is enabled at that moment, and passes over otherwise; no other step changes who got what |
| Broadcast.DeliveredExactly | include/rpc_server.hpp:49-60 | over whole runs a dispatch is delivered to exactly the sessions that a visit found passing, and skipped for exactly those it found not passing |
| Broadcast.VisitedIsRegistered | include/rpc_server.hpp:39-45 | a visited session is registered at that moment under the dispatch's topic and tag |
| Broadcast.HistoryIsFilteredLog | include/rpc_server.hpp:38-61 | a session's history is the global dispatch sequence in order, filtered to exactly the visits that found it enabled or without check_verify; a finished dispatch has visited exactly the sessions registered when it started, each with one outcome |
| Broadcast.SameOrderEverywhere | include/rpc_server.hpp:29-65 | two sessions see the publications they share in the same order |
| Broadcast.OneSnapshotPerPublish | include/rpc_server.hpp:30-37 | all dispatches of one publish read one registry, still the server's own while the call lasts |
| Broadcast.CallStep | include/rpc_server.hpp:32-64 | at every step of a publish call the global sequence holds for it exactly what its phase says |
| Broadcast.PublishDispatches | include/rpc_server.hpp:29-65 | a publish call that is over has left in the global sequence one entry for its topic's "*" iff anyone was registered for that and then one for its tag iff anyone was, with its check_verify and the registry it found at its start, next to each other, and no other entry |
| Broadcast.PublishReaches | include/rpc_server.hpp:29-65 | whoever is registered for the topic's "*" or its tag when publish starts, and enabled throughout if check_verify is set, has that dispatch in its queue's history when publish is over |
| Broadcast.PublishCanFinish | include/rpc_server.hpp:29-65 | a publish call can always come to its end and give the registry back |
| Broadcast.PublishTouchesLiveSessions | include/rpc_server.hpp:30-33 | whoever a dispatch still has to visit exists, is alive, and can be visited |
| Broadcast.NoGaps | include/rpc_server.hpp:45-60 | whoever is registered when a dispatch starts, and enabled while check_verify asks for it, has it in its history once the dispatch is over |
| Broadcast.SubscriberGetsIt | include/rpc_server.hpp:45-60 | the same told by the session's own record of its keys |
| Broadcast.DisabledMisses | include/rpc_server.hpp:56-60 | whoever is disabled from the start of a dispatch with check_verify on never gets it |
| SendQueue.InvStep | include/rpc_client.hpp:321-327 | every push, front, start, completion, failure and reconnect keeps the protocol |
| SendQueue.SingleWriter | include/rpc_client.hpp:364-409 | in every run the agents about to send, sending or holding a failed front are one if the queue holds anything and none otherwise; the packet in hand is the front; acknowledged then queued is what was pushed, in order |
| SendQueue.NeverEmptyHanded | include/rpc_server_session.hpp:302-353 | send() never reads an empty queue and no second write is under way |
| SendQueue.CanDrain | include/rpc_client.hpp:364-409 | from every state of the protocol the one agent alone can write out the whole queue, each packet once and in order, after which nobody is under way |
| SendQueue.RePushKeeps | include/rpc_client.hpp:246-254 | the packets of re_subscribe go to the end, and onto a filled queue they start no writer |
| SendQueue.ResubscribeIsSafe | include/rpc_client.hpp:244-256 | re_subscribe keeps the protocol iff its caller holds the failed front |
| SendQueue.UninterruptedKeeps | include/rpc_server_session.hpp:388-409 | a whole write() call and a whole completion keep it |
| ClientQueue.QueueStepMaps | include/rpc_client.hpp:321-409 | every step of the agents on the queue is the matching step of the client across reconnects, or shows nowhere; the agents' own guards are all that the client's steps ask of the queue |
| ClientQueue.ElsewhereMaps | include/rpc_client.hpp:377-409 | steps of the map, the connection and the sessions, and the arrival of a packet being written, leave the match alone |
| ClientQueue.ClientStepMaps | include/rpc_client.hpp:321-409 | every step of the client is something the agents can do, with the same packet put |
| ClientQueue.ClientRunMaps | include/rpc_client.hpp:321-409 | every run of the client is the outside of a run of the agents; what was acknowledged followed by what is queued is what was put, in order, over all reconnects |
| Outboxes.Outbox.Write | include/rpc_client.hpp:321-327 | push; onto an empty queue the write of this very packet starts, onto a filled one the writer stays as it was |
| Outboxes.Outbox.Complete | include/rpc_client.hpp:381-408 | success pops the front and starts the write of the next packet, or leaves the writer idle if that was the last; failure keeps the front in hand |
| Outboxes.Outbox.Reconnected | include/rpc_client.hpp:395-397 | the holder of the failed front goes on into re_subscribe, with the queue not empty |
| Outboxes.Outbox.Resume | include/rpc_client.hpp:255-255 | the closing send() of re_subscribe starts the front that had failed |
| Client.PutAllHolds | include/rpc_client.hpp:191-221 | a named tag has the given callback if it is the first tag and not named again, and what the move out of that callback left behind otherwise; every other key keeps its own |
| Client.PutAllKeys | include/rpc_client.hpp:190-221 | after a subscribe the keys are the old ones and the named ones |
| Client.DropHolds | include/rpc_client.hpp:233-239 | a cancel removes the named tags, keeps the other callbacks and leaves no empty topic |
| Client.DropKeys | include/rpc_client.hpp:225-239 | after a cancel the keys are the old ones without the named ones |
| Client.RpcClient.Subscribe | include/rpc_client.hpp:188-223 | afterwards the client holds exactly the old keys and those of the split; the first tag has the callback unless it is named again, later ones its moved-from remains, every other key its own; exactly one subscribe packet is queued |
| Client.RpcClient.CancelSubscribe | include/rpc_client.hpp:225-241 | exactly the named keys go, the others keep their callbacks; a cancel packet is queued iff the topic had callbacks |
| Client.RpcClient.SendTopic | include/rpc_client.hpp:246-254 | one subscribe packet with the topic's tags joined in some iteration order |
| Client.RpcClient.ReSubscribe | include/rpc_client.hpp:244-256 | exactly one packet per topic, its tags joined in some order, behind the failed front, which is sent again; the new packets alone subscribe an empty session to exactly the client's keys iff each names exactly its topic's tags, as each does if every topic's tags are safe |
| Client.RpcClient.BindCb | include/rpc_client.hpp:331-362 | the next id, never in use; a null callback leaves no entry |
| Client.RpcClient.RemoteCallAsync | include/rpc_client.hpp:182-184 | the request carries the id its callback is bound to |
| Client.RpcClient.DealResponse | include/rpc_client.hpp:453-463 | the callback bound to the id is returned and is gone from the map; an unknown id changes nothing |
| Client.RpcClient.DealPublication | include/rpc_client.hpp:431-443 | a publication calls the callback of its own topic and tag, or none |
| Reconnect.DealtIn | include/rpc_server_session.hpp:248-289 | a packet decides the keys it names and leaves the others |
| Reconnect.SuffixGivesLess | include/rpc_client.hpp:401-407 | a suffix of the commands on an empty session gives a subset of what all of them give: acknowledged packets may be lost, nothing is revived |
| Reconnect.TopicRestoredExactly | include/rpc_client.hpp:246-254 | the packet of one topic names exactly that topic's keys in every iteration order iff the topic's tags are safe |
| Reconnect.TopicAgreesExactly | include/rpc_client.hpp:246-254 | of the state too: when the queue brings an empty session nothing of a topic that re_subscribe has still to write, then after that write queue and map agree on the topic's keys in every iteration order iff its tags are safe |
| Reconnect.CallsStep | include/rpc_client.hpp:188-241 | inserted keys stay in the map or are about to be inserted again, and cancelled keys stay out until the packet is queued, whatever calls overlap, as long as each cancel is apart |
| Reconnect.PacketStep | include/rpc_client.hpp:188-256 | every packet a call or re_subscribe queues settles its keys as the map has them |
| Reconnect.LinkStep | include/rpc_client.hpp:381-399 | failure, loss, reconnect, start and end of re_subscribe keep the invariant; the end closes the gap |
| Reconnect.MoveStep | include/rpc_client.hpp:401-408 | bytes accepted, acknowledged or dealt with keep it, with the front both sent and queued in between |
| Reconnect.InvStep | include/rpc_client.hpp:188-256 | every label keeps the whole invariant |
| Reconnect.TwiceIsOnce | include/rpc_client.hpp:401-403 | replaying the unacknowledged front twice is replaying it once |
| Reconnect.Convergence | include/rpc_client.hpp:381-408 | in every state of every run, synced and connected, a key no call names is given by replaying transit and queue onto the live session iff the client holds it |
| Reconnect.QuietConvergence | include/rpc_client.hpp:244-256 | with no call under way the replay gives exactly the client's keys; with nothing left to send or deal with the session's record is the client's key set |
| Reconnect.NothingRevived | include/rpc_client.hpp:381-408 | at every moment the queue replayed onto an empty session gives only keys the client holds or a call names; re_subscribe finds a front to send |
| Reconnect.PlainTagsSurvive | include/rpc_client.hpp:246-254 | if no tag ever subscribed ends in a bar, every re_subscribe finds safe tags |
| Reconnect.CallersConvergence | include/rpc_client.hpp:188-256 | convergence with conditions on subscribe and cancel calls only: no subscribed tag ends in a bar, every cancel is apart |
| Reconnect.LockedCallersConvergence | include/rpc_client.hpp:188-256 | convergence with what callers can arrange among themselves: no subscribed tag ends in a bar, and no cancel begins on a key that a call under way names |
| Reconnect.AllCompletedKeys | include/rpc_client.hpp:190-222 | subscribes run to their ends add exactly what they still had to insert and subscribe the session to everything they name |
| Reconnect.SubscribeDoes | include/rpc_client.hpp:188-223 | a whole subscribe call adds exactly the keys of its split and queues one packet that names them |
| Reconnect.CancelDoes | include/rpc_client.hpp:225-241 | a whole cancel call takes exactly the keys of its split away and queues one packet iff the client had the topic |
| Reconnect.ApartIsExact | include/rpc_client.hpp:188-241 | for every state the invariant allows, every cancel and every order in which the calls under way complete: the outcome converges iff the cancel was apart |
| Reconnect.OverlapDiverges | include/rpc_client.hpp:188-241 | a run where a cancel overtakes a subscribe of the same key: no callback is left, the session stays subscribed |
| Reconnect.TrailingBarDiverges | include/rpc_client.hpp:244-256 | a run with calls apart and a tag ending in a bar: after the reconnect the session has two tags never named and lacks one |
| Reconnect.HashedRecordMirrors | include/rpc_server_session.hpp:248-289 | with an injective hash the session's hashed record and the (topic, tag) pairs stay the same thing |
| Recovery.Resubscribes | include/rpc_client.hpp:244-256 | from any point of re_subscribe the client can get through the topics that are left, whatever becomes of the connection |
| Recovery.Drains | include/rpc_client.hpp:364-409 | on a live connection everything queued can arrive, be acknowledged and be dealt with, and then the session holds exactly the client's keys |
| Recovery.CanRecover | include/rpc_client.hpp:244-409 | in every state of every careful run, with no call under way and safe tags, the client can get to a live connection with nothing left to send or deal with and a session that holds exactly the client's keys |
| Requests.IdsStep | include/rpc_client.hpp:331-362 | ids stay one per call and the map holds only given callbacks |
| Requests.WireStep | include/rpc_server.hpp:159-178 | every response carries the id of a request it answers with what the handler returned for it |
| Requests.FireStep | include/rpc_client.hpp:453-463 | a callback that ran stays gone |
| Requests.CallbacksMatch | include/rpc_client.hpp:453-463 | in every run each callback fires at most once, and only with the handler's result for the very request its id was allotted to |
| Requests.ResponsesFire | include/rpc_client.hpp:453-463 | once a response to a call with a callback is received that callback has run exactly once, with this response's reply if it had not run before; if it had, nothing changes |
| Requests.HandlersAnswer | include/rpc_server.hpp:159-178 | a handler that returns leaves a response with the id of the very request its session read and with the reply it returned |
| Requests.CanStillFire | include/rpc_client.hpp:331-463 | whatever has happened, a callback that has not run can still run, with any reply a handler may give: no call and no callback is ever forgotten |
| Requests.IdsAreUnique | include/rpc_client.hpp:359-361 | two calls never share an id, and no response carries the id 0 of control packets |
| Requests.RepeatsAreIgnored | include/rpc_server_session.hpp:133-140 | a repeated response, or one to a call without callback, changes nothing |
| SparseFile.SkipAndWrite | contrib/zstd/programs/fileio.c:1965-1975 | seeking over the owed zeros and writing puts the zeros and the bytes on disk |
| SparseFile.CountZeroWords | contrib/zstd/programs/fileio.c:1961-1963 | the scan finds exactly the leading zero words of a segment |
| SparseFile.WriteSegment | contrib/zstd/programs/fileio.c:1956-1976 | a segment's bytes are on disk or owed, in place |
| SparseFile.WriteTail | contrib/zstd/programs/fileio.c:1979-1997 | the same for the bytes after the last whole word |
| SparseFile.FwriteSparse | contrib/zstd/programs/fileio.c:1924-2000 | what is on disk, up to the position, and owed grows by exactly the buffer, in the sparse, plain and test modes |
| SparseFile.FwriteSparseEnd | contrib/zstd/programs/fileio.c:2002-2017 | everything owed is on disk and the file ends at the position |
| SparseFile.CounterStaysSmall | contrib/zstd/programs/fileio.c:1946-1952 | with buffers of at most B <= 1 GB the counter stays at most 1 GB + B and never wraps |
| SparseFile.WriteBlocks | contrib/zstd/programs/fileio.c:1924-2017 | any sequence of calls and the closing call append exactly the buffers, sparse or not, and nothing in test mode |
| SparseFile.PassThrough | contrib/zstd/programs/fileio.c:2020-2050 | the output is the loaded bytes and, except in test mode, the rest of the input |
| GzRead.GzReader.Load | contrib/zstd/zlibWrapper/gzread.c:32-58 | min(len, remaining) bytes however reads are cut; eof iff fewer, or none were asked for |
| GzRead.GzReader.Avail | contrib/zstd/zlibWrapper/gzread.c:67-91 | leftover input first, then as much of the file as fits |
| GzRead.GzReader.Look | contrib/zstd/zlibWrapper/gzread.c:102-180 | buffers exist afterwards and the bytes to come are the same; raw input ends up in copy mode |
| GzRead.GzReader.Fetch | contrib/zstd/zlibWrapper/gzread.c:241-268 | the bytes to come are the same, and some are buffered unless the input has ended |
| GzRead.GzReader.Skip | contrib/zstd/zlibWrapper/gzread.c:271-300 | drops min(len, remaining) bytes and moves the position by as many |
| GzRead.GzReader.ReadTurn | contrib/zstd/zlibWrapper/gzread.c:327-380 | each of the four branches of the loop moves the next bytes to the caller or makes progress |
| GzRead.GzReader.ReadBytes | contrib/zstd/zlibWrapper/gzread.c:306-384 | exactly the next min(len, remaining) bytes, pending seek applied, nothing else of the caller's buffer touched |
| GzRead.GzReader.Gzread | contrib/zstd/zlibWrapper/gzread.c:387-420 | the same for gzread, with the exact position afterwards, the sticky error and the length that does not fit an int |
| GzRead.GzReader.Gzgetc | contrib/zstd/zlibWrapper/gzread.c:471-498 | the next byte or -1 |
| GzRead.GzReader.Slide | contrib/zstd/zlibWrapper/gzread.c:550-557 | the overlapping slide keeps the buffered bytes |
| GzRead.GzReader.Gzungetc | contrib/zstd/zlibWrapper/gzread.c:507-564 | the byte comes back first, before exactly what would have been read; a full buffer is an error |
| GzRead.GzReader.PushBack | contrib/zstd/zlibWrapper/gzread.c:507-564 | any text up to the free room of the buffer comes back in front of everything else |
| GzRead.PushBackThenRead | contrib/zstd/zlibWrapper/gzread.c:306-384 | a read after pushing back returns the pushed text and then exactly what would have been read before, up to a full buffer and at the end of the file |
| GzRead.GzReader.Gzrewind | contrib/zstd/zlibWrapper/gzlib.c:346-366 | position 0 and the whole stream to come |
| GzRead.GzReader.Gzseek | contrib/zstd/zlibWrapper/gzlib.c:369-443 | the reported position is the target, lazily or at once, and the bytes to come are those at the target; refused targets |
| GzRead.GzReader.Gztell | contrib/zstd/zlibWrapper/gzlib.c:458-472 | position and pending skip |
| GzRead.GzReader.CleanView | contrib/zstd/zlibWrapper/gzlib.c:458-472 | without push-backs the next bytes are the stream's at the reported position: descriptor offset = start + position + buffered |
| GzRead.GzReader.constructor | contrib/zstd/zlibWrapper/gzlib.c:78-91 | a fresh reader stands at position 0 without buffers |
| GzRead.CursorReads | contrib/zstd/zlibWrapper/gzread.c:306-384 | of the reference cursor: a read returns the next min(n, remaining) bytes, pushed-back ones first, takes exactly those away and moves the position over them; from past the end it finds nothing and a pending way there stops at the end |
| GzRead.RoomAfterRead | contrib/zstd/zlibWrapper/gzread.c:345-346 | after a call that takes bytes there is room for at least one push-back |
| GzRead.CursorPushes | contrib/zstd/zlibWrapper/gzread.c:507-564 | of the reference cursor: a pushed-back byte comes first, then what would have come, and takes up one place in the buffer |
| GzRead.UngetOne | contrib/zstd/zlibWrapper/gzread.c:507-564 | a push-back finds no room exactly when the reference cursor is full; otherwise the reader follows the cursor |
| GzRead.CursorSeeks | contrib/zstd/zlibWrapper/gzlib.c:369-443 | of the reference cursor: a seek to a position of the stream goes there, whatever was pushed back or pending |
| GzRead.SeekOne | contrib/zstd/zlibWrapper/gzlib.c:369-443 | the reader follows the reference cursor through every seek: bad whence, refused targets, which drop the pending seek, targets inside pushed-back bytes, lazy and immediate ones |
| GzRead.Run | contrib/zstd/zlibWrapper/gzread.c:306-564 | over whole runs of reads, gzgetc, gzungetc, seeks and rewinds each call returns what the reference cursor says and gztell64 reports where it stands; told by bytes and positions, a read gives the stream's bytes from the reported position on, a seek goes to its target, and a pushed-back byte comes first and then what lay there; the run ends early exactly at a push-back that finds the cursor full, and never right after a call that took bytes |
| GzWrite.GzWriter.Init | contrib/zstd/zlibWrapper/gzwrite.c:22-70 | a buffer of twice the size with whatever malloc left in it |
| GzWrite.GzWriter.Comp | contrib/zstd/zlibWrapper/gzwrite.c:78-103 | everything at next_in goes to the descriptor, in order, however writes are cut |
| GzWrite.GzWriter.Zero | contrib/zstd/zlibWrapper/gzwrite.c:150-179 | zeros on a writer with a buffer: the one memset serves every chunk; without a buffer the malloc bytes, over and over |
| GzWrite.GzWriter.WriteBytes | contrib/zstd/zlibWrapper/gzwrite.c:184-248 | content afterwards is the old content, zeros for the pending seek and then all the caller's bytes, small or large |
| GzWrite.GzWriter.WriteSmall | contrib/zstd/zlibWrapper/gzwrite.c:206-226 | the copy loop appends, flushing when full |
| GzWrite.GzWriter.WriteLarge | contrib/zstd/zlibWrapper/gzwrite.c:227-244 | the bypass loop appends behind what was buffered |
| GzWrite.GzWriter.Gzwrite | contrib/zstd/zlibWrapper/gzwrite.c:251-276 | the same for gzwrite, with the sticky error and the length that does not fit an int |
| GzWrite.GzWriter.Gzputc | contrib/zstd/zlibWrapper/gzwrite.c:310-355 | one byte is appended after the zeros of the pending seek, on the fast and the slow path |
| GzWrite.GzWriter.Gzseek | contrib/zstd/zlibWrapper/gzlib.c:369-443 | forward seeks become pending zeros, backward ones are refused and cancel what was pending |
| GzWrite.GzWriter.Gztell | contrib/zstd/zlibWrapper/gzlib.c:458-472 | accepted bytes plus pending seek |
| GzWrite.GzWriter.Close | contrib/zstd/zlibWrapper/gzwrite.c:633-671 | the buffer is empty and the file holds everything accepted, pending seek included |
| GzWrite.ChunkOfGap | contrib/zstd/zlibWrapper/gzwrite.c:162-177 | each chunk of gz_zero continues the gap |
| GzWrite.Run | contrib/zstd/zlibWrapper/gzwrite.c:184-355 | over whole runs, ending with the close: the old content stays; each write's bytes and each gzputc's byte lie in the file at the position reported before the call, and the position moves over them; a seek goes to its target or, refused, to the end of what was accepted; every other byte is zero in a clean run; the file ends at the last reported position; writes alone append all buffers |
| GzWrite.LiesWhereReported | contrib/zstd/zlibWrapper/gzwrite.c:184-355 | the bytes a call hands over lie in the final file where the position reported before it says, whatever calls follow |
| GzWrite.RestOfFileIsZero | contrib/zstd/zlibWrapper/gzwrite.c:150-179 | in a run that never hits the bare buffer every byte no call handed over is zero |
| GzWrite.WritesOnly | contrib/zstd/zlibWrapper/gzwrite.c:184-248 | writes and nothing else append all their buffers, one after another |
| GzWrite.AcceptedBytesStay | contrib/zstd/zlibWrapper/gzwrite.c:184-355 | accepted bytes are never lost or moved |
| GzWrite.CleanRunsAreIdeal | contrib/zstd/zlibWrapper/gzwrite.c:150-179 | runs that never hit the bare buffer give the ideal file with zeros in every gap |
| GzWrite.BareRunsShowJunk | contrib/zstd/zlibWrapper/gzwrite.c:150-179 | runs that do hit it show memory contents in the file |
| GzWrite.SeeksBecomeZeros | contrib/zstd/zlibWrapper/gzwrite.c:150-179 | for every run: seeks become zeros whatever malloc returns iff no gzputc or close is the first to process a pending seek on a writer without a buffer |
| GzWrite.BareExample | contrib/zstd/zlibWrapper/gzwrite.c:310-355 | seek 3, putc, close on a new file leaves three malloc bytes in it |
| GzWrite.RefusedSeekCancels | contrib/zstd/zlibWrapper/gzlib.c:410-432 | a refused backward seek drops the pending one, so the reported position goes back |
| Unpacker.OwnerLeaves | contrib/msgpack-c/src/unpack.c:344-350 | the unpacker giving up its share keeps every count equal to the owners |
| Unpacker.FinalizerRuns | contrib/msgpack-c/src/unpack.c:344-350 | a finalizer run once gives up one share; freed exactly at zero |
| Unpacker.FinalizerAdded | contrib/msgpack-c/src/unpack.c:352-356 | a zone's new finalizer takes one share |
| Unpacker.OwnerBecomesFinalizer | contrib/msgpack-c/src/unpack.c:485-493 | a finalizer takes over the unpacker's share without a count change |
| Unpacker.BufferMoves | contrib/msgpack-c/src/unpack.c:449-461 | realloc of a buffer with one owner keeps the account |
| Unpacker.Unpacker.constructor | contrib/msgpack-c/src/unpack.c:363-399 | one buffer, count 1, nothing to parse |
| Unpacker.Unpacker.Feed | contrib/msgpack-c/include/msgpack/unpack.h:225-239 | bytes put into the free space become unparsed bytes |
| Unpacker.Unpacker.Execute | contrib/msgpack-c/src/unpack.c:504-513 | parsing consumes a prefix; referenced is set when an object points into the buffer |
| Unpacker.Unpacker.FlushZone | contrib/msgpack-c/src/unpack.c:540-552 | a referenced buffer becomes its zone's last finalizer and its count goes up by one, or nothing changes |
| Unpacker.Unpacker.ReleaseZone | contrib/msgpack-c/src/unpack.c:520-533 | the zone handed out holds a finalizer for every buffer its objects point into |
| Unpacker.Unpacker.RunFinalizers | contrib/msgpack-c/src/zone.c:107-113 | the zone's finalizers give up its shares, last registered first |
| Unpacker.ZoneCallsDecr | contrib/msgpack-c/src/zone.c:107-113 | the calls that the zone's finalizer array makes do to the buffers what the unpacker's account says |
| Unpacker.Unpacker.FreeZone | contrib/msgpack-c/src/zone.c:217-222 | freeing a zone gives up exactly its shares and keeps the unparsed bytes |
| Unpacker.Unpacker.ResetZone | contrib/msgpack-c/src/unpack.c:535-538 | the current zone's finalizers run and its objects are gone |
| Unpacker.Unpacker.Destroy | contrib/msgpack-c/src/unpack.c:401-406 | current zone and the unpacker's own share are given up |
| Unpacker.Unpacker.Rewind | contrib/msgpack-c/src/unpack.c:431-437 | an unreferenced fully parsed buffer is reused from its start |
| Unpacker.Unpacker.Reallocate | contrib/msgpack-c/src/unpack.c:443-461 | the doubling loop ends with room enough and the unparsed bytes are kept, moved or not |
| Unpacker.Unpacker.CopyOut | contrib/msgpack-c/src/unpack.c:462-499 | the unparsed bytes move to a new buffer; the old one goes to the zone or is given up |
| Unpacker.Unpacker.ExpandBuffer | contrib/msgpack-c/src/unpack.c:429-502 | granted exactly if rewinding makes room, or memory is there and the old buffer can be handed on; rewinding allocates nothing; a buffer nobody else needs grows in place or moves; any other is left to the zone whose objects need it, or released; all other buffers and the unparsed bytes stay; failure changes no buffer, zone or flag |
| Unpacker.Unpacker.ObjectsAreSafe | contrib/msgpack-c/src/unpack.c:278-328 | as long as a zone has objects pointing into a buffer, that buffer is not freed |
| Unpacker.Unpacker.ReallocIsSafe | contrib/msgpack-c/src/unpack.c:443-461 | the branch that reallocs never moves a buffer that a zone points into or has a finalizer for |
| Unpacker.Unpacker.NoLeak | contrib/msgpack-c/src/unpack.c:339-406 | once the unpacker and all zones are gone every buffer has been freed |
| Unpacker.RunOne | contrib/msgpack-c/src/unpack.c:363-552 | one call on the unpacker does to its whole state what the step relation says: parsed prefix and position, zones made, shared, emptied and gone, counts given up and taken, room granted, buffers moved and replaced |
| Unpacker.BytesConserved | contrib/msgpack-c/src/unpack.c:429-513 | along every trace the bytes fed are the bytes parsed followed by the bytes unparsed, through growth, moves and changes of owner |
| Unpacker.NothingLeft | contrib/msgpack-c/src/unpack.c:339-406 | in a sound state without unpacker and zones every buffer is freed |
| Unpacker.Run | contrib/msgpack-c/src/unpack.c:363-552 | over whole runs of feeding, parsing, growing, flushing, releasing, resetting, freeing and destroying: each call the callee's rules allow leads where the step relation says and the others are left out; at every moment counts are owners, a buffer is freed exactly at zero and no object outlives its buffer; the bytes fed are those of the allowed feeds and are the bytes parsed and unparsed; nothing is left at the end |
| Zone.Zone.constructor | contrib/msgpack-c/src/zone.c:184-215 | one chunk of the chunk size, nothing registered |
| Zone.Zone.GrowTo | contrib/msgpack-c/src/zone.c:69-81 | the doubling search ends with at least the size asked, and with the chunk size itself or less than twice the size asked, 64-bit wrap included |
| Zone.Zone.Malloc | contrib/msgpack-c/include/msgpack/zone.h:106-127 | with room in the head the next aligned bytes of it; without, what the system allocator returns for a big enough chunk, null exactly if that is; aligned, and overlapping no earlier allocation; the last chunk stays the first one ever made |
| Zone.Zone.PushChunk | contrib/msgpack-c/src/zone.c:83-97 | the new chunk becomes the head and earlier allocations keep their places |
| Zone.Zone.PushFinalizer | contrib/msgpack-c/src/zone.c:127-160 | the finalizer is registered last, or nothing changes when realloc fails |
| Zone.Zone.CallFinalizers | contrib/msgpack-c/src/zone.c:107-113 | every registered finalizer once, in reverse order |
| Zone.Zone.Clear | contrib/msgpack-c/src/zone.c:178-182 | finalizers run and are forgotten; all chunks but the last are freed; free is the size of the one left |
| Zone.Zone.Destroy | contrib/msgpack-c/src/zone.c:172-176 | finalizers run, every chunk is freed once |
| Zone.Zone.IsEmpty | contrib/msgpack-c/src/zone.c:163-169 | empty iff no finalizer is registered and no byte was handed out since the start or the last clear |

## Left out

- Sockets, asio, DNS, timers and real time: write succeeded, write failed, connected, lost and timer fired are steps that may happen at any moment. Only safety is claimed, not that a reconnect ever succeeds.
- Bodies of 1 KiB and more on the queued paths, the zstd codec and the compression buffer shared by the sessions of a thread: bodies are values below the threshold. Topics are assumed to fit 8 bits of length and tags 16 (`Frames.PacketRoundTrip` says exactly when framing is lossless).
- Byte interleaving between a session's three write paths on one socket: each asynchronous write is one append.
- Hash collisions: server properties are stated over hashes, and the link to names (`TagStrings.KeySetsAgree`, `Reconnect.HashedRecordMirrors`) assumes an injective hash. Publishing with the literal tag "*" dispatches twice; the model does the same.
- Callbacks that call back into the client, what a moved-from callback does when it is called, handler dispatch on argument types, exceptions in handlers other than as "no response", wrap-around of 64-bit ids, server shutdown.
- The session's response queue as an object: it is the same code as the publish queue, and `SendQueue` covers both.
- Server.RpcServer.Publish: asks that no two sessions share a queue object, which in the source holds because the queue is a member of the session.
- One client in the request model: several clients have separate id spaces and sessions.
- SparseFile.FwriteSparse: asks that the 32-bit counter's sums do not wrap; `SparseFile.CounterStaysSmall` shows that buffers of at most 1 GB always meet this. Failing seeks and writes, which end the program, are left out.
- SparseFile.PassThrough: asks for a buffer that is not empty; with one of size zero every read returns the block size and the loop of the source would never end.
- Compressed input and output, gzip headers, read and write errors, gzprintf and the flush levels: the gz engines are modelled in raw (transparent) mode, where the buffers' logic is visible in full. A write may be partial but does not fail.
- GzRead.GzReader.Gzungetc: asks that the buffers exist (some read or skip came first); on a fresh reader the source has no buffer to push into, and `GzRead.Run` leaves such a call out. What happens after an over-full push and gzclearerr is not modelled.
- GzRead.Run: a run ends at the push-back that finds the buffer full and leaves the later calls out, because the reader then has a sticky error; which push-back that is, `GzRead.Run` says exactly.
- GzRead.GzReader.Gzseek: the branch that rewinds a decompressing reader cannot be reached by a raw one and is shown to be dead.
- Unpacker.Unpacker.Execute: the parser itself is abstracted to how far it gets, whether it needed a zone and whether it left an object pointing into the buffer.
- Unpacker.Unpacker.ExpandBuffer: sizes are assumed not to overflow 64 bits when added, as in the source.
- The msgpack pack and parse templates, `msgpack_vrefbuffer_migrate`, the zstd command line, dictionaries, benchmarks and the rest of `fileio.c`.
