# A verified model of the chat server's data path and logic

The repository is a chat system in C++: a reactor server with sharded connections, a worker pool
and a logic thread (v4), its earlier form (v3), and their terminal clients. This project models
the parts that move bytes, keep indexes and hand work between threads, in the form the source
has - classes whose methods update fields and arrays in place, step systems where threads
interleave - and proves what they promise.

Kernel calls are oracles. On a non-empty request `writev` and `readv` move any number of bytes
from 1 to what was asked, would block, fail, or (for `readv`) report end of file once everything
sent was read. Clocks, payload parsing and scheduling are inputs, so a theorem over all inputs
covers all of them.

## What is proved

**Bytes out** (`connection`, `outgoing`, `broadcast`, `broadcast_tasks`). Four entry points share a
deque of partly sent packets, an incremental byte counter, a pause flag and a cached epoll mask.
Each of them conserves bytes - what the socket took, followed by the unsent remainders, is
everything ever enqueued - with the counter exact and its clamp dead. Each releases the lock only
with something queued if the socket has just refused a write; then writing is armed and watched, and
a paused connection has something queued. The nested loops end because the bytes owed or the queue
length fall. A broadcast batch adds to each open connection, once, a prefix of the events that are
not its own; `broadcast_tasks` shows it for every interleaving of the shard tasks of several
batches.

**Bytes in** (`ring_buffer`, `framing`, `codec`, `incoming`, `client`). The ring buffer, a fixed
array with two positions, refines a bounded byte queue over every run of operations, filled by
`write` or by scatter reads. `Walk` is the one reading of a stream; both read loops are compared
with it.

**End to end** (`end_to_end`). What a client has handled is, in order and unmodified, what parses of
a prefix of what the server enqueued for it, and is all of it once everything was written, read and
parsed.

**The chat** (`token_bucket`, `rate_limit`, `chat_state`, `chat_laws`, `chat_app`, `chat_replies`).
Invariants of three redundant indexes over all runs, the exact condition under which the indexes
hold nothing else, who is sent what, and an exact account of which message of a session the rate
limiter rejects. What every input does, and who receives what, is also stated on its own, without
the handlers.

**Threads** (`safe_queue`, `lifecycle`, `event_order`, `broadcast_wakeup`). Step systems with
inductive invariants: no lost wakeup or item, the events of a connection in order with exactly one
DISCONNECT - which is what the chat assumes of its input - and no stranded broadcast.

**Descriptors and timers** (`conn_table`). Ownership of descriptors under every order of accepts,
closes and pointer drops, and an idle sweep that is correct although heap events go stale,
descriptors are reused, and other threads act between its steps.

**v3** (`legacy_client`, `login_cuts`, `legacy_names`). When the string parser agrees with the codec,
that nothing is lost at the login hand-over, when the outcome of a login is settled, and that name
claims are safe under every interleaving.

## What the proofs found

- `BATCH_FLUSH_THRESHOLD` decides nothing: in every state that a lock release leaves, another
  disjunct of the flush condition holds, so every send attempts a write
  (`Outgoing.SendAlwaysFlushes`). The arming branch of `flush_all_queues` is dead too.
- `attempt_write` returns on would-block before its low-water check. The pause flag is therefore
  cleared if and only if the queue is drained, not at 128 KB: every entry point says so, and
  `Outgoing.PausedBelowLow` is a connection below the mark that stays paused.
- A cleared flag is not yet reading. With EPOLLIN off, an entry point turns it on if and only if it
  computes the mask anew (`SendPreEncoded`, and `handle_write` unless its write failed) and leaves
  the flag clear; the timer's flush and the broadcasts may drain the queue and leave it off
  (`Outgoing.Enter`; `Outgoing.DrainedYetUnwatched` is a connection). Until then writing is
  watched, so that a `handle_write` is due (`Outgoing.UnreadIsArmed`).
- A broadcast can leave a connection paused with EPOLLIN watched. It does so if and only if
  EPOLLIN was watched, the connection was paused or the bytes owed reach the high-water mark, and
  something is left after the write (`Outgoing.BroadcastTo`; `Outgoing.PausedYetWatched` is one).
- A header above 10 MB makes framing depend on how reads cut the stream, if and only if anything
  follows it (`Framing.ChunkIndependence`, `Framing.OversizeDependsOnCut`). The v3 client's parser
  has no such limit and agrees with the codec if and only if there is no such header
  (`LegacyClients.SplitIsDecode`).
- A second login on a logged-in session leaves its old name in `online_users_` for good. The
  indexes are exact if and only if no run contains one (`ChatState.ExactUnlessRelogin`); one does
  (`ChatState.ReloginHappens`).
- In v3 a disconnect hook can miss a name: a worker has inserted it and not yet written the field,
  or inserts it after the hook. The name is then taken for ever. Every name in the set can still be
  released if and only if neither has happened (`LegacyNames.ReleasableUnlessMissed`), and either
  can (`LegacyNames.HookBeforeWrite`, `LegacyNames.HookBeforeClaim`).
- v3's `login` takes one frame per `recv` and then waits, so whether it succeeds can depend on how
  `recv` cuts what the server sends: a welcome that comes together with the frame before it is not
  seen (`LoginCuts.WelcomeTogether`). It is the same for every cut if and only if no frame is a
  welcome, or wherever reading has got to, the frames there and the `recv` calls bound to come are
  more than the frames before the welcome (`LoginCuts.LoginDependsOnCut`); of a stream that one
  `recv` can return, if and only if none or the first is (`LoginCuts.OneRecvCanTakeAll`).
- v4's client stops behind a frame that does not parse, and complete frames behind that one stay in
  the ring until more bytes come (`Clients.SecondIsLeft`). It takes all complete frames of its ring
  if and only if all but the last parse (`Clients.DrainTakesAll`).

## Model

| member | source | states |
|---|---|---|
| Framing.HeaderRoundTrip | v4/codec.h:55-59 | a length survives the four header bytes exactly modulo 2^32 |
| Framing.EncodeDecode | v4/codec.h:12-61 | decoding undoes encoding, whatever follows, if and only if the payload has at most 10 MB |
| Framing.DecodeEncode | v4/codec.h:12-42 | what a successful decode removed was the encoding of the payload it returned |
| Framing.WalkIsTheReading | v4/codec.h:12-42 | a stream splits into small frames and an incomplete tail in exactly one way, which the reference reading finds |
| Framing.WalkResumes | v4/webserver.cpp:574-590 | reading may stop anywhere and go on from the leftover bytes |
| Framing.PrefixOfStream | v4/codec.h:49-61 | every prefix of a stream the server writes reads as its first payloads and a proper piece of the next frame |
| Framing.WholeStream | v4/codec.h:49-61 | a whole stream reads back as it was written, with nothing left |
| Framing.DecodeAllIsWalk | v4/webserver.cpp:574-590 | repeated decoding finds the frames of the reading and keeps its tail, or nothing if that starts with a header above 10 MB |
| Framing.FeedIsWalk | v4/webserver.cpp:541-591 | fed in chunks, with leftovers kept in between, the decode loop yields the reading of the concatenation |
| Framing.EveryCutIsTheReading | v4/codec.h:25-30 | every way of cutting a stream gives its reading if and only if no header in it claims more than 10 MB |
| Framing.FeedBareHeader | v4/codec.h:25-30 | a stream that ends right behind a header above 10 MB comes out alike for every cut |
| Framing.HoldBackOneByte | v4/codec.h:25-30 | if anything follows such a header, holding back the last byte leaves that byte in the buffer, which reading in one piece does not |
| Framing.ChunkIndependence | v4/codec.h:25-30 | any two cuts of a stream give the same frames and the same leftover bytes if and only if no header claims more than 10 MB or the stream ends right behind the one that does |
| Framing.OversizeDependsOnCut | v4/codec.h:25-30 | eight concrete bytes that yield no message in one read and one message in two |
| RingBuffers.FreeRegionsAreTheFreeSlots | v4/ringbuffer.h:47-74 | the writeable regions are exactly the free slots, in the order the queue uses them, and hold no live byte |
| RingBuffers.ScatterIsTwoCopies | v4/ringbuffer.h:27-74 | filling the writeable regions in order amounts to the two copies of `write` |
| RingBuffers.TwoCopiesAppend | v4/ringbuffer.h:27-45 | the two copies append to the queue and overwrite nothing in it, wrapped or not |
| RingBuffers.ScatterAppends | v4/ringbuffer.h:47-83 | scattering n bytes appends exactly them and leaves the queue alone |
| RingBuffers.RingBuffer.constructor | v4/ringbuffer.h:22-23 | a new buffer of any positive capacity is an empty queue |
| RingBuffers.RingBuffer.Write | v4/ringbuffer.h:27-45 | appends the longest prefix that fits, leaving the storage that scattering the same bytes would leave |
| RingBuffers.RingBuffer.GetWriteableIovecs | v4/ringbuffer.h:47-74 | the free regions: they total the free space, and none means full |
| RingBuffers.RingBuffer.CommitWrite | v4/ringbuffer.h:76-83 | the write position moves around the ring and the invariant of positions and count is kept |
| RingBuffers.RingBuffer.Receive | v4/webserver.cpp:547-562 | a scatter read followed by its commit appends the bytes read |
| RingBuffers.RingBuffer.Peek | v4/ringbuffer.h:85-98 | the oldest bytes, without change |
| RingBuffers.RingBuffer.Consume | v4/ringbuffer.h:100-105 | drops a prefix, all of it when asked for more |
| RingBuffers.RingBuffer.ContiguousRead | v4/ringbuffer.h:107-117 | the contiguous view is a prefix of the contents: all of them, or as far as the end of the storage |
| RingBuffers.Apply | v4/ringbuffer.h:27-105 | each operation answers and moves as the bounded byte queue does |
| RingBuffers.Replay | v4/ringbuffer.h:27-105 | every sequence of operations on a ring of any capacity is observed as on the bounded queue |
| Codecs.Decode | v4/codec.h:12-42 | one decode on the ring takes off it what the codec takes off the byte string it holds |
| Codecs.DecodeLoop | v4/webserver.cpp:574-590 | the inner loop yields all complete frames in the ring, in order, and ends |
| Codecs.EncodeInto | v3/codec.h:27-38 | the encoder that fills an output vector writes the same frame as the one that returns it |
| Connections.Connection.constructor | v4/webserver.cpp:514-529 | an accepted connection satisfies everything that holds when the lock is free |
| Connections.Connection.MarkClosed | v4/webserver.cpp:652-661 | only the first closer proceeds; the descriptor is then no longer watched |
| Outgoing.Writev | v4/webserver.cpp:242 | the oracle: any non-empty prefix of the request, would-block, or an error |
| Outgoing.Gather | v4/webserver.cpp:219-236 | the request is the start of the unsent bytes: no empty region, at most 64, and everything if there are fewer |
| Outgoing.AdvanceDropsExactly | v4/webserver.cpp:253-268 | advancing the queue by n drops exactly the first n unsent bytes, whatever empty packets lie in between |
| Outgoing.DropSent | v4/webserver.cpp:253-268 | the inner loop advances the queue by what was written |
| Outgoing.WriteRound | v4/webserver.cpp:217-280 | one turn conserves bytes with the counter exact, is refused or makes progress, and counts what the socket took |
| Outgoing.AttemptWrite | v4/webserver.cpp:213-286 | conserves bytes, leaves something queued only if a writev of this call was refused, tells a fatal refusal from would-block, and resumes reading only after a full drain |
| Outgoing.UpdateEpollEvents | v4/webserver.cpp:195-209 | the kernel's mask keeps following the cached one |
| Outgoing.ArmIfQueued | v4/webserver.cpp:378-382 | arms writing when something is left queued and changes nothing else |
| Outgoing.ToggleWriteInterest | v4/webserver.cpp:312-329 | afterwards writing is armed exactly when something is queued; the mask's bit flips with the flag and no other bit does |
| Outgoing.Rearm | v4/webserver.cpp:331-347 | the final mask: writing exactly when queued, reading exactly when not paused with room in the buffer |
| Outgoing.PushPacket | v4/webserver.cpp:296-300 | enqueueing keeps conservation and the exact counter |
| Outgoing.CheckHighWater | v4/webserver.cpp:302-306 | pauses reading at the high-water mark and never unpauses |
| Outgoing.FlushIfDue | v4/webserver.cpp:308-329 | conserves bytes, and attempts the write whenever the flush condition holds |
| Outgoing.SendPreEncoded | v4/webserver.cpp:288-348 | enqueues exactly one packet on an open connection and none on a closed one, tries to write at once, pauses reading exactly as the high-water mark and the drain demand, and restores everything that holds when the lock is free |
| Outgoing.SendAlwaysFlushes | v4/webserver.cpp:293-308 | in every released state the flush condition holds, whatever the byte threshold says |
| Outgoing.HandleWrite | v4/webserver.cpp:616-650 | the same invariants; clears the pause flag exactly when the queue is drained, and asks for a close exactly when something is queued and the last write failed |
| Outgoing.FlushOne | v4/webserver.cpp:369-382 | the same invariants for the timer's flush, which clears the pause flag exactly on a full drain, and whose arming branch never changes anything |
| Outgoing.AcceptedIsBounded | v4/webserver.cpp:430-452 | a batch adds a prefix of the wanted payloads, cut short only where the queue reaches 5000 and never past it |
| Outgoing.WantedAreTheOthers | v4/webserver.cpp:432 | the wanted events are those of the batch that do not name the connection's descriptor as their sender's, even if a previous owner of it sent them |
| Outgoing.EnqueueBatch | v4/webserver.cpp:429-452 | the loop appends exactly the accepted prefix to queue and history |
| Outgoing.FlushBatch | v4/webserver.cpp:454-469 | after it, what is queued was just refused and is armed; the pause flag is set exactly if it was, or the mark was reached, and something is left; EPOLLIN stays as it was |
| Outgoing.BroadcastTo | v4/webserver.cpp:421-469 | one connection's part of a batch: the accepted prefix is enqueued once; the connection ends paused with EPOLLIN watched exactly if that was watched, it was paused or the bytes owed reach the mark, and something is left; all invariants are restored |
| Outgoing.NothingTaken | v4/webserver.cpp:243-251 | if the socket took less than was enqueued, exactly the difference is owed |
| Outgoing.PausedYetWatched | v4/webserver.cpp:454-468 | a fresh connection, a broadcast of 256 KB and a first writev that blocks: paused with EPOLLIN watched |
| Outgoing.PausedBelowLow | v4/webserver.cpp:270-283 | 256 KB blocked, 160 KB written later, blocked again: below the low-water mark and still paused |
| Outgoing.DrainedYetUnwatched | v4/webserver.cpp:375-382 | 256 KB blocked, then all written by the timer's flush: drained, not paused, and not watched for reading |
| Outgoing.Enter | v4/webserver.cpp:288-469 | with EPOLLIN off, each entry point turns it on exactly if it computes the mask anew and leaves the pause flag clear; a drain does in two of the four |
| Outgoing.UnreadIsArmed | v4/webserver.cpp:331-347 | an open connection that is not watched for reading is watched for writing |
| Broadcasts.EntryIsUnique | v4/webserver.h:45-47 | the shards partition the connections: each is reached through one entry |
| Broadcasts.DeliverTo | v4/webserver.cpp:421-469 | delivering to one connection of a shard leaves the others as they were |
| Broadcasts.ShardTask | v4/webserver.cpp:403-471 | a shard task delivers the batch to each of its connections once |
| Broadcasts.ProcessGlobalQueue | v4/webserver.cpp:387-477 | the batch reaches every open connection of every shard exactly once, and the queue is empty afterwards |
| BroadcastTasks.DeliverKeeps | v4/webserver.cpp:421-452 | a delivery gives its connection what its queue has room for, and disturbs no other task's account |
| BroadcastTasks.NextKeeps | v4/webserver.cpp:387-477 | every step of workers, senders, writers, closers and accepts keeps the account of what each connection has of each batch |
| BroadcastTasks.EveryInterleaving | v4/webserver.cpp:387-477 | for any number of batches and every interleaving: a connection has a prefix of the events it wants, in order, none twice, cut short only at 5000 queued packets and never past it; a finished task has served all it found open that still are |
| BroadcastTasks.TakenIsAccepted | v4/webserver.cpp:430-452 | a delivery in the step system enqueues what the imperative one does |
| BroadcastTasks.WantedAtIs | v4/webserver.cpp:432 | the wanted positions are all those whose event names another descriptor or none as its sender's |
| BroadcastTasks.WhatARunLeaves | v4/webserver.cpp:254-268 | over any run: a queue holds everything enqueued less everything written, a packet for each send that found the connection open, and a connection is closed exactly if it was closed |
| BroadcastTasks.DeliveryStopsAtTheLimit | v4/webserver.cpp:430-452 | in any run a delivery enqueues a first part of what is wanted; what is then enqueued and not written is at most 5000 if it took anything, at least 5000 if it took less than all; a closed connection gets nothing |
| BroadcastTasks.OpenIsServed | v4/webserver.cpp:405-471 | every connection open when its shard's task begins and still open when it is done has met the batch |
| Incoming.Readv | v4/webserver.cpp:558 | the oracle: a non-empty piece of the peer's bytes that fits, would-block, an error, or end of file after the last byte |
| Incoming.TakeIn | v4/webserver.cpp:560-591 | the messages so far stay exactly the complete frames of the bytes so far, the ring exactly the rest |
| Incoming.FullMeansBigFrame | v4/webserver.cpp:550-556 | the ring is full exactly when 8192 bytes of a longer frame have arrived |
| Incoming.ReadTurn | v4/webserver.cpp:547-607 | one turn takes in one piece or leaves with the reason that the oracle gave |
| Incoming.ReadLoop | v4/webserver.cpp:545-608 | the bytes read are a prefix of the peer's, cut as the reads were logged, and the messages are those of feeding the cuts to the codec |
| Incoming.HandleRead | v4/webserver.cpp:541-614 | messages and ring are the reading of everything received, and the buffer-full close happens exactly on a frame of more than 8192 bytes |
| Clients.DrainFollows | v4/client.cpp:362-371 | fed from a stream of small frames, the client's loop takes frames in order, loses nothing and never leaves the ring full |
| Clients.DrainIsUpToBad | v4/client.cpp:362-371 | the loop takes the complete frames up to and including the first that does not parse |
| Clients.DrainTakesAll | v4/client.cpp:362-371 | it takes all of them if and only if all but the last parse |
| Clients.SecondIsLeft | v4/client.cpp:362-371 | of two frames that arrive together, the first not parsing, the second is left in the ring |
| Clients.Client.DecodeMessages | v4/client.cpp:362-371 | the loop handles the frames that parse and stops behind the first that does not |
| Clients.Client.ReceiveOnce | v4/client.cpp:347-371 | one turn of receive_loop for each outcome of the read, including the discard when the ring is full |
| EndToEnd.ReadingKeepsStep | v4/client.cpp:334-373 | however the stream is cut, the client stays a prefix of frames behind it and its ring never fills |
| EndToEnd.CaughtUp | v4/client.cpp:334-373 | once everything sent was read and parsed, everything sent was taken and nothing is buffered |
| EndToEnd.WireIsStream | v4/webserver.cpp:213-286 | the bytes on the wire are a prefix of the stream of frames enqueued, and all of it when nothing is queued |
| EndToEnd.AcceptedPrefix | v4/webserver.cpp:430-452 | of a broadcast, whole frames of a first part are enqueued |
| EndToEnd.ServerSends | v4/webserver.cpp:288-348 | a send appends one frame to the stream, or nothing once closed |
| EndToEnd.ServerBroadcasts | v4/webserver.cpp:421-469 | a broadcast appends a prefix of its frames to the stream |
| EndToEnd.ClientReads | v4/client.cpp:352-357 | fed by this server with frames of at most 8192 bytes, the client's discard branch is not reached |
| EndToEnd.WhereTheBytesAre | v4/webserver.cpp:213-286 | the stream of everything enqueued is what the client took, then its ring, then what is in flight, then the server's queue |
| EndToEnd.FollowedOn | v4/webserver.cpp:288-292 | the account of what each action enqueued, and of what closed the connection, extends by one action |
| EndToEnd.Act | v4/webserver.cpp:213-385 | every action of server, kernel or client keeps client and server in step, enqueues what it offers as far as the connection allows, and closes exactly on a failed write of its own or on request |
| EndToEnd.Settled | v4/client.cpp:334-373 | with nothing queued or in flight, the client has taken everything exactly if its ring is empty and handled everything exactly if everything parses |
| EndToEnd.RunSession | v4/webserver.cpp:213-385 | for every script and every choice of both kernels, no byte is lost, duplicated or reordered; the client handles, in order and unmodified, what parses of a prefix of what was enqueued; once nothing is queued or in flight that is all of it exactly if everything parses |
| TokenBucket.LevelStep | v4/chatapp.h:143-163 | a message passes exactly when it ends no stretch that is too long, and the level stays the least slack over all stretches |
| TokenBucket.LevelAfter | v4/chatapp.h:143-163 | the bucket after any accepted run holds the least slack of all stretches that end now |
| TokenBucket.ExactlyTheBursts | v4/chatapp.h:143-163 | all messages pass if and only if no stretch of them is longer than 60 plus the seconds it spans |
| TokenBucket.FirstRejection | v3/chatapp.h:65-88 | the first message rejected is the first that ends such a stretch |
| RateLimits.StepCharges | v4/chatapp.h:129-163 | a step charges a session's bucket exactly if it is a parsed message of its own that finds it open |
| RateLimits.RunMeters | v4/chatapp.h:129-163 | over any run an open session's bucket is that of its own messages, all accepted |
| RateLimits.ClosedAtTheFirstBurst | v4/chatapp.h:129-163 | in any run, the limiter closes a session at a message if and only if that ends the first too long stretch of the session's own parsed messages, whatever the others do |
| RateLimits.RefusedOnce | v4/chatapp.h:44-49 | once closed, no message of a session gets as far as the limiter |
| ChatLaws.ConnectStarts | v4/chatapp.h:77-84 | a live session, not logged in, in no room, with sixty tokens; nothing else changes |
| ChatLaws.LoginEnters | v4/chatapp.h:187-203 | a login to a free name makes the session a user by that name, to which the name now leads; any other login changes nothing |
| ChatLaws.JoinMoves | v4/chatapp.h:255-292 | a join of a logged-in session makes the room its current one, puts its name into that room and no other, and moves nobody else |
| ChatLaws.DisconnectReleases | v4/chatapp.h:86-127 | the connection is gone, its name neither online nor in any room, every other entry as before, and a room ends exactly if that name was its last |
| ChatLaws.OthersChangeNothing | v4/chatapp.h:212-354 | chats of every kind, unset messages and joins before login change nothing but the bucket |
| ChatLaws.RefusalCloses | v4/chatapp.h:153-161 | a message the limiter refuses closes its connection and does nothing else |
| ChatLaws.TheRestIsIgnored | v4/chatapp.h:46-49 | what comes from a closed connection, has no session or does not parse changes nothing |
| ChatLaws.GoneIsGoodbye | v4/chatapp.h:86-127 | in every run a connection is gone exactly once its DISCONNECT was delivered |
| ChatLaws.ClosedBySomebody | v4/chatapp.h:153-161 | in every run a connection is closed exactly once another thread or the limiter closed it |
| ChatLaws.SessionsAreWhatTheyDid | v4/chatapp.h:77-322 | in every run a session's name is that of its last login to a free name, its room that of its last join once it had a name, and a live one is in that room |
| ChatState.LiveNamesAreUnique | v4/chatapp.h:187-203 | two live logged-in sessions never share a name |
| ChatState.ConnectKeeps | v4/chatapp.h:77-84 | a new session keeps all invariants |
| ChatState.LeftKeeps | v4/chatapp.h:263-286 | leaving a room keeps them and takes the name out of every room |
| ChatState.DisconnectKeeps | v4/chatapp.h:86-127 | a disconnect keeps them, logged in or not |
| ChatState.LoginKeeps | v4/chatapp.h:187-203 | a login keeps them, also on a session that is logged in already |
| ChatState.JoinKeeps | v4/chatapp.h:255-306 | moving between rooms keeps them, the current room and no room included |
| ChatState.RoomChatChangesNothing | v4/chatapp.h:346 | operator[] on the rooms never creates one |
| ChatState.MessageKeeps | v4/chatapp.h:129-185 | any message, parsed or not, accepted or rate-limited, keeps them |
| ChatState.StepKeeps | v4/chatapp.h:44-75 | every event, and every close by another thread, keeps them |
| ChatState.EveryRunIsConsistent | v4/chatapp.h:44-354 | in every run, relogins included: live names map back, members are online, a name is in its own room only, current rooms exist, no room is empty |
| ChatState.NoStaleIsExact | v4/chatapp.h:187-203 | the indexes are exactly those computed from the live sessions if and only if no entry is stale |
| ChatState.StaleForGood | v4/chatapp.h:92-94 | no event ever removes a stale name |
| ChatState.ReloginMakesStale | v4/chatapp.h:200-202 | a login that succeeds on a logged-in session strands its old name |
| ChatState.OtherwiseNotStale | v4/chatapp.h:44-354 | nothing else creates a stale name |
| ChatState.ExactUnlessRelogin | v4/chatapp.h:187-203 | after a run the indexes are exact if and only if no session logged in twice |
| ChatState.ReloginHappens | v4/chatapp.h:187-203 | a concrete admissible run with a second login |
| ChatApps.CopiesOfDeliveries | v4/chatapp.h:347-353 | distinct names that map to distinct connections give each connection one copy or none |
| ChatApps.RoomChatReachesTheRoom | v4/chatapp.h:346-353 | with exact indexes, a delivery to a room is one copy to each session in it and none to others |
| ChatApps.GuardsNeverSkip | v4/chatapp.h:109-115 | in every run the `count(member)` guards skip nobody |
| ChatApps.CopiesAreNames | v4/chatapp.h:347-353 | a connection is sent as many copies as the room lists names of it |
| ChatApps.RoomChatReaches | v4/chatapp.h:324-354 | in every run, relogins included, a room chat reaches each live session in the room at least once and exactly as often as the room lists a name of it; with exact indexes exactly once, and nobody else |
| ChatApps.RoomChatOnce | v4/chatapp.h:324-354 | over a whole run without a second login, every room chat is sent once to each session whose current room it is, the sender included, and to nobody else |
| ChatReplies.LoginIsAnswered | v4/chatapp.h:187-210 | one answer, to the sender: yes exactly if the name was not online and now is |
| ChatReplies.PrivateChatReaches | v4/chatapp.h:225-253 | the text to the target under the sender's name and the confirmation to the sender, once each; to an unknown target an error to the sender alone |
| ChatReplies.PrivateChatInARun | v4/chatapp.h:225-253 | in every run, a live target and nobody else is sent the text, exactly once, and the sender and nobody else the confirmation |
| ChatReplies.SilentBeforeLogin | v4/chatapp.h:212-260 | before login, private and global chats and joins are not answered |
| ChatReplies.GlobalChatIsSaid | v4/chatapp.h:212-223 | one broadcast of the text under the sender's name, and nothing else |
| ChatReplies.RefusalIsTold | v4/chatapp.h:153-161 | a refused message is answered with the one error, to its sender |
| ChatReplies.TheRestIsSilent | v4/chatapp.h:46-49 | connects and everything ignored are answered with nothing |
| ChatReplies.RoomChatSays | v4/chatapp.h:341-353 | the text goes out under the sender's name, as often to each connection as the room lists a name of it, and nothing else does |
| ChatReplies.RoomChatElsewhere | v4/chatapp.h:327-338 | to a foreign room nothing is sent; from no room or before login an error comes back |
| ChatReplies.JoinIsTold | v4/chatapp.h:263-321 | the names left behind hear of the leave, the others in the new room of the join, the sender of the result, once each, and nobody of anything else |
| ChatReplies.JoinIsToldOnce | v4/chatapp.h:263-308 | with exact indexes the notices go once to each other session in the two rooms and to nobody else |
| ChatReplies.GoodbyeIsTold | v4/chatapp.h:98-117 | a disconnect is told to the names left behind in the room, once each, and to nobody else |
| ChatApps.ChatApp.SendToMembers | v4/chatapp.h:109-115 | every online member outside the exception is told once |
| ChatApps.ChatApp.HandleConnect | v4/chatapp.h:77-84 | a fresh session with a full bucket |
| ChatApps.ChatApp.LeaveRoom | v4/chatapp.h:100-121 | the name leaves, the rest are told, an empty room goes |
| ChatApps.ChatApp.HandleDisconnect | v4/chatapp.h:86-127 | the state and the notices that a disconnect calls for, the leaving name already offline |
| ChatApps.ChatApp.HandleLogin | v4/chatapp.h:187-210 | the state and the answer to a login, refused for a taken or empty name |
| ChatApps.ChatApp.HandleGlobalChat | v4/chatapp.h:212-223 | one broadcast for a logged-in sender, none otherwise |
| ChatApps.ChatApp.HandlePrivateChat | v4/chatapp.h:225-253 | text and confirmation, or an error to the sender, or nothing before login |
| ChatApps.ChatApp.HandleJoinRoom | v4/chatapp.h:255-322 | the new state, and the leave notices, join notices and confirmation in that order |
| ChatApps.ChatApp.HandleRoomChat | v4/chatapp.h:324-354 | an error outside a room, nothing for a foreign room, the text to the members for one's own |
| ChatApps.ChatApp.TakeToken | v4/chatapp.h:143-163 | the statements of the limiter compute the bucket's step |
| ChatApps.ChatApp.Dispatch | v4/chatapp.h:165-184 | each kind of message leads to its own state change and answer |
| ChatApps.ChatApp.HandleMessage | v4/chatapp.h:129-185 | the limiter comes before any effect, and a rejected sender is told, closed and not served |
| ChatApps.ChatApp.ProcessEvent | v4/chatapp.h:44-75 | events of a closed connection have no effect except its DISCONNECT; all others have theirs |
| ChatApps.LogicLoop | v4/chatapp.h:31-42 | over a whole run, the final state is the run's, and all that was sent, in order, is what each event called for when it was handled |
| SafeQueues.NextKeeps | v4/safe_queue.h:16-48 | each critical section, notify or spurious wakeup keeps the monitor's invariant |
| SafeQueues.EveryRunIsSound | v4/safe_queue.h:16-48 | for any number of threads: items come out once, in the order they went in; no sleeper without enough wakeups pending; no sleeper after stop without a pending notify_all |
| SafeQueues.QuietMeansEmpty | v4/safe_queue.h:24-39 | when nothing is under way, a sleeper means an empty queue that was not stopped |
| SafeQueues.WhatARunLeaves | v4/safe_queue.h:16-48 | what was pushed is what the push calls pushed, in order; the queue is stopped exactly if stop was called; one notify is owed for each push and stop that has not made it |
| SafeQueues.StoppedMeansAwake | v4/safe_queue.h:24-48 | after a stop pop never goes to sleep, and once the notifies are made nobody sleeps |
| SafeQueues.WaitersStay | v4/safe_queue.h:28-30 | a waiting thread stays asleep or woken until it gets the lock, and a notify, a notify_all or a spurious wakeup wakes it |
| SafeQueues.AttemptTakesTheOldest | v4/safe_queue.h:28-38 | in every run pop takes the oldest item not taken yet, or ends on a stopped empty queue, or sleeps, exactly as these demand |
| SafeQueues.SafeQueue.Push | v4/safe_queue.h:16-21 | push up to the unlock is the push step |
| SafeQueues.SafeQueue.NotifyOne | v4/safe_queue.h:22 | wakes one sleeper, whichever, if there is one |
| SafeQueues.SafeQueue.Attempt | v4/safe_queue.h:24-39 | pop returns the oldest item, gives up only if stopped and empty, or sleeps |
| SafeQueues.SafeQueue.Stop | v4/safe_queue.h:41-46 | stop up to the unlock is the stop step |
| SafeQueues.SafeQueue.NotifyAll | v4/safe_queue.h:47 | wakes everybody |
| Lifecycle.PushMessageKeeps | v4/webserver.cpp:577-590 | a frame pushed by the reactor keeps the invariant, even after another thread has closed the connection |
| Lifecycle.PushDisconnectKeeps | v4/webserver.cpp:656-658 | the winner of the exchange pushes the only DISCONNECT |
| Lifecycle.NotYetGone | v4/chatapp.h:44-49 | an event that passes the closed check finds no DISCONNECT of its connection handled |
| Lifecycle.NothingBeforeConnect | v4/chatapp.h:44-56 | a CONNECT that passes the check is the first event handled for its connection |
| Lifecycle.ProcessKeeps | v4/chatapp.h:44-75 | handling or dropping an event keeps the invariant |
| Lifecycle.NextKeeps | v4/webserver.cpp:537-668 | every step of every thread keeps it |
| Lifecycle.EveryInterleaving | v4/webserver.cpp:537-668 | in every interleaving the events handled for a connection are a prefix of CONNECT and its frames in wire order, and all that came up while it is open; DISCONNECT comes last and once, and exactly one is pushed per close |
| Lifecycle.WhatARunLeaves | v4/webserver.cpp:537-668 | the queue has had exactly what was pushed, in order, a connection's frames are those decoded, and it is closed exactly if close_conn was called |
| Lifecycle.ActsUnlessClosed | v4/chatapp.h:31-49 | the next event handled is the oldest; it is acted on unless its connection is closed, and a DISCONNECT always is |
| EventOrder.ConnectIsNew | v4/webserver.cpp:537 | a CONNECT that comes up is its connection's first |
| EventOrder.DisconnectIsNew | v4/webserver.cpp:654-658 | a DISCONNECT that comes up is its connection's only one, and the closed flag is set by then |
| EventOrder.StepFollows | v4/chatapp.h:31-75 | every step of any thread hands the chat an admissible input or none |
| EventOrder.EveryInterleavingIsAdmissible | v4/chatapp.h:31-75 | every interleaving of the threads gives the chat an admissible run, so its indexes are consistent whatever the threads do |
| EventOrder.TheChatIsHandedWhatIsProcessed | v4/chatapp.h:31-75 | the chat is delivered exactly the events processed, oldest first, and sees a flag set exactly if close_conn was called |
| BroadcastWakeup.NextKeeps | v4/webserver.cpp:479-491 | every step of broadcasters and reactor keeps a wakeup on its way while something is queued |
| BroadcastWakeup.NoBroadcastIsStranded | v4/webserver.cpp:718-816 | in every reachable state of a running server a queued broadcast has a wakeup coming, and batches are everything pushed, once, in order |
| BroadcastWakeup.NextTurnDelivers | v4/webserver.cpp:770-815 | once broadcasters have written and the reactor waits, one turn that hears of the eventfd is possible and empties the queue |
| BroadcastWakeup.WhatARunLeaves | v4/webserver.cpp:479-491 | what was pushed is what the Broadcast calls pushed, in order; the eventfd counts the writes not read; a notification is noted exactly in the turn that dispatched it |
| BroadcastWakeup.TurnsSwap | v4/webserver.cpp:387-394 | a turn that dispatched the notification swaps out everything pushed and not swapped yet; another swaps nothing |
| ConnTables.FdsAreNotShared | v4/utils.h:118-166 | two existing connections never own the same descriptor |
| ConnTables.Top | v4/webserver.h:32-43 | the top of the heap is an event no other precedes |
| ConnTables.SweepEvent | v4/webserver.cpp:683-702 | handling a due event leaves every connection with an event in time or timed out for good reason, and leaves strictly fewer due events |
| ConnTables.SweepShard | v4/webserver.cpp:678-704 | the loop ends; nothing due is left, and whoever was timed out was idle for the full 600 seconds |
| ConnTables.AcceptKeeps | v4/webserver.cpp:514-525 | a descriptor nobody has open has no table entry, so an accept overwrites none and keeps the invariant |
| ConnTables.NewEntryKeeps | v4/webserver.cpp:519-525 | a new entry and its timer event leave every other connection mapped and watched |
| ConnTables.UpdateKeeps | v4/connection.h:41-53 | changing a connection but not its descriptor keeps ownership |
| ConnTables.EraseUnmapsOne | v4/webserver.cpp:661-665 | erasing by descriptor removes the entry of the connection that owns it and no other |
| ConnTables.EraseKeeps | v4/webserver.cpp:661-665 | after the erase the invariant holds again |
| ConnTables.CollectKeeps | v4/utils.h:122-125 | destroying an unreferenced connection frees its descriptor and keeps ownership |
| ConnTables.ClearedStays | v4/webserver.cpp:563 | whatever happens meanwhile, a shard swept at `now` stays swept |
| ConnTables.ConnTable.AcceptOne | v4/webserver.cpp:514-525 | the new table, with the entry and the timer event, and proof that the entry was vacant |
| ConnTables.ConnTable.Collect | v4/utils.h:157-165 | the descriptor is closed exactly when the last pointer goes |
| ConnTables.ConnTable.RetainOne | v4/webserver.cpp:781-787 | a copied pointer keeps the connection alive and changes nothing else |
| ConnTables.ConnTable.DropOne | v4/connection.h:56 | a dropped pointer destroys the connection only if nobody else holds it, and never an open one |
| ConnTables.ConnTable.TouchOne | v4/connection.h:46-49 | activity only moves the deadline back |
| ConnTables.ConnTable.ExchangeOne | v4/webserver.cpp:654 | of concurrent closers exactly one proceeds |
| ConnTables.ConnTable.EraseOne | v4/webserver.cpp:660-665 | close_conn removes its own entry, still there, and nobody else's |
| ConnTables.ConnTable.Perform | v4/webserver.cpp:494-668 | any step of another thread has its effect on its connection and no other, keeps the invariant and only moves deadlines back; an impossible one does nothing |
| ConnTables.ConnTable.RunActions | v4/webserver.cpp:494-668 | so does any sequence of them |
| ConnTables.ConnTable.SweepOne | v4/webserver.cpp:678-704 | a shard's critical section clears the shard and keeps the invariant |
| ConnTables.ConnTable.SweepAll | v4/webserver.cpp:675-704 | with other threads in between, all sixteen shards are cleared |
| ConnTables.ConnTable.CloseTimedOut | v4/webserver.cpp:706-710 | the sweeper's close works while others act between its exchange and its erase |
| ConnTables.ConnTable.CloseAll | v4/webserver.cpp:706-710 | all timed-out connections are closed, once each |
| ConnTables.ConnTable.CheckTimeouts | v4/webserver.cpp:670-711 | after a sweep no open connection is due; only connections idle for 600 seconds were chosen, all of those are closed, and no other was closed by it |
| LegacyClients.CutIsDecode | v3/client.cpp:271-285 | the string parser and the codec take the same step if and only if the codec has nothing to drop |
| LegacyClients.SplitResumes | v3/client.cpp:267-293 | string parsing may stop anywhere and go on from the leftover bytes |
| LegacyClients.SplitIsWalk | v3/client.cpp:267-293 | the string parser finds the reading of a stream if and only if that does not stop in front of a complete frame of more than 10 MB |
| LegacyClients.SplitIsDecode | v3/codec.h:40-76 | string parser and codec take the same frames and leave the same bytes if and only if no header claims more than 10 MB |
| LegacyClients.SplitIsFeed | v3/codec.h:40-76 | the string parser agrees with the codec for every cut of the stream under the same condition and no other |
| LegacyClients.StrippedLosesOneNewline | v3/client.cpp:287-290 | a shown message is the frame or the frame without its one last newline, the former exactly if it does not end in one |
| LegacyClients.LegacyClient.Append | v3/client.cpp:87 | received bytes join the buffer without disturbing what was read |
| LegacyClients.LegacyClient.CutFrame | v3/client.cpp:92-109 | one frame is taken off the front, if it is whole |
| LegacyClients.LegacyClient.LoginOnce | v3/client.cpp:76-127 | a turn of login takes at most one frame, ignores an empty one, and succeeds exactly on an accepting one |
| LegacyClients.LoginStep | v3/client.cpp:76-127 | a turn of login ends it with the first welcome taken, and otherwise goes on with what is left |
| LegacyClients.LegacyClient.Login | v3/client.cpp:74-213 | for every sequence of chunks: whether it succeeds, the frames it takes, the bytes it leaves in the buffer and the chunks it has not read; no byte is lost |
| LegacyClients.LegacyClient.ProcessBuffer | v3/client.cpp:267-293 | takes every whole frame, so that all frames so far are the reading of the stream |
| LegacyClients.LegacyClient.ReceiveLoop | v3/client.cpp:295-329 | starts with what login left, and ends with the reading of everything received |
| LegacyClients.LegacyClient.Session | v3/client.cpp:74-329 | over any chunking, frames of login followed by frames of receive_loop are the reading of the stream by the string parser, and what the codec yields for every other chunking if and only if no header claims more than 10 MB |
| LoginCuts.OutcomeOfCut | v3/client.cpp:74-127 | login succeeds over a cut exactly if after each recv the frames arrived and the recvs still to come outnumber the frames before the welcome |
| LoginCuts.LaggingCut | v3/client.cpp:74-127 | a stream that falls behind somewhere has a cut over which login fails |
| LoginCuts.SlowLogsIn | v3/client.cpp:74-127 | read byte by byte, login finds any welcome there is |
| LoginCuts.LoginDependsOnCut | v3/client.cpp:74-127 | the outcome is the same for all cuts of at most m bytes if and only if there is no welcome or no cut can fall behind it |
| LoginCuts.OneRecvCanTakeAll | v3/client.cpp:79-80 | for a stream that fits one recv the condition is that no frame is a welcome or the first is |
| LoginCuts.WelcomeTogether | v3/client.cpp:79-113 | two frames, the second a welcome: in one chunk login fails, in two it succeeds |
| LegacyNames.OneChanged | v3/chatapp.h:40-123 | a step that touches one connection and the name set keeps ownership if it gives the connection only free names and takes nobody else's |
| LegacyNames.LookKeeps | v3/chatapp.h:93-101 | a claim, or a refusal of one, keeps name ownership |
| LegacyNames.HookKeeps | v3/chatapp.h:40-50 | the disconnect hook erases no name that another connection holds |
| LegacyNames.NextKeeps | v3/chatapp.h:40-123 | every step of workers and closers keeps name ownership |
| LegacyNames.EveryInterleaving | v3/chatapp.h:40-123 | open active connections never share a name, each one's name is in the set, and none ever claims two |
| LegacyNames.MessageClaims | v3/chatapp.h:60-107 | the first message of an open connection makes it ACTIVE under its text if that is free and not empty, and otherwise changes nothing |
| LegacyNames.RefusedChangesNothing | v3/chatapp.h:63-85 | a message on a closed connection, or one the limiter refuses, changes nothing |
| LegacyNames.CloseReleases | v3/chatapp.h:40-50 | a close frees the connection's name, no other name, and touches no other connection |
| LegacyNames.ClosedByExchange | v3/webserver.cpp:692-694 | a connection is closed exactly if close_conn was called on it |
| LegacyNames.DoomedForGood | v3/chatapp.h:40-50 | a name that no connection will answer for is in the set after every continuation |
| LegacyNames.AnsweredIsReleasable | v3/chatapp.h:40-50 | a name that some connection will answer for leaves the set in some continuation |
| LegacyNames.ReleasableUnlessDoomed | v3/chatapp.h:40-50 | of a name in the set, one or the other holds |
| LegacyNames.MissDooms | v3/chatapp.h:91-107 | a hook that runs before the field is written, or a claim made after the hook, leaves a name nobody will answer for |
| LegacyNames.OtherwiseNotDoomed | v3/chatapp.h:40-123 | no other step does |
| LegacyNames.ReleasableUnlessMissed | v3/chatapp.h:40-123 | after any run, every name in the set can still be released if and only if no disconnect hook has missed a name |
| LegacyNames.HookBeforeWrite | v3/webserver.cpp:692-702 | a concrete interleaving in which the hook runs between insertion and write |
| LegacyNames.HookBeforeClaim | v3/webserver.cpp:692-702 | a concrete interleaving in which it runs between the closed check and the insertion |

## Left out

- v1 and v2, terminal and keyboard code, load bots, scripts: no property beyond those above.
- Setup of sockets, epoll, signalfd, timerfd and eventfd, `Stop`, `main`, metrics and logs: system calls and output only.
- Protobuf: a payload is opaque bytes; whether it parses, and as what, is an input. Message wording and timestamps are dropped.
- `ThreadPool`: used only as "runs a task at most once, at some later time".
- Broadcasts.ProcessGlobalQueue: runs its sixteen tasks one after the other, with nothing in between; the interleavings are those of `BroadcastTasks`, on values.
- BroadcastTasks.EveryInterleaving: states order within a batch only, because two batches for one shard may run on different workers, and no completion, because the pool may leave tasks queued.
- Data races below the level of a step: accepting a connection and reading or writing one field are atomic.
- Widths: `size_t` counters are unbounded naturals (the 32-bit header is exact); tokens are reals without rounding.
- `LineBasedCodec` of v3: it leaves a pure virtual function undefined and cannot be instantiated.
- The heap of timer events is a bag from which a least event is taken, and the sweeper's vector a set: a second close of the same connection has no effect.
- Sharing of payload buffers between packets of one broadcast: packets hold their bytes as values.
- Outgoing.Writev: does not return 0 on a non-empty request; the loop of the source would try again.
- EndToEnd.RunSession: broadcasts in the script exclude nobody, as those of v4's `BroadcastProto`.
- Clients.Client.ReceiveOnce: does not model `poll`; a turn is one that finds the socket readable.
- LegacyClients.LegacyClient.Login: does not model the prompt for another username, which leaves the receiving side alone.
- Lifecycle.EveryInterleaving: does not claim that every event is handled eventually; the logic thread may stop.
