# A verified model of the game server's core

The server is built on an actor runtime: services with message queues, worker threads, timers, a socket thread and
links between harbors, with libraries for timing wheels, areas of interest, serialisation and cryptography beside it.
This project models the parts where state, order and arithmetic interact, and proves what they promise. Where the
program works in place, so does the model: classes with arrays, linked nodes and fields, loops with invariants, each
tied to a specification by its contract. What several threads share is a state machine whose steps are the locked
sections and the atomic operations.

| modules | source | subject |
|---|---|---|
| WheelDigits, TimerBag, SkynetTimer, TimeWheel | skynet_timer.c, twheel.c | hierarchical timing wheels against an unbounded bag of deadlines |
| Scheduler, MessageQueue | skynet_mq.c, skynet_server.c | service queues, the global list, references, over all interleavings |
| SocketSend | socket_server.c | two send lists, direct writes of workers, short writes, closing |
| IdTable | gaoi.c, aoi.c | chained tables with relocation and dropped entries against a finite map |
| ViewLedger, GridLists | gaoi.c | who sees whom, the weights seen, and the lists of a grid |
| Seri, SeriBlocks | lua-seri.c | packed values, and their blocks and cursors |
| Framing, Netpack, Harbor, DataBuffer | lua-netpack.c, service_harbor.c, databuffer.h | framers that do not depend on how a stream is cut |
| DiffieHellman, Des, DesStandard, Sha1 | lua-crypt.c, lsha1.c | modular powers, the cipher against its standard and its padding, streamed hashing |
| Handles, RwLock, Stm | skynet_handle.c, rwlock.h, lua-stm.c | handles and names, the lock, shared copies |
| Chains, PbcMap, ShareData | map.c, lua-sharedata.c | tables that are built once; Chains serves IdTable too |
| Bytes, Octets, Sets, Division | | numbers as bytes, texts of octets, sizes of sets, quotients |

What the sources of nondeterminism do is a parameter of the steps that meet it: the outcome of each write to a socket,
the requests that come in while a lock is free, the next step of some thread, the selection of a new view, the order in
which a Lua table is walked.

Where the code does not do what it is for, the exact condition is proved:

- `DiffieHellman.PowerModP`: the base is reduced only above P, so the first power of P itself is P and not 0; every
  other power is right.
- `Sha1.CountedExactly`: the carry of the bit count is wrong for an update of 2^29 bytes or more, unless the low word
  happens to overflow.
- `SocketSend.TornFrame`, `SocketSend.Run`: closing a socket frees its lists before the lock is taken, so a worker may
  still write behind a packet that was cut short. A packet is cut short if and only if dw_buffer is empty and the head
  of the high list was begun (`SocketSend.Socket.BeginClose`); in all other runs the wire is a row of whole packets with
  at most one partial packet at its end.
- `SocketSend.AssertionFails`, `SocketSend.Socket.SendBothLists`: the assertion at
  server/skynet/skynet-src/socket_server.c:699 is reached, exactly when the low list stopped on a buffer of which
  nothing was written. The model treats that as an abort.
- `Scheduler.CreatorIsLate`, `Scheduler.NothingDeletedIsTouched`: a creator writes ctx->init and logs the launch after it
  has released its reference, so the context may be deleted by then; it is alive if and only if it is still registered
  or another agent refers to it. No other step touches a deleted context.
- `Des.DecodeZeros`, `Des.Decode`: the scan for the end of the text compares without sign, so it reads before the buffer
  if and only if the cipher is a single block that deciphers to eight zeros. Every key has such a block.
- `ShareData.WideKey`, `ShareData.ConvertAndIndex`: integer keys are cast to int, so a key of more than 32 bits is
  answered with the value of another one if and only if it is cast like a key of the table.
- `Harbor.SentRead`: the sender allows contents below 2^32 bytes, the receiver only those below 2^24.
- `ViewLedger.Space.RemoveObject`: the result holds 10240 ids, so an object that sees more than that many others leaves
  some of them with a view of nobody.
- `Seri.FitsExactly`: values nested in more than 32 tables are refused, and only these.

## Model

| member | source | states |
|---|---|---|
| `SkynetTimer.Run` | server/skynet/skynet-src/skynet_timer.c:71-182 | for every sequence of requests and ticks (delays below 2^31), with requests between any two locked steps of a tick, what is dispatched is what an unbounded bag of deadlines says: each timer once, at its deadline, equal deadlines in the order they were added, also past the wrap of the 32-bit time |
| `SkynetTimer.Timer.Timeout` | server/skynet/skynet-src/skynet_timer.c:208-228 | a delay of 0 or less is answered at once and leaves the wheel alone; any other joins the bag with deadline now + delay |
| `SkynetTimer.Timer.AddNode` | server/skynet/skynet-src/skynet_timer.c:71-90 | exactly one list grows, at its end: the one fixed by the most significant digit in which expire and the time differ, though the code finds it by widening masks |
| `SkynetTimer.Timer.Add` | server/skynet/skynet-src/skynet_timer.c:92-103 | the bag of deadlines gains one entry and every list still is its part of the bag |
| `SkynetTimer.Timer.MoveList` | server/skynet/skynet-src/skynet_timer.c:105-113 | refiling one list brings all lists in line with the new time, order included |
| `SkynetTimer.Timer.Shift` | server/skynet/skynet-src/skynet_timer.c:115-136 | one more tick of the unbounded time, with every list again the part of the unchanged bag that belongs there |
| `SkynetTimer.Timer.Execute` | server/skynet/skynet-src/skynet_timer.c:156-167 | exactly the entries due now are dispatched, in insertion order; requests that come in while the lock is free stay in the bag |
| `SkynetTimer.Timer.Update` | server/skynet/skynet-src/skynet_timer.c:169-182 | one whole tick against the bag: dispatched is what is due at the next moment, and nothing due is left behind |
| `SkynetTimer.CascadeKeepsList` | server/skynet/skynet-src/skynet_timer.c:115-136 | the single list that timer_shift moves is all that has to move, for every list and every bag within reach |
| `WheelDigits.AdvanceMovesOneList` | server/skynet/skynet-src/skynet_timer.c:115-136 | when the time advances by one, a node within reach changes its list if and only if it is in the list that is moved, and then goes strictly lower; this holds across the wrap |
| `WheelDigits.OrLowSetsBits` | server/skynet/skynet-src/skynet_timer.c:75-86 | setting the low bits by an or with m - 1 leaves the digits above and makes all bits below ones |
| `WheelDigits.OrLowComparesQuotients` | server/skynet/skynet-src/skynet_timer.c:75-86 | comparing two times with their low bits set is comparing the digits above |
| `WheelDigits.OnlyNowIsNear` | server/skynet/skynet-src/skynet_timer.c:158-165 | the near list of the current time holds precisely what is due now |
| `WheelDigits.CascadeIsLowestNonzeroDigit` | server/skynet/skynet-src/skynet_timer.c:121-134 | the loop of timer_shift stops at the lowest digit that the carry left nonzero |
| `TimerBag.HandedOutOnce` | server/skynet/skynet-src/skynet_timer.c:157-167 | in the dispatch of its deadline, an entry stands behind exactly those of the same deadline that were added before it |
| `TimerBag.ServedPlusWaiting` | server/skynet/skynet-src/skynet_timer.c:157-182 | after any number of moments, entries handed out and entries waiting add up to the entries requested |
| `TimerBag.LaterRequests` | server/skynet/skynet-src/skynet_timer.c:157-182 | a request for later does not change what was due up to now |
| `TimerBag.MovingOneList` | server/skynet/skynet-src/skynet_timer.c:105-113 | appending the moved nodes one by one leaves every list in insertion order, although entries were added at different levels |
| `TimerBag.TickKeepsRun` | server/skynet/skynet-src/skynet_timer.c:157-182 | one tick extends the dispatch log of a whole run as the bag demands |
| `TimeWheel.Run` | server/clib/timingwheel/twheel.c:25-104 | for every sequence of requests and ticks (delays 1 to 2^32 - 1), with requests wherever the lock is free, each timer is dispatched once, after exactly as many shift/execute pairs as its delay, equal deadlines in insertion order, also past the wrap |
| `TimeWheel.Wheel.AddNode` | server/clib/timingwheel/twheel.c:25-52 | exactly one list grows, at its end; a deadline below the current time goes to the overflow list, and the level index stays within 0 to 3 for any two times |
| `TimeWheel.Wheel.Add` | server/clib/timingwheel/twheel.c:170-187 | the bag gains an entry with deadline now + t, modulo 2^32 in the node |
| `TimeWheel.Wheel.Shift` | server/clib/timingwheel/twheel.c:54-89 | the advance, or at the wrap the redistribution of the overflow list, brings every list in line with the new time |
| `TimeWheel.Wheel.Execute` | server/clib/timingwheel/twheel.c:91-104 | exactly the entries due now are called back, in insertion order; requests made after the unlock stay in the bag |
| `TimeWheel.Wheel.Update` | server/clib/timingwheel/twheel.c:198-202 | one shift/execute pair against the bag of deadlines, with requests between the two and after |
| `TimeWheel.CascadeKeepsList` | server/clib/timingwheel/twheel.c:54-89 | what timewheel_shift moves, the overflow list at the wrap and one far list otherwise, is all that has to move |
| `Scheduler.StepKeeps` | server/skynet/skynet-src/skynet_server.c:120-348 | every atomic step of every thread, from any state that satisfies the invariant of holders, references, global list and histories, leads to such a state, and logs only grow |
| `Scheduler.RunKeeps` | server/skynet/skynet-src/skynet_server.c:120-348 | the invariant holds after every step of every interleaving |
| `Scheduler.MutualExclusion` | server/skynet/skynet-src/skynet_server.c:277-348 | a queue held by a creator, a releaser or a worker is in nobody else's hands, not in the global list and not freed; so no two workers are in the callback of one service, whose context is alive and initialised meanwhile |
| `Scheduler.NothingStranded` | server/skynet/skynet-src/skynet_mq.c:185-250 | a queue that has messages, or that is marked and not yet freed, is in the global list or held by an agent, which the lemma names |
| `Scheduler.NothingLost` | server/skynet/skynet-src/skynet_mq.c:133-250 | per queue, what was pushed is what was dispatched, then what was dropped, then what is in the ring, in this order; messages are dropped only when no reference is left and the queue is marked |
| `Scheduler.CallbacksInOrder` | server/skynet/skynet-src/skynet_server.c:252-348 | over every run: the messages with which the callbacks of a service returned, in order, are those that were dispatched from its queue, less one that an agent still handles, and that one is the last dispatched; with what was dropped and what is in the ring they are what was pushed |
| `Scheduler.PushedAsSent` | server/skynet/skynet-src/skynet_server.c:221-233 | over every run: the messages of the pushes to a queue, as their senders gave them, in order, are what was pushed there |
| `Scheduler.RoundsAreFair` | server/skynet/skynet-src/skynet_server.c:297-348 | a worker gives up a queue without priority after exactly as many messages as the length at its first one and its weight allow |
| `Scheduler.InTurn` | server/skynet/skynet-src/skynet_mq.c:23-70 | over every run: from any moment on, a listed queue keeps the place that it had, less the queues taken from the list, plus those of services with priority that came in by a push or from their worker, and leaves the list only from the first place |
| `Scheduler.NeverStuck` | server/skynet/skynet-src/skynet_server.c:120-348 | over every run: an agent that has begun something always has a next step that it may take, whatever the others do, and a thread that has nothing to do may take a queue whenever one is listed |
| `Scheduler.PriorityAsAsked` | server/skynet/skynet-src/skynet_server.c:536-552 | over every run: a service has priority if and only if it asked for it the last time that it set it, and a new one has none |
| `Scheduler.ReportsTheLiving` | server/skynet/skynet-src/skynet_server.c:150-171 | over every run: a creator reports the launch exactly when its context outlived its own reference |
| `Scheduler.RunGrows` | server/skynet/skynet-src/skynet_mq.c:133-250 | histories are only extended, and what was marked, deleted or freed stays so |
| `Scheduler.NothingFreedIsTouched` | server/skynet/skynet-src/skynet_mq.c:94-250 | no step reads or writes a queue that has been freed |
| `Scheduler.FreedOnce` | server/skynet/skynet-src/skynet_mq.c:230-250 | no two frees of a run free the same queue, and a queue is freed empty, marked, and with its context deleted |
| `Scheduler.NothingLeaks` | server/skynet/skynet-src/skynet_server.c:199-218 | when all threads have come to rest, every message was dispatched or dropped, every service is either still in the handle table, with a single reference, or deleted and its queue freed |
| `Scheduler.AssertionsHold` | server/skynet/skynet-src/skynet_mq.c:219-228 | the release mark is set once, as its assertion demands, and no queue is twice in the global list, so its intrusive link is free |
| `Scheduler.ReleaseLast` | server/skynet/skynet-src/skynet_server.c:199-218 | the agent that drops the last reference is the only one that goes on to delete the context |
| `Scheduler.RotateKeeps` | server/skynet/skynet-src/skynet_server.c:334-345 | taking the next queue and putting the old one back, or keeping it when there is none, keeps one holder per queue |
| `Scheduler.PopGlobalKeeps` | server/skynet/skynet-src/skynet_mq.c:53-70 | the queue popped from the global list passes to this worker alone |
| `Scheduler.PushKeeps` | server/skynet/skynet-src/skynet_mq.c:185-209 | a message for a queue nobody holds puts it into the global list, at its head if it has priority, and never a second time |
| `MessageQueue.Queue.Expand` | server/skynet/skynet-src/skynet_mq.c:170-183 | doubling a full ring keeps its messages in order |
| `MessageQueue.Queue.Enqueue` | server/skynet/skynet-src/skynet_mq.c:185-209 | the contents gain the message at the end, through a growth of the ring too |
| `MessageQueue.Queue.Pop` | server/skynet/skynet-src/skynet_mq.c:133-168 | the oldest message comes out; only an empty queue gives up its place in the global list and resets the overload threshold |
| `MessageQueue.Queue.Length` | server/skynet/skynet-src/skynet_mq.c:107-121 | the number of messages in a ring that may be wrapped around |
| `MessageQueue.Queue.NoteLength` | server/skynet/skynet-src/skynet_mq.c:153-156 | the threshold is doubled until the length does not exceed it, and the overload notes the length when it was |
| `MessageQueue.Queue.Drain` | server/skynet/skynet-src/skynet_mq.c:230-237 | everything is dropped, in order |
| `MessageQueue.GlobalQueue.Push` | server/skynet/skynet-src/skynet_mq.c:23-36 | the linked list gains the queue at its tail |
| `MessageQueue.GlobalQueue.PushHead` | server/skynet/skynet-src/skynet_mq.c:38-51 | the linked list gains the queue at its head |
| `MessageQueue.GlobalQueue.Pop` | server/skynet/skynet-src/skynet_mq.c:53-70 | the first queue is taken off, unlinked; nothing exactly when the list is empty |
| `MessageQueue.GlobalQueue.Send` | server/skynet/skynet-src/skynet_mq.c:185-209 | the message is appended, and the queue enters the global list if and only if it was not in anyone's hands |
| `MessageQueue.GlobalQueue.MarkRelease` | server/skynet/skynet-src/skynet_mq.c:219-228 | the queue is marked, and enters the global list when it was not in anyone's hands |
| `MessageQueue.GlobalQueue.Release` | server/skynet/skynet-src/skynet_mq.c:239-250 | a marked queue is emptied, an unmarked one goes back to the global list untouched |
| `SocketSend.Run` | server/skynet/skynet-src/socket_server.c:386-412 | in every interleaving of workers and the socket thread, with any short writes: between any two moments of a socket the wire, the accepted and the finished packets only grow and a packet that was partly written is the next one finished; and at every moment the wire is a row of whole accepted packets followed by at most one partial one, unless something was written after the lists were freed with a packet begun that no worker had left in dw_buffer |
| `SocketSend.Socket.DirectWrite` | server/skynet/skynet-src/socket_server.c:1442-1473 | what the kernel takes is on the wire; a packet taken whole is finished, and the rest of any other waits in dw_buffer, offset included |
| `SocketSend.Socket.TryDirect` | server/skynet/skynet-src/socket_server.c:1424-1442 | a worker may write only if nothing is pending and the socket is connected, under the lock |
| `SocketSend.Socket.SendList` | server/skynet/skynet-src/socket_server.c:540-570 | a list is drained as far as the outcomes of the writes go: bytes, offset of the head, packets finished and wb_size |
| `SocketSend.Socket.SendBothLists` | server/skynet/skynet-src/socket_server.c:679-709 | over the two lists, sending amounts to draining the two joined; the abort is reached exactly when the low list stopped on an untouched buffer; a half-closed socket closes when all is sent |
| `SocketSend.Socket.SendBuffer` | server/skynet/skynet-src/socket_server.c:711-737 | nothing happens while a worker has the lock; otherwise dw_buffer and then both lists are drained in that order |
| `SocketSend.Socket.PutBack` | server/skynet/skynet-src/socket_server.c:713-732 | the rest of a direct write becomes the head of the high list, so nothing changes in what is to be sent next, and wb_size grows by it |
| `SocketSend.Socket.RaiseUncomplete` | server/skynet/skynet-src/socket_server.c:649-664 | what is to be sent, and in which order, stays the same, wb_size with it, and the begun packet has left the low list, in which nothing is begun now |
| `SocketSend.Socket.SendSocket` | server/skynet/skynet-src/socket_server.c:787-839 | a packet goes to the high list, or to the low list when it is of low priority and something is pending or the socket is not connected; other packets keep their places, and it is refused on a closing socket |
| `SocketSend.Socket.BeginClose` | server/skynet/skynet-src/socket_server.c:386-396 | force_close frees both lists before it has the lock; a packet is cut short if and only if dw_buffer is empty and the head of the high list was begun |
| `SocketSend.Socket.EndClose` | server/skynet/skynet-src/socket_server.c:397-412 | under the lock the rest of a direct write is freed and the socket becomes invalid |
| `SocketSend.Socket.CloseSocket` | server/skynet/skynet-src/socket_server.c:867-884 | what is pending is sent first, unless a worker has the lock or nothing is pending; the decision how to close is still to come, with the lock free |
| `SocketSend.DrainFollows` | server/skynet/skynet-src/socket_server.c:540-570 | draining a list finishes a prefix of it and leaves the rest, with only its head partly written |
| `SocketSend.DrainJoined` | server/skynet/skynet-src/socket_server.c:679-690 | draining one list and then another is draining their concatenation |
| `SocketSend.JoinedLists` | server/skynet/skynet-src/socket_server.c:679-709 | the high list, and the low list only when that is empty, amount to one list, byte for byte and in wb_size |
| `SocketSend.FlushFrames` | server/skynet/skynet-src/socket_server.c:540-570 | the wire is the finished packets followed by what was taken of the first pending one, before a drain and after it, and each way keeps its order |
| `SocketSend.FlushContinues` | server/skynet/skynet-src/socket_server.c:649-664 | the packet that was partly written is finished first, or is still the head |
| `SocketSend.SentInOrder` | server/skynet/skynet-src/socket_server.c:540-570 | packets finished from the front keep, for each of the three ways, the order of acceptance |
| `SocketSend.AddedInOrder` | server/skynet/skynet-src/socket_server.c:739-777 | a packet may go in front of others that came another way without breaking the order of any way |
| `SocketSend.DirectInOrder` | server/skynet/skynet-src/socket_server.c:1442-1473 | a directly written packet breaks the order of no way |
| `SocketSend.LateIsWhole` | server/skynet/skynet-src/socket_server.c:386-412 | after the lists were freed with nothing begun, later direct writes keep the wire whole |
| `SocketSend.TornFrame` | server/skynet/skynet-src/socket_server.c:386-412 | for any three bytes of which the last differs from the others, a run at whose end the wire is no row of whole accepted packets with one partial packet behind: a direct write lands behind a packet that force_close cut short |
| `IdTable.IdMap.Find` | server/clib/gaoi/gaoi.c:413-425 | the walk along the chain stops at the slot of the live object, or at one left behind by a drop when the table does not hold the id, or nowhere when no slot bears it |
| `IdTable.IdMap.Query` | server/clib/gaoi/gaoi.c:413-425 | the answer is that of a finite map |
| `IdTable.IdMap.Drop` | server/clib/gaoi/gaoi.c:438-451 | the finite map loses the id and nothing else, and its object is returned |
| `IdTable.IdMap.Insert` | server/clib/gaoi/gaoi.c:375-411 | for an id not held, the finite map gains the entry and nothing else, through main positions left behind by drops, relocations and doublings; the table is doubled only when full |
| `IdTable.IdMap.GiveMain` | server/clib/gaoi/gaoi.c:376-381 | a free or dropped main position takes the entry |
| `IdTable.IdMap.Evict` | server/clib/gaoi/gaoi.c:382-398 | a stranger is taken off its chain, its predecessor is found, and the stranger alone is to be put in again |
| `IdTable.IdMap.InsertAfter` | server/clib/gaoi/gaoi.c:399-411 | an unused slot is found if there is one, and linked in after the main position |
| `IdTable.IdMap.Rehash` | server/clib/gaoi/gaoi.c:353-373 | the finite map is unchanged, the table twice as long, no dropped entry is left and not all slots are used |
| `IdTable.IdMap.QueryOrMake` | server/clib/aoi/aoi.c:146-163 | a held id gives its object; any other is made, in its old slot if it was dropped, and then held |
| `IdTable.ReviveKeeps` | server/clib/aoi/aoi.c:146-163 | where ids are not used twice, giving a dropped entry its object back keeps the chains |
| `IdTable.EvictKeeps` | server/clib/gaoi/gaoi.c:382-398 | cutting a stranger out of its chain and starting another in its place keeps every chain linked, reachable from its main position, and live entries before dropped ones |
| `IdTable.InsertKeeps` | server/clib/gaoi/gaoi.c:399-408 | linking an unused slot in right after the main position keeps the same |
| `IdTable.TakeOverKeeps` | server/clib/gaoi/gaoi.c:376-381 | reusing a dropped main position, links and all, keeps the same |
| `IdTable.DropKeeps` | server/clib/gaoi/gaoi.c:438-451 | dropping an object and leaving its id keeps the same |
| `IdTable.FirstIsLive` | server/clib/gaoi/gaoi.c:413-425 | the first entry with an id on the way is the live one, if the id is held |
| `IdTable.NextLeads` | server/clib/gaoi/gaoi.c:382-387 | the predecessor walk never leaves the chain and comes nearer to the stranger with every step |
| `IdTable.FullHoldsAll` | server/clib/gaoi/gaoi.c:353-373 | a table without dropped entries is full only if it holds as many objects as slots; so a doubled table has room while it is refilled |
| `IdTable.RoomLeft` | server/clib/gaoi/gaoi.c:353-373 | refilling a doubled table never doubles it again |
| `ViewLedger.Run` | server/clib/gaoi/gaoi.c:876-886 | through every sequence of creations, moves with kicks, team changes and removals, with at most 10240 objects at a time: views are symmetric, whoever is viewed is live, and the other-weight of each object is the sum of the viewed weights modulo 2^16 |
| `ViewLedger.Space.Take` | server/clib/gaoi/gaoi.c:876-1430 | one operation of a run keeps the ledger; unless a list is full at the end, an object that was created, or moved and leads no team, sees the view that was chosen for it |
| `ViewLedger.Space.ChangeTeams` | server/clib/gaoi/gaoi.c:708-864 | teams and team numbers change and nothing else |
| `ViewLedger.Space.UpdateObjectPos` | server/clib/gaoi/gaoi.c:1296-1430 | after a move with any kicks, with or without team leaders, unless a list of the result is full at the end: the kicks are carried out one after the other; what they leave is changed so that the object sees exactly its new view and is seen by exactly these, all other pairs staying; then a team whose leader moved comes in step. With no leader around, the kicks leave all pairs but those they cut, and the lists are not full whenever the kicks choose few enough |
| `ViewLedger.Space.CreateObject` | server/clib/gaoi/gaoi.c:876-886 | a new object is in sight of exactly its view, after any kicks, which leave the same behind as in a move; the others keep kind, weight and team |
| `ViewLedger.Space.RemoveObject` | server/clib/gaoi/gaoi.c:1628-1664 | the object is gone and all others see each other as before; the ledger is kept when it saw at most 10240 objects, and broken whenever it saw more than 10240 others |
| `ViewLedger.Space.KickObjectView` | server/clib/gaoi/gaoi.c:902-967 | a kick that is reached parts the chosen from the object, and only them; then the team of the object, and of everyone on the list, chosen or listed meanwhile, follows its leader, in this order; a kick that is not reached changes nothing |
| `ViewLedger.Space.FollowLeaders` | server/clib/gaoi/gaoi.c:951-963 | one after the other, the object and everyone on the list, which grows meanwhile, has its team brought in step if it leads one |
| `ViewLedger.Space.ListChosen` | server/clib/gaoi/gaoi.c:907-943 | the list gains those chosen, as long as it is not full |
| `ViewLedger.Space.ComeToSee` | server/clib/gaoi/gaoi.c:1379-1419 | the object comes to see its new view and then its team follows, unless its id is 0 |
| `ViewLedger.Space.KickViews` | server/clib/gaoi/gaoi.c:1283-1296 | the kicks are carried out one after the other; with no team leader around, the pairs after all of them are those before, less the pairs of each reached kick and those it chose |
| `ViewLedger.KickedNext` | server/clib/gaoi/gaoi.c:902-967 | one more kick cuts exactly its pairs, whether it was reached or not |
| `ViewLedger.OthersSee` | server/clib/gaoi/gaoi.c:1628-1664 | when an object is taken away, the others see each other as before |
| `ViewLedger.Space.SyncTeamLeaderView` | server/clib/gaoi/gaoi.c:1489-1557 | each live member after the leader comes to see what the leader saw, the leader, and the other members, and the rest see each other as before |
| `ViewLedger.Space.SyncMember` | server/clib/gaoi/gaoi.c:1509-1551 | the turn of one member keeps the members before it in step |
| `ViewLedger.Space.ApplyView` | server/clib/gaoi/gaoi.c:1379-1415 | leaving and entering by the two lists of differences makes the view the new view, both ways |
| `ViewLedger.Space.ListChanges` | server/clib/gaoi/gaoi.c:1379-1397 | the two lists gain, behind the object, exactly those who are in one of the two views only |
| `ViewLedger.Space.ListMissing` | server/clib/gaoi/gaoi.c:1683-1702 | the list gains exactly those of a view that are not in the other, if it has room for all of them, or is not full afterwards |
| `ViewLedger.PartedKeeps` | server/clib/gaoi/gaoi.c:478-483 | two LeaveView calls undo one pair and keep symmetry, liveness and balance |
| `ViewLedger.MetKeeps` | server/clib/gaoi/gaoi.c:485-490 | two EnterView calls make one pair and keep the same |
| `ViewLedger.LeftBalanced` | server/clib/gaoi/gaoi.c:478-483 | the weight is taken off exactly when the pair was there |
| `ViewLedger.EnteredBalanced` | server/clib/gaoi/gaoi.c:485-490 | the weight is added exactly when the pair was not there |
| `ViewLedger.SeeingWeighs` | server/clib/gaoi/gaoi.c:216-220 | who comes to see an object carries its weight, modulo 2^16, but nothing for an NPC |
| `ViewLedger.GoneKeeps` | server/clib/gaoi/gaoi.c:1628-1664 | an object may be freed if and only if it sees nobody else |
| `ViewLedger.InStepNext` | server/clib/gaoi/gaoi.c:1509-1551 | a group in step stays so when the next member has taken over the view |
| `GridLists.List.Link` | server/clib/gaoi/gaoi.c:264-299 | the object becomes the first of the doubly linked list of its kind |
| `GridLists.List.Unlink` | server/clib/gaoi/gaoi.c:301-341 | the object is taken out from anywhere in the list, the others keep their order, and its links are cleared |
| `GridLists.List.Rotate` | server/clib/gaoi/gaoi.c:343-349 | the last player becomes the first |
| `Seri.UnpackPacked` | server/skynet/lualib-src/lua-seri.c:295-338 | reading a packed value gives the value and leaves what follows it, for any value and any bytes after it |
| `Seri.UnpackPackedList` | server/skynet/lualib-src/lua-seri.c:554-595 | a packed list of values is read back as that list, to the last byte |
| `Seri.FitsExactly` | server/skynet/lualib-src/lua-seri.c:295-338 | packing succeeds if and only if the innermost value stands in at most 32 tables |
| `Seri.ReadsInteger` | server/skynet/lualib-src/lua-seri.c:358-398 | each of the six forms of a 64-bit integer is read back, negative ones too |
| `Seri.ReadsString` | server/skynet/lualib-src/lua-seri.c:466-519 | short, 16-bit and 32-bit strings are read back |
| `Seri.ReadsCount` | server/skynet/lualib-src/lua-seri.c:432-446 | the number of array elements is read back, whether in the cookie or as an integer |
| `Seri.FirstByte` | server/skynet/lualib-src/lua-seri.c:14-39 | the first byte of every packed value: the type in three bits, and above it the truth value, the form of the number, the length of a short string, the number of length bytes of a long one, or the number of array elements up to 30 |
| `Bytes.LittleAt` | server/skynet/lualib-src/lua-seri.c:154-166 | byte i of a number written in memory order is its digit i to the base 256 |
| `SeriBlocks.PackAndUnpack` | server/skynet/lualib-src/lua-seri.c:598-610 | through blocks of 128 bytes: packing fails exactly for a value of more than 32 nested tables, and otherwise unpacking gives the same list |
| `SeriBlocks.WriteBlock.Push` | server/skynet/lualib-src/lua-seri.c:63-83 | the bytes written grow by the buffer, over any number of blocks |
| `SeriBlocks.WriteBlock.WriteInteger` | server/skynet/lualib-src/lua-seri.c:140-172 | the bytes of the form that the number needs |
| `SeriBlocks.WriteBlock.WriteString` | server/skynet/lualib-src/lua-seri.c:188-211 | the head, the length and the bytes |
| `SeriBlocks.WriteBlock.PackOne` | server/skynet/lualib-src/lua-seri.c:294-338 | the packed form of the value is appended, or false is returned exactly for a value nested too deeply at this depth |
| `SeriBlocks.WriteBlock.PackArray` | server/skynet/lualib-src/lua-seri.c:215-235 | the head of a table and its packed elements are appended |
| `SeriBlocks.WriteBlock.PackHash` | server/skynet/lualib-src/lua-seri.c:237-255 | the packed pairs and the end mark are appended |
| `SeriBlocks.WriteBlock.Seri` | server/skynet/lualib-src/lua-seri.c:532-551 | the chain of blocks is laid out as the bytes that were written |
| `SeriBlocks.ReadBlock.Read` | server/skynet/lualib-src/lua-seri.c:116-126 | a piece is cut off if there are enough bytes; otherwise nothing is |
| `SeriBlocks.ReadBlock.ReadOne` | server/skynet/lualib-src/lua-seri.c:521-530 | for arbitrary bytes, valid or not, the cursor reads what the recursive reading of the rest says |
| `SeriBlocks.ReadBlock.ReadTable` | server/skynet/lualib-src/lua-seri.c:432-463 | the same for a table |
| `SeriBlocks.ReadBlock.ReadAll` | server/skynet/lualib-src/lua-seri.c:553-595 | the same for a whole buffer |
| `Netpack.Run` | server/skynet/lualib-src/lua-netpack.c:186-314 | for any chunks of any connections, closings and errors between them, the packets handed out for a connection are those of its own bytes, in order |
| `Netpack.Reader.Filter` | server/skynet/lualib-src/lua-netpack.c:225-305 | one chunk, after whatever was left of its connection, gives the packets that the bytes complete, directly or through the queue, and saves what is left |
| `Netpack.Reader.PushMore` | server/skynet/lualib-src/lua-netpack.c:186-213 | the packets of a chunk are queued in order and an incomplete one is saved |
| `Netpack.Reader.PushData` | server/skynet/lualib-src/lua-netpack.c:148-165 | the ring gains the packet at its end, through a growth of the ring too |
| `Netpack.Reader.ExpandQueue` | server/skynet/lualib-src/lua-netpack.c:131-146 | a full ring grows by 1024 and keeps its packets in order |
| `Netpack.Reader.FindUncomplete` | server/skynet/lualib-src/lua-netpack.c:90-112 | what a connection has begun is taken off its hash chain; all others keep theirs |
| `Netpack.Reader.SaveUncomplete` | server/skynet/lualib-src/lua-netpack.c:167-178 | what a connection has begun is kept; all others keep theirs |
| `Netpack.Reader.CloseUncomplete` | server/skynet/lualib-src/lua-netpack.c:215-223 | what a closed connection has begun is forgotten; all others keep theirs |
| `Netpack.Reader.Pop` | server/skynet/lualib-src/lua-netpack.c:394-408 | the oldest packet comes out, or none when the ring is empty |
| `Framing.FeedJoined` | server/skynet/lualib-src/lua-netpack.c:225-305 | wherever a stream is cut in two, even inside a header, it gives the same packets and the same rest |
| `Framing.StreamRead` | server/skynet/lualib-src/lua-netpack.c:434-450 | packed packets are read back, with nothing left over |
| `Framing.FrameSize` | server/skynet/lualib-src/lua-netpack.c:434-450 | a packed packet is two bytes of size, most significant first, and the packet |
| `Bytes.BigAt` | server/skynet/service-src/service_harbor.c:274-280 | byte i of a number in network order is its digit i to the base 256, counted from the end |
| `Framing.HeardIsStream` | server/skynet/lualib-src/lua-netpack.c:225-305 | a connection's packets depend on its bytes alone |
| `Framing.PacketsArrive` | server/skynet/lualib-src/lua-netpack.c:225-305 | packets arrive as packed, however their stream is cut and mixed with others |
| `Harbor.Run` | server/skynet/service-src/service_harbor.c:409-501 | messages that one harbor sends arrive at the other in order, each with its header, for any chunks |
| `Harbor.SentRead` | server/skynet/service-src/service_harbor.c:329-342 | a message is delivered if its content is below 2^24 bytes, takes the link down from there to 2^32, and is not sent from 2^32 on |
| `Harbor.FeedJoined` | server/skynet/service-src/service_harbor.c:409-501 | wherever the stream is cut, in handshake, length or content, the outcome is the same |
| `Harbor.StreamRead` | server/skynet/service-src/service_harbor.c:409-501 | a stream of sent messages is read back as these messages |
| `Harbor.HeaderReads` | server/skynet/service-src/service_harbor.c:275-304 | message_to_header undoes header_to_message |
| `Harbor.UnpackedIsMessage` | server/skynet/service-src/service_harbor.c:309-326 | the receiver takes body and header apart as the sender put them together |
| `Harbor.Arrives` | server/skynet/service-src/service_harbor.c:518-554 | the receiver finds the type where the harbor number was, and the handle is right if and only if it was of that harbor |
| `Harbor.Slave.Receive` | server/skynet/service-src/service_harbor.c:409-501 | for any status and chunk, the contents delivered and the new status are those of the stream |
| `Harbor.Slave.ReadHandshake` | server/skynet/service-src/service_harbor.c:432-450 | a wrong first byte takes the link down, the right one opens it |
| `Harbor.Slave.ReadLength` | server/skynet/service-src/service_harbor.c:451-475 | up to four bytes are collected; a length of 2^24 or more takes the link down |
| `Harbor.Slave.ReadContent` | server/skynet/service-src/service_harbor.c:478-496 | a content is completed or extended |
| `Harbor.Slave.DispatchQueue` | server/skynet/service-src/service_harbor.c:390-406 | queued messages are sent in order and the queue is emptied |
| `Harbor.Slave.Send` | server/skynet/service-src/service_harbor.c:518-554 | messages for a link that is not up are queued, in order with those sent later; on a link that is down they get nowhere |
| `DataBuffer.Run` | server/skynet/service-src/databuffer.h:64-144 | for any chunks, the frames handed out are those of the whole stream; packets that fit come back, but for the empty ones, which are skipped |
| `DataBuffer.CutJoined` | server/skynet/service-src/databuffer.h:126-144 | wherever the stream is cut, the frames and the rest are the same, up to a frame that is too long |
| `DataBuffer.StreamRead` | server/skynet/service-src/databuffer.h:126-144 | framed packets are cut as they were, but for the empty ones |
| `DataBuffer.Pieces.Push` | server/skynet/service-src/databuffer.h:92-123 | the pending bytes grow by the piece; nodes come from the pool |
| `DataBuffer.Pieces.Read` | server/skynet/service-src/databuffer.h:65-89 | the first bytes pending are read off, over any number of pieces |
| `DataBuffer.Pieces.ReturnMessage` | server/skynet/service-src/databuffer.h:49-62 | a piece that was read goes back to the pool and nothing pending is lost |
| `DataBuffer.Connection.ReadHeader` | server/skynet/service-src/databuffer.h:126-144 | a header of two or four bytes is read once; the length is given when the frame is complete, and an empty frame is consumed |
| `DataBuffer.Connection.Dispatch` | server/skynet/service-src/service_gate.c:189-209 | the frames forwarded and what is left are those of the bytes that were left before, followed by the new piece |
| `DiffieHellman.MulModP` | server/skynet/lualib-src/lua-crypt.c:664-684 | the product modulo P, no sum leaving 64 bits |
| `DiffieHellman.OneBit` | server/skynet/lualib-src/lua-crypt.c:668-681 | one round of the loop keeps what is still to be computed, in all four branches |
| `DiffieHellman.PowModP` | server/skynet/lualib-src/lua-crypt.c:686-697 | the power modulo P, except that a first power is the base itself |
| `DiffieHellman.PowerModP` | server/skynet/lualib-src/lua-crypt.c:700-705 | the power modulo P if and only if it is not the first power of P itself |
| `DiffieHellman.GeneratorNeverVanishes` | server/skynet/lualib-src/lua-crypt.c:737-757 | no power of the generator is 0 modulo P |
| `DiffieHellman.Exchange` | server/skynet/lualib-src/lua-crypt.c:739-757 | 0 is refused and nothing else; what is sent is a power of the generator, from 1 to P - 1 |
| `DiffieHellman.Secret` | server/skynet/lualib-src/lua-crypt.c:722-735 | 0 is refused and nothing else; the power modulo P if and only if it is not the first power of P |
| `DiffieHellman.SecretIs` | server/skynet/lualib-src/lua-crypt.c:722-735 | a power of a reduced power of the generator is the power by the product |
| `DiffieHellman.Agree` | server/skynet/lualib-src/lua-crypt.c:722-757 | both sides derive the same secret, which is not 0, and neither is refused |
| `Des.EncodeDecode` | server/skynet/lualib-src/lua-crypt.c:363-436 | every text comes back from its cipher, for any subkeys and any S-boxes, and the scan for its end stays inside the buffer |
| `Des.DecodeEncode` | server/skynet/lualib-src/lua-crypt.c:363-436 | whatever is deciphered enciphers to the cipher again |
| `Des.Encode` | server/skynet/lualib-src/lua-crypt.c:363-396 | block by block, the cipher of the text padded with 0x80 and zeros to whole blocks |
| `Des.Decode` | server/skynet/lualib-src/lua-crypt.c:398-436 | a text whose padding was deciphered, or a refusal if and only if no text has this cipher; the scan, which compares without sign, reads before the buffer if and only if the cipher is one block that deciphers to eight zeros |
| `Des.PaddedEnds` | server/skynet/lualib-src/lua-crypt.c:412-430 | cutting at the last octet that is not zero, if that is 0x80, undoes padding, and nothing else has this form |
| `Des.NoText` | server/skynet/lualib-src/lua-crypt.c:412-430 | a block in which the mark is missing is the padding of no text |
| `Des.ReverseKeys` | server/skynet/lualib-src/lua-crypt.c:401-409 | the pairs of subkeys in reverse order |
| `Des.FinalUndoesInitial` | server/skynet/lualib-src/lua-crypt.c:200-223 | the final permutation undoes the initial one |
| `Des.InitialUndoesFinal` | server/skynet/lualib-src/lua-crypt.c:200-223 | the initial permutation undoes the final one |
| `Des.RoundsUndone` | server/skynet/lualib-src/lua-crypt.c:226-240 | the rounds with reversed keys undo the rounds, for any number of keys and any S-boxes |
| `Des.CryptUndone` | server/skynet/lualib-src/lua-crypt.c:314-335 | a block is restored by the reversed subkeys |
| `Des.CryptAllUndone` | server/skynet/lualib-src/lua-crypt.c:387-392 | so is every block of a text |
| `DesStandard.CryptIs` | server/skynet/lualib-src/lua-crypt.c:314-335 | for any S-boxes, subkeys and block: table IP of FIPS 46-3 applied to the output gives what the rounds of the standard make of table IP applied to the input, with the halves exchanged, although the code keeps both halves rotated |
| `DesStandard.InitialIs` | server/skynet/lualib-src/lua-crypt.c:202-211 | every bit of the initial permutation, its rotations taken back, is the one that table IP names |
| `DesStandard.MixIs` | server/skynet/lualib-src/lua-crypt.c:226-240 | a round mixes in the xor of the eight S-boxes, each at the six bits that its row of table E selects, xored with its six key bits |
| `DesStandard.OneBox` | server/skynet/lualib-src/lua-crypt.c:226-240 | with all S-boxes but one empty, a round mixes in that box at its own group |
| `DesStandard.RoundsAre` | server/skynet/lualib-src/lua-crypt.c:320-327 | the rounds on rotated halves are the rounds of the standard on plain ones |
| `Sha1.DigestOf` | server/skynet/lualib-src/lsha1.c:187-242 | for any split of the message into updates below 2^29 bytes, the digest is that of the blocks of the padded message of section 5.1.1 of FIPS 180-4 |
| `Sha1.Context.Update` | server/skynet/lualib-src/lsha1.c:187-213 | the message absorbed grows by the data; the bit count stays right if and only if the data are below 2^29 bytes or the low word overflows |
| `Sha1.Context.TransformBlocks` | server/skynet/lualib-src/lsha1.c:202-204 | whole blocks are transformed straight from the data |
| `Sha1.Context.Final` | server/skynet/lualib-src/lsha1.c:216-242 | given a right count, the digest of the padded message |
| `Sha1.CountedExactly` | server/skynet/lualib-src/lsha1.c:197-198 | the carry between the two words of the bit count is right exactly under that condition, for updates below 2^61 bytes |
| `Sha1.LengthByte` | server/skynet/lualib-src/lsha1.c:222-225 | the eight bytes taken from the two words are the 64-bit length, most significant first |
| `Sha1.DigestReads` | server/skynet/lualib-src/lsha1.c:231-234 | each word of the state is read back from its four bytes of the digest, most significant first |
| `Sha1.InitCounts` | server/skynet/lualib-src/lsha1.c:175-184 | the initial words are those of section 5.3.1 of FIPS 180-4: bytes that count the hexadecimal digits up and down |
| `Sha1.FillIs` | server/skynet/lualib-src/lsha1.c:227-229 | padding one zero at a time stops at the fewest zeros that leave room for the length |
| `Sha1.HmacSha1` | server/skynet/lualib-src/lsha1.c:273-310 | the keyed hash of section 2 of RFC 2104, keys of more than a block hashed first, for keys below 2^29 bytes and texts below that, or of a length whose bits overflow the low word of the count |
| `Sha1.XoredTwice` | server/skynet/lualib-src/lsha1.c:264-270 | the key masked for the inner hash is turned into the key masked for the outer one by one more mask |
| `Sha1.XorKey` | server/skynet/lualib-src/lsha1.c:264-270 | every byte of the key is masked |
| `Handles.Table.Register` | server/skynet/skynet-src/skynet_handle.c:34-67 | the context gets a handle of this harbor that no live context has, the first of those from the index on whose slot is free once the table has grown far enough, and the index is behind it then; all others keep theirs; it gives up only when every handle of the harbor is live |
| `Handles.Run` | server/skynet/skynet-src/skynet_handle.c:34-106 | over every run of registrations and retirements: until the 24-bit index wraps, the handles given out strictly increase, so that none is given out twice and none is 0; all carry the number of this harbor, and every live one was given out |
| `Handles.Table.Grow` | server/skynet/skynet-src/skynet_handle.c:55-65 | the table is doubled and no two contexts meet |
| `Handles.Table.Grab` | server/skynet/skynet-src/skynet_handle.c:132-149 | the context registered under the handle, or none if there is none |
| `Handles.Table.Retire` | server/skynet/skynet-src/skynet_handle.c:69-106 | the handle and all its names go, and nothing else |
| `Handles.Table.Unname` | server/skynet/skynet-src/skynet_handle.c:82-93 | compacting the name array takes out the names of the handle and keeps the order of the rest |
| `Handles.Table.Search` | server/skynet/skynet-src/skynet_handle.c:152-179 | the name is found, or the place where it would go |
| `Handles.Table.FindName` | server/skynet/skynet-src/skynet_handle.c:151-179 | the handle of the name, or 0 if no entry has it |
| `Handles.Table.NameHandle` | server/skynet/skynet-src/skynet_handle.c:207-229 | the name is added at one place and refused if and only if it is taken; names stay strictly sorted |
| `Handles.Table.InsertBefore` | server/skynet/skynet-src/skynet_handle.c:181-205 | the entry is put in, with or without a longer array, and the others keep their order |
| `Handles.MaskedSlot` | server/skynet/skynet-src/skynet_handle.c:34-67 | the slot of a handle and the slot of its low 24 bits agree in every table size the doubling reaches |
| `Handles.DoubledSlot` | server/skynet/skynet-src/skynet_handle.c:58-62 | on doubling, a handle stays or moves up by the old size |
| `Handles.Visits` | server/skynet/skynet-src/skynet_handle.c:42-53 | consecutive handles reach every slot, whatever the index |
| `Handles.EveryHandle` | server/skynet/skynet-src/skynet_handle.c:55 | in a table of 2^24 slots, all taken, every handle is live |
| `Handles.MovesOne` | server/skynet/skynet-src/skynet_handle.c:58-62 | moving contexts one by one finds every target slot empty, as the assertion demands |
| `Handles.WithoutSorted` | server/skynet/skynet-src/skynet_handle.c:82-93 | the names that are left stay sorted |
| `Handles.InsertedSorted` | server/skynet/skynet-src/skynet_handle.c:181-205 | the names stay sorted around the new one |
| `RwLock.RunKeeps` | server/skynet/skynet-src/rwlock.h:18-48 | in every interleaving of any number of threads, the two fields count who is inside or about to be |
| `RwLock.Exclusion` | server/skynet/skynet-src/rwlock.h:18-48 | a writer is never inside together with a reader or another writer |
| `RwLock.AllOut` | server/skynet/skynet-src/rwlock.h:41-48 | when all are out, both fields are 0 again |
| `RwLock.ReaderGetsIn` | server/skynet/skynet-src/rwlock.h:18-30 | with no writer about, a reader is inside after three operations, and outside again as if nothing had been after one more |
| `RwLock.WriterGetsIn` | server/skynet/skynet-src/rwlock.h:32-43 | with nobody about, so is a writer, alone |
| `RwLock.StepKeeps` | server/skynet/skynet-src/rwlock.h:18-48 | each single atomic operation keeps the invariant, spinning and the retreat of a reader included |
| `Stm.FreedWhenReleased` | server/skynet/lualib-src/lua-stm.c:45-53 | in every run a copy is freed at most once, and it is freed if and only if neither writer nor current state nor any reader holds it |
| `Stm.ReadersAreSafe` | server/skynet/lualib-src/lua-stm.c:203-233 | the copy a reader keeps, has found, or is about to hand back was not freed |
| `Stm.NotRegained` | server/skynet/lualib-src/lua-stm.c:91-102 | a copy that nobody holds is not taken up again by any step |
| `Stm.FreedStays` | server/skynet/lualib-src/lua-stm.c:45-53 | a freed copy is not touched by any later step and is never current again |
| `Stm.ReadsWereCurrent` | server/skynet/lualib-src/lua-stm.c:203-233 | over every run: when a read ends, the copy that the reader keeps is one that was current at some moment of that read, with the lock taken and not yet given back |
| `Stm.TakenWasCurrent` | server/skynet/lualib-src/lua-stm.c:91-102 | over every run: the copy that a reader has counted, or is about to compare with its own, was current during its read |
| `Stm.UndisturbedRead` | server/skynet/lualib-src/lua-stm.c:203-233 | after any run in which the writer is not inside: a read that nobody disturbs ends with the current copy, and nothing else changes |
| `Stm.UndisturbedUpdate` | server/skynet/lualib-src/lua-stm.c:105-113 | after any run in which no reader is inside: an update that nobody disturbs ends with a new copy as the current one |
| `Stm.StepKeeps` | server/skynet/lualib-src/lua-stm.c:91-113 | every step of any reader or the writer keeps counters equal to holders |
| `Stm.ReaderKeeps` | server/skynet/lualib-src/lua-stm.c:203-233 | so do the steps of a reader, between which others may move |
| `Stm.WriterKeeps` | server/skynet/lualib-src/lua-stm.c:105-113 | so do the steps of the writer |
| `ShareData.Convert` | server/skynet/lualib-src/lua-sharedata.c:275-323 | the table built from a Lua table holds exactly its entries under their keys as cast to int, for any size of the array part, if the casts are distinct and keep the keys in their parts |
| `ShareData.Table.FillNoColliding` | server/skynet/lualib-src/lua-sharedata.c:211-233 | after the first pass every main position of a hash key is taken, by a key that belongs there, and the array part is filled |
| `ShareData.Table.FillColliding` | server/skynet/lualib-src/lua-sharedata.c:236-270 | after the second pass every hash key is in the table, found from its main position |
| `ShareData.Table.EmptyNode` | server/skynet/lualib-src/lua-sharedata.c:250-258 | while a key is missing the scan finds an empty node |
| `ShareData.Table.LookupKey` | server/skynet/lualib-src/lua-sharedata.c:500-528 | the node of the key, an int or a string, or none if and only if the hash part has no such key |
| `ShareData.Table.Index` | server/skynet/lualib-src/lua-sharedata.c:531-564 | the value that the table has for the key as cast to int; this is the value for the key itself if and only if the key fits an int or its cast is no key of the table |
| `ShareData.Table.NextKey` | server/skynet/lualib-src/lua-sharedata.c:588-644 | for the cast of the given key, the key after it in the order of cells and nodes, or none after the last or for a key that is in neither part |
| `ShareData.Table.Traverse` | server/skynet/lualib-src/lua-sharedata.c:588-644 | following nextkey from nil visits every key of the table exactly once, and no other |
| `ShareData.CountSize` | server/skynet/lualib-src/lua-sharedata.c:66-87 | the number of entries that go to the hash part |
| `ShareData.FirstHolds` | server/skynet/lualib-src/lua-sharedata.c:211-233 | a key put into its free main position joins the table |
| `ShareData.SecondHolds` | server/skynet/lualib-src/lua-sharedata.c:236-270 | a key put into any empty node, right after its main position, joins the table |
| `ShareData.AtMain` | server/skynet/lualib-src/lua-sharedata.c:236-270 | when the second pass comes to a key, it is in the table if and only if it is the one at its main position |
| `ShareData.RoomFor` | server/skynet/lualib-src/lua-sharedata.c:250-258 | a table that lacks one of its keys has fewer keys than nodes |
| `PbcMap.New` | server/clib/lua-protobuf/map.c:137-163 | the array form and the hash form answer every id with what the entries say; the array form is taken exactly for ids from 0 to twice the number of entries, and is as long as the largest id demands |
| `PbcMap.MapIp.Query` | server/clib/lua-protobuf/map.c:211-231 | the pointer of the id, or null if no entry has it, in either form |
| `PbcMap.MapIp.Indexed` | server/clib/lua-protobuf/map.c:153-162 | the array form holds the entries, for ids from 0 to the largest |
| `PbcMap.MapIp.Hashed` | server/clib/lua-protobuf/map.c:106-134 | the hash form holds the entries, for any 32-bit ids, negative ones too |
| `PbcMap.MapIp.Put` | server/clib/lua-protobuf/map.c:112-131 | one entry is put in, at its hash or at an empty slot linked behind that |
| `PbcMap.MapIp.NextEmpty` | server/clib/lua-protobuf/map.c:119-121 | the scan finds an empty slot and never runs off the end |
| `PbcMap.BeginHolds` | server/clib/lua-protobuf/map.c:112-131 | a key put into the free slot it hashes to joins the table |
| `PbcMap.InsertHolds` | server/clib/lua-protobuf/map.c:112-131 | a key put into an empty slot, linked in behind the slot it hashes to, joins the table, although chains of different hashes grow together |
| `PbcMap.AheadNext` | server/clib/lua-protobuf/map.c:216-230 | a step along the coalesced chain passes no entry of the id and comes nearer to the end |
| `PbcMap.EmptyLeft` | server/clib/lua-protobuf/map.c:119-121 | with fewer entries than slots and only used slots behind it, the scan has not reached the end |
| `Chains.InsertKeeps` | server/clib/lua-protobuf/map.c:112-131 | linking in an unused slot behind a used one keeps all that was reachable, and makes the slot reachable |
| `Chains.StepOn` | server/clib/lua-protobuf/map.c:216-230 | following the link loses sight of no later slot of the chain |
| `SkynetTimer.Timer.Link` | server/skynet/skynet-src/skynet_timer.c:64-69 | one list grows by the node at its end and no other changes |
| `TimeWheel.Wheel.Link` | server/clib/timingwheel/twheel.c:18-23 | one list grows by the node at its end and no other changes |
| `Scheduler.LaunchKeeps` | server/skynet/skynet-src/skynet_server.c:120-146 | a service begins with a context of two references and a queue that only its creator holds |
| `Scheduler.RetireKeeps` | server/skynet/skynet-src/skynet_handle.c:69-106 | taking a handle out of the table hands one reference to the one who took it out, once |
| `Scheduler.DropKeeps` | server/skynet/skynet-src/skynet_mq.c:230-237 | a message is dropped only by the worker that found the queue marked |
| `Scheduler.FreeKeeps` | server/skynet/skynet-src/skynet_mq.c:94-100 | the holder that emptied a marked queue frees it, and nobody else holds it then |
| `SocketSend.Socket.AppendSendBuffer` | server/skynet/skynet-src/socket_server.c:768-771 | the packet stands last in the high list, in front of the low one, and wb_size, frame and order stay right |
| `SocketSend.Socket.AppendSendBufferLow` | server/skynet/skynet-src/socket_server.c:773-777 | the packet stands last of all, and wb_size and order stay right |
| `SocketSend.Socket.ReportConnect` | server/skynet/skynet-src/socket_server.c:1191-1223 | a connection that came about keeps what is pending, one that failed is closed |
| `SocketSend.Socket.ForceClose` | server/skynet/skynet-src/socket_server.c:386-412 | by a thread that has the lock, a packet cut short is the only loss on the wire |
| `ViewLedger.Space.LeaveView` | server/clib/gaoi/gaoi.c:478-483 | one view loses one object, and the weight is taken off only if it was there |
| `ViewLedger.Space.EnterView` | server/clib/gaoi/gaoi.c:485-490 | one view gains one object, and the weight is added only if it was not there |
| `ViewLedger.Space.LeaveAll` | server/clib/gaoi/gaoi.c:1399-1406 | those listed part from the object, both ways, and no other pair changes |
| `ViewLedger.Space.EnterAll` | server/clib/gaoi/gaoi.c:1408-1415 | those listed meet the object, both ways, and no other pair changes |
| `SeriBlocks.ReadBlock.ReadInteger` | server/skynet/lualib-src/lua-seri.c:358-398 | for arbitrary bytes and any cookie, the number or a refusal, as the form says |
| `SeriBlocks.ReadBlock.ReadValue` | server/skynet/lualib-src/lua-seri.c:466-519 | for arbitrary bytes and any type, the value or a refusal |
| `SeriBlocks.ReadBlock.ReadArray` | server/skynet/lualib-src/lua-seri.c:449-453 | the announced number of elements, none for a negative one |
| `SeriBlocks.ReadBlock.ReadPairs` | server/skynet/lualib-src/lua-seri.c:454-462 | pairs up to a nil key |
| `Netpack.Reader.Handle` | server/skynet/lualib-src/lua-netpack.c:336-385 | one event and the emptying of the queue give the packets that the event completes, and change no other connection |
| `Harbor.Slave.Connect` | server/skynet/service-src/service_harbor.c:602-633 | a link that was waiting starts with a handshake, or is open and sends what was queued |
| `DataBuffer.Pieces.TakeNode` | server/skynet/service-src/databuffer.h:93-112 | a node comes off the free list, or off a new pool, and is in no list |
| `Handles.Table.Take` | server/skynet/skynet-src/skynet_handle.c:43-52 | a free slot takes the context under a handle that is not live, no other slot changes, and the next handle to try is the one behind it |
| `SocketSend.WholeNow` | server/skynet/skynet-src/socket_server.c:386-412 | the wire is a row of whole accepted packets and at most one partial one as long as nothing was cut short, or nothing was written behind what was |
| `SocketSend.BehavesOn` | server/skynet/skynet-src/socket_server.c:386-412 | a history of moments that behaves is extended by every step that does |
| `SocketSend.AssertionFails` | server/skynet/skynet-src/socket_server.c:696-700 | a run that reaches the assertion with a packet in the low list, of which the kernel refused to take anything |
| `SocketSend.Socket.Decide` | server/skynet/skynet-src/socket_server.c:885-893 | a socket that is not shut down and has packets left, perhaps those of a worker that wrote in between, becomes half-closed; any other is closed |
| `SocketSend.FreedHead` | server/skynet/skynet-src/socket_server.c:386-396 | what is begun when the lists are freed is the head of the high list, unless a worker left it in dw_buffer |
| `SocketSend.OpenSourced` | server/skynet/skynet-src/socket_server.c:540-570 | whatever is finished or pending was accepted |
| `ShareData.ConvertAndIndex` | server/skynet/lualib-src/lua-sharedata.c:531-564 | a table that was built answers rightly for a key if and only if the Lua table has the key, or its cast is not the cast of a key of the Lua table |
| `ShareData.WideKey` | server/skynet/lualib-src/lua-sharedata.c:543 | an input on which the answer is wrong: with 1 as the only key, 2^32 + 1 is answered with the value of 1 |
| `ShareData.CastAlike` | server/skynet/lualib-src/lua-sharedata.c:190-208 | no table that is asked by the cast alone answers rightly for two keys that are cast alike and have different values |
| `ShareData.AnswersRight` | server/skynet/lualib-src/lua-sharedata.c:531-564 | the answer for the cast of a key is that of the Lua table exactly under the condition of ConvertAndIndex |
| `Des.DecodeZeros` | server/skynet/lualib-src/lua-crypt.c:421-430 | for every key there is such a cipher |
| `Scheduler.NothingDeletedIsTouched` | server/skynet/skynet-src/skynet_server.c:120-348 | every step that touches a context finds it referred to, by the handle table or by an agent, but for the two steps of a creator after it released its own reference, which find it alive if and only if somebody refers to it then; a context is deleted only by the agent that dropped its last reference |
| `Scheduler.CreatorIsLate` | server/skynet/skynet-src/skynet_server.c:155-161 | a run in which a handle is retired and its context deleted before the creator writes ctx->init |
| `Scheduler.InitialiseKeeps` | server/skynet/skynet-src/skynet_server.c:155-158 | the write of ctx->init is a step of its own, between which and the release others may move |
| `TimerBag.EarlyOnesWait` | server/clib/timingwheel/twheel.c:198-202 | requests that come in just before a dispatch are not part of it and wait like those that come in after it |
| `Chains.EvictKeeps` | server/clib/gaoi/gaoi.c:382-398 | a slot taken out of its chain behind its predecessor begins a chain of its own, and every other slot keeps its links |

## Left out

- TimeWheel.Wheel.Update: states one shift/execute pair; the number of pairs that timewheel_update makes is right only before the 32-bit time wraps, and is not part of the model.
- SkynetTimer.Timer.Timeout: the reply is an event and not a message; the wall clock that calls for ticks is not modelled.
- Scheduler.StepKeeps: handles are never used again, which Handles.Run proves of the handle table until its index wraps; registration and the making of the queue are one step (LaunchKeeps), and so is a push to the global list with the locked section of the queue around it; a service sets its priority itself; a message discarded for want of a callback counts as dispatched; what a launcher does with the context it gets back is not modelled.
- Scheduler.NothingStranded: skynet_context_dispatchall, reserved contexts and the monitor are left out; they serve shutdown and diagnostics.
- SocketSend.Run: one TCP socket with plain buffers; UDP, buffers of user objects, event registration and read data are left out, a failed read counts as a close, and no order is stated between packets sent through the pipe and direct writes made later.
- IdTable.IdMap.Insert: sizes are powers of two and the mask is a remainder. An id that is still held is left out: gaoi.c:1040 and 1050 insert without a query, and a team that names a member twice would bring the object into the table twice; gaoi.c:1337 does too, with players that are in one grid only. In the aoi.c form, ids dropped are only brought back by a query.
- ViewLedger.Space.UpdateObjectPos: the selection of the new view from the grid and the weights is an arbitrary set of live objects, and kicks are given with those they choose; when a list of the result is full at the end, only the ledger is stated.
- ViewLedger.Space.KickObjectView: who is listed while the teams follow their leaders, and so may have a team that follows as well, is not stated beyond those chosen; when a list is full at the end, only the ledger is.
- ViewLedger.Space.SyncTeamLeaderView: states the views when the result has room; without room, the ledger alone. An object that a leader's table holds twice counts once.
- ViewLedger.Run: AoiUpdateObjectWeight is left out; it takes off the new weight where it should take off the old one. Positions, grids and callbacks are left out, but for the lists in GridLists.
- Seri.UnpackPacked: lengths and counts are below 2^31, a string that announces more is invalid, memory copies are little-endian, floats are their eight bytes, a table is its array part and its pairs in the order of the walk, and values with metamethods for pairs are left out.
- SeriBlocks.WriteBlock.PackOne: what was written before a refusal is discarded by the caller, and not stated.
- Netpack.Run: the queue is popped until empty after each "more", and chunks are not empty; socket events other than data and closing carry no packets.
- Harbor.Run: one link; queues of messages for global names are left out, and the queue of a link is a sequence. What a receiver does with a frame of less than the 12 bytes of a header is not stated.
- DataBuffer.Run: each connection has a pool of its own, and nothing is stated about the stream after a frame that is too long, for which the connection is closed.
- DiffieHellman.Agree: the eight bytes that carry a number, and the refusal of strings of other lengths, are left out.
- Des.EncodeDecode: the key schedule and the S-boxes are arbitrary; the number of rounds is any, of which the program has 16.
- DesStandard.CryptIs: the S-boxes hold the permutation P and the rotation by one bit, as the tables of the program do, so P is not stated apart from them; a subkey is two words of four groups each.
- Des.Decode: texts are shorter than 2^31 octets, as far as the int index of the loops goes.
- Sha1.DigestOf: the transformation of one block is an arbitrary function of the state and the block.
- Sha1.HmacSha1: keys and texts are below 2^61 bytes; what the digest is when the bit count is wrong is not stated.
- Handles.Table.Register: one step under the write lock; that handle 0 is never given out, nor a handle twice, is stated by Handles.Run until the 24-bit index wraps. The limit on the number of names is not modelled.
- RwLock.Exclusion: the version built on pthread is left out; each atomic operation is one step, sequentially consistent.
- Stm.FreedWhenReleased: the lock is the one proved in RwLock, a release and the free it leads to are one step, and the storage of the shared object itself is left out.
- ShareData.Convert: strings carry their hash, nested tables are opaque values, and the table of distinct strings is left out. Tables in which two keys are cast alike, or a hash key is cast to a key of the array part, are left out: their nodes may not all be filled, and what the program reads there is undefined.
- PbcMap.New: ids are distinct and pointers not null, also for PbcMap.MapIp.Indexed and PbcMap.MapIp.Hashed; the map from strings and the combining of maps are left out.
- SkynetTimer.Timer.Link: the list is a sequence; the tail pointer that link moves is not modelled.
- TimeWheel.Wheel.Link: the list is a sequence; the tail pointer that timelist_add moves is not modelled.
- Scheduler.LaunchKeeps: registration and the making of the queue are one step; in between, the source has a context without a queue.
- DataBuffer.Connection.Dispatch: every frame is forwarded; a gate without broker, agent and watchdog (service_gate.c:169-187, 365) resets the header without reading the frame, and takes the bytes of the frame for the next header.
- Harbor.Slave.Send: the error sent back for a link that is down is left out; it takes a link without a socket, which no link that went down is.
- ViewLedger.Space.CreateObject: as ViewLedger.Space.UpdateObjectPos.
- rc4, hashid, base64, hexadecimal, the 64-bit hmac, BSON, the protobuf wire format, cluster splitting and the Python tools are left out: they would add easy members, or are I/O.
