# Verification of the sandbox client's tunnel, placement and transport logic

A Dafny model of the stateful parts of `yr_sandbox`, with proofs about every run of them.

The core is the resumable, credit-controlled streaming protocol of the reverse tunnel. HTTP bodies are
multiplexed over one control connection that drops and comes back. The request side accepts, acknowledges or
refuses chunks by their offset and pays credits back as its consumer takes them. The response side cuts a body
into chunks, spends one credit a frame, keeps what is not acknowledged and replays it after a reconnect. The
model reads each piece of code between two suspension points as one step, and the theorems are about all lists
of steps: nothing the receiver lacks is ever dropped, delivery is in order and exactly once, a
replay that its credits cover catches up from every combination of losses, a body can be delivered if and only if
it keeps the limits and its declared length, and a peer that keeps the rules overflows a window in one known case
only.

Around the core stand the reply cache and its sweep, the at-most-once rule for plain requests, the negotiation
of limits, WebSocket fragmentation, the binary envelope, and five components outside the tunnel: placement
constraints, the shared HTTP clients, direct invocation with fall-back, resumable download, chunked remote
files and the poll loop.

Three layers recur. A `datatype` holds the state and functions say what each code segment does to it; lemmas
prove what holds over whole runs; where the program updates fields in place, a class with the same fields has
methods whose contracts equate the new state with the function applied to the old one. `dafny verify
dfyconfig.toml` checks everything.

## What the proofs show that the code does not promise

Eight expected properties do not hold of the code as it stands. Each has a lemma with a run that breaks it, and a
lemma that says exactly when the property does hold.

- **A broken connection can leave the client stuck for good.** Only the receive loop notices it and makes way for
  the next one, and the loop itself waits for a connection whenever it sends: a pong
  (`python/yr_sandbox/tunnel_client.py:1570-1577`), the answer to a begin, an acknowledgement, a replayed chunk.
  A break during the answer to a ping, with no replay anywhere, is enough (`TunnelRecovery.BreakDuringPong`);
  so is a replay that waits for the lock of a first send (`TunnelRecovery.LockWedges`). In every reachable
  state a break is survived if and only if the loop waits for a frame, or puts an end marker into a queue whose
  generator is about to take from it, or is in a replay that holds the lock and has nothing left to send
  (`TunnelRecovery.BreakIsSurvivedIff`).
- **A replay can wedge the client on a sound connection.** The replay takes its credits inside the receive loop,
  the only place that grants them (`python/yr_sandbox/tunnel_client.py:1475-1484`). A receiver that follows the
  request side's own rules and has a full queue is enough (`TunnelRecovery.FullReceiverWedges`). From every
  reachable state the loop gets back to reading frames if and only if its credits cover the replay, the end
  marker it puts has a taker, and the connection holds or is not needed (`TunnelRecovery.LoopGoesOnIff`).
- **The first frame after a reconnect can make a gap.** A slice still being sent when the connection is lost has
  the lock and goes out before the replay (`TunnelRecovery.HeldSliceGoesFirst`). The frames are taken smoothly
  if and only if the receiver has what comes before that slice (`TunnelRecovery.ReconnectRecovers`).
- **The end of a response without a declared length cannot be trusted.** `http_resp_end` is not kept in order
  with the data: it can go out on a new connection before the lost chunks. Over all runs the body a receiver
  takes for complete is complete if and only if its length was declared (`TunnelRuns.EndIsTrustedIffDeclared`).
- **The end flag of a data frame skips the length check** that an end frame makes
  (`python/yr_sandbox/tunnel_client.py:1320-1322` against `1429-1444`): the body is as long as declared if and
  only if the flagged chunk ends there (`RequestStreams.EndFlagSkipsDeclaredLength`).
- **A credit can be paid twice.** The retry loop of `send_frame` repeats a credit frame whose send failed, even
  when the failed send had delivered it. A peer that keeps the rules can then be cut off for overflowing the
  window, with every window size (`FlowControl.EveryWindowCanOverflow`). In every configuration and every
  state, a break over a delivered credit can lead there if and only if the queue is full at that moment, where
  the answer to the begin is clamped at zero, and the loop is not sending an answer
  (`FlowControl.ResendOverflowsIffQueueFull`). The order matters: the credit has to go out again after that
  answer, so the hello and the begin have to be there when the loop starts to read, before the generator that
  waits for the connection is resumed.
- **A fall-back to the frontend can repeat an action.** The doc comment at
  `python/yr_sandbox/_transport.py:671-676` rules this out, but only the last attempt decides. An invoke can
  carry its action out twice if and only if it falls back after an earlier attempt that was anything but a
  failed connection (`DirectInvoke.ExecutedTwiceIff`).
- **A complete `.part` file blocks the download for good.** The range request that follows is answered with
  416, which is not retried. A download succeeds if and only if it meets no more faults than retries, the part
  file is not whole at the start, and no stream breaks after its last byte (`Downloads.SucceedsIffNeverWhole`).

Credits of a request stream are not conserved either: duplicates cost one each. What is missing from the window
is known exactly, and with it when a stream stalls (`FlowControl.BalanceIsExact`,
`FlowControl.StallsIffWindowLost`).

## Reading guide

| file | component |
|---|---|
| `TunnelRun.dfy` | response sender and receiver composed over lossy connections; the main results |
| `TunnelRecovery.dfy` | where the receive loop gets stuck, which breaks are survived, what brings the receiver up to date |
| `RequestStream.dfy` | the receiving side of a streamed request |
| `ResponseStream.dfy` | the sending side of a streamed response, window frames, replay |
| `TunnelDelivery.dfy` | which bodies a response can deliver |
| `StreamTable.dfy` | the table of request streams, and frames for streams that are gone |
| `FlowControl.dfy` | credits of a request stream with its peer, end to end |
| `FetchOnce.dfy`, `ReplyCache.dfy` | plain requests fetched at most once; the bounded memories |
| `Negotiation.dfy` | hello frames and limits |
| `WebSocketFragments.dfy` | binary messages cut and put together |
| `Envelope.dfy`, `Uuid.dfy` | the binary envelope and the ids in it |
| `Scheduling.dfy` | placement constraints and the meaning of affinity groups |
| `DirectInvoke.dfy`, `Download.dfy`, `HttpPool.dfy` | the client's transport |
| `RpcFile.dfy`, `PollLoop.dfy` | remote files by action calls; waiting for a process |
| `Bytes.dfy`, `Division.dfy` | shared helpers |

## Model

| member | source | states |
|---|---|---|
| TunnelRuns.NothingLost | python/yr_sandbox/tunnel_client.py:1447-1497 | In every reachable state, whatever was lost, duplicated or reordered: every acknowledgement ever sent is at most `received`; each byte from `received` to `next_offset` is held unacknowledged with its right value; what the upstream got is a prefix of the body. |
| TunnelRuns.SenderAccounts | python/yr_sandbox/tunnel_client.py:705-757 | In every reachable state the unacknowledged list is a gap-free run of nonempty body slices within the chunk limit ending at `next_offset`, which never exceeds the body limit; each completed frame, first send or replay, has its own credit, and no credit is spent otherwise but one by a response that fails; credits taken and held add up to those granted; at most a window is held. |
| TunnelRuns.ReplayCatchesUp | python/yr_sandbox/tunnel_client.py:1481-1497 | From any reachable state with queue room for what is missing, sending the unacknowledged list in order meets only duplicates and then exactly the next chunks, and leaves the receiver with the body up to `next_offset`. |
| TunnelRuns.ReplayRecovers | python/yr_sandbox/tunnel_client.py:1481-1497 | The frames that the replay loop itself sends, given credits, have that effect, and the stream is ready for first sends afterwards. |
| TunnelRecovery.ReconnectRecovers | python/yr_sandbox/tunnel_client.py:1447-1497 | Recovery from every reachable state of an unfinished stream whose receive loop waits for a frame: the connection is lost, a window frame with any acknowledgement ever sent and a credit for each chunk left arrives on the next one; what is then sent brings the receiver to `next_offset`, without a gap or an overlap if and only if no slice still held from before is ahead of the receiver. |
| TunnelRecovery.HeldSliceGoesFirst | python/yr_sandbox/tunnel_client.py:741-749 | A run after which, with every window frame, the held slice goes out first and makes a gap. |
| TunnelRecovery.HeldAheadMakesGap | python/yr_sandbox/tunnel_client.py:1280-1281 | A slice ahead of the receiver that goes out first makes a gap, whatever follows. |
| TunnelRecovery.ReadyAgainIffCovered | python/yr_sandbox/tunnel_client.py:1475-1497 | After a reconnect the response can become ready again if and only if the first window frame leaves a credit for each unacknowledged chunk. |
| TunnelRecovery.LoopGoesOnIff | python/yr_sandbox/tunnel_client.py:1211-1583 | From every reachable state with a receive loop: it can get back to reading frames if and only if the end marker it puts has a taker, the credits cover the replay it is in, and the connection holds or is not needed. |
| TunnelRecovery.BreakIsSurvivedIff | python/yr_sandbox/tunnel_client.py:563-595 | In every reachable state: when the connection breaks there can be a next one if and only if the loop waits for a frame, or puts an end marker that a generator at the queue makes room for, or is in a replay that holds the lock and has nothing left to send; not while it sends an answer or waits for the lock. |
| TunnelRecovery.BreakDuringPong | python/yr_sandbox/tunnel_client.py:1570-1577 | No replay, a ping, and a break while the pong is being sent: the client never connects again. |
| TunnelRecovery.LockWedges | python/yr_sandbox/tunnel_client.py:1482 | A replay with nothing to send waits for the lock of a first send, the connection breaks, and the client never connects again. |
| TunnelRecovery.TakerIsRight | python/yr_sandbox/tunnel_client.py:823-841 | Who makes room for a waiting end marker, told from where the body generator is, is right: without sending only a generator at the queue, with sending any that is not given up. |
| RequestStreams.RoomWithoutSendIff | python/yr_sandbox/tunnel_client.py:1445-1446 | While an end marker waits for room, room comes over runs without a send if and only if the generator waits for the queue. |
| RequestStreams.RoomIff | python/yr_sandbox/tunnel_client.py:1320-1322 | And it comes at all if and only if the generator was not given up. |
| TunnelRecovery.WedgedForever | python/yr_sandbox/tunnel_client.py:1481-1497 | A receive loop that cannot go on stays so through every run; a response in replay is never ready and a broken connection is never replaced. |
| TunnelRecovery.FullReceiverWedges | python/yr_sandbox/tunnel_client.py:919-934 | A run, with a window of one, in which the receiver has a full queue and answers the begin by the rules of the request side, and the replay never ends. |
| TunnelRuns.RunKeeps | python/yr_sandbox/tunnel_client.py:693-759 | The joint invariant of sender, receiver, log, acknowledgements and credits holds after every list of steps, disconnects and repeated begins included. |
| TunnelRuns.DeclaredIsComplete | python/yr_sandbox/tunnel_client.py:1429-1446 | With a declared length, a receiver that took the end marker passed on exactly the whole body. |
| TunnelRuns.UndeclaredCanBeCutShort | python/yr_sandbox/tunnel_client.py:756-757 | Without one there is a run in which the end frame overtakes a lost chunk and the body is taken for complete too early. |
| TunnelRuns.EndIsTrustedIffDeclared | python/yr_sandbox/tunnel_client.py:750-757 | All runs deliver complete bodies if and only if the length is declared. |
| TunnelDelivery.DeliverableIff | python/yr_sandbox/tunnel_client.py:727-757 | For every configuration with a positive chunk size, every body and every declared length: some run reads the body from the upstream piece by piece, ends it, and drains the receiver with exactly that body, if and only if the body is within both limits and no length but its own was declared. |
| RequestStreams.ExactlyOnceInOrder | python/yr_sandbox/tunnel_client.py:1260-1323 | For every list of frames whose payloads agree with the body at their offsets, and every pace of consumption, bytes consumed followed by bytes queued are the body up to `received`, and `consumed` is the number delivered. |
| RequestStreams.DataKeepsInOrder | python/yr_sandbox/tunnel_client.py:1265-1319 | One chunk keeps delivery in order, moves `received` exactly to its end when accepted and not at all otherwise, and a duplicate is answered with `received`. |
| RequestStreams.ChunkIsJudgedByItsPlace | python/yr_sandbox/tunnel_client.py:1260-1319 | Each of the nine outcomes of a data frame of a live stream happens if and only if the frame's place, the end, the body limit and the queue say so; the stream ends exactly by outgrowing body or window. |
| RequestStreams.EndIsJudgedByTheLength | python/yr_sandbox/tunnel_client.py:1426-1446 | An end frame of a live stream is ignored, refused or accepted by whether the stream has ended and whether all of a declared length was received. |
| RequestStreams.CreditsAcknowledgeDelivery | python/yr_sandbox/tunnel_client.py:832-839 | What is acknowledged with credits is what the HTTP client has got, not what was received. |
| RequestStreams.GivingUpOwes | python/yr_sandbox/tunnel_client.py:823-841 | The answer to a begin after the generator was stopped holds one credit back if and only if the chunk was still with the HTTP client. |
| RequestStreams.ApplyKeepsInv | python/yr_sandbox/tunnel_client.py:823-841 | Every event, whatever the peer sends, keeps the counters true, the queue within the window, one end marker in last place, and exactly one credit owed while a chunk is with the HTTP client. |
| RequestStreams.EndIsFinal | python/yr_sandbox/tunnel_client.py:1282-1283 | After the end no event adds a byte. |
| RequestStreams.EndFrameDeliversDeclaredLength | python/yr_sandbox/tunnel_client.py:1427-1446 | An end frame is accepted if and only if the declared length was received; a drained stream then had exactly that length, whatever came later. |
| RequestStreams.EndFlagSkipsDeclaredLength | python/yr_sandbox/tunnel_client.py:1319-1322 | Ended by the flag of a data frame, the delivered body has the declared length if and only if that chunk ends there. |
| RequestStreams.EndFlagCanCutShort | python/yr_sandbox/tunnel_client.py:1320-1322 | A concrete stream that declares two bytes and is drained after one. |
| RequestStreams.RequestStream.constructor | python/yr_sandbox/tunnel_client.py:960-967 | A new entry is the fresh receiver and satisfies the invariant. |
| RequestStreams.RequestStream.HandleData | python/yr_sandbox/tunnel_client.py:1250-1323 | The data frame handler: new state and outcome of each branch are those of `OnData`; the invariant is kept. |
| RequestStreams.RequestStream.HandleEnd | python/yr_sandbox/tunnel_client.py:1418-1446 | The end frame handler agrees with `OnEnd` in every branch and keeps the invariant. |
| RequestStreams.RequestStream.TakeChunk | python/yr_sandbox/tunnel_client.py:825-830 | The body generator up to its yield: takes the head of the queue, counts it as consumed and owes one credit, or stops at the end marker. |
| RequestStreams.RequestStream.Resume | python/yr_sandbox/tunnel_client.py:832-839 | The credit that is sent is one, with `consumed` as acknowledgement. |
| RequestStreams.RequestStream.CreditSent | python/yr_sandbox/tunnel_client.py:840-841 | Afterwards nothing is owed and the generator waits for the queue. |
| RequestStreams.RequestStream.GiveUp | python/yr_sandbox/tunnel_client.py:831-841 | A generator stopped while sending writes the credit off; one stopped at its yield leaves it counted. |
| RequestStreams.RequestStream.HandleBeginAgain | python/yr_sandbox/tunnel_client.py:919-934 | A repeated begin is answered with the room that queue and owed credit leave, never negative, and with `consumed`; nothing changes. |
| ResponseStreams.ApplyKeepsInv | python/yr_sandbox/tunnel_client.py:727-757 | Every step of the sending task, of the window handler, of the replay and of the environment keeps the chunk list a gap-free run of exact nonempty slices and the rest of the piece at hand exact. |
| ResponseStreams.AckDropsPrefix | python/yr_sandbox/tunnel_client.py:1466-1471 | The filter over unacknowledged chunks removes a prefix: exactly the chunks that lie wholly below the acknowledgement. |
| ResponseStreams.WindowGrantsTheMost | python/yr_sandbox/tunnel_client.py:1475-1480 | A window frame grants the most credits that its number, the negotiated window and the room in the credit queue allow. |
| ResponseStreams.NothingNewBeforeReplay | python/yr_sandbox/tunnel_client.py:734-740 | A response that is not ready stays so through every run without the end of a replay, and until then at most one more slice is cut, by a task that had passed the wait before. |
| ResponseStreams.WholePieceIsSent | python/yr_sandbox/tunnel_client.py:734-749 | With a credit for each slice, a piece of the upstream body goes out whole, in order, in full slices but for the last, one credit a frame. |
| ResponseStreams.ReplaySendsAll | python/yr_sandbox/tunnel_client.py:1481-1497 | With enough credits the replay sends exactly the unacknowledged list, in order, for one credit each, and then sets the stream ready. |
| ResponseStreams.CoveredStays | python/yr_sandbox/tunnel_client.py:1481-1497 | A replay whose credits cover it, and the slice that may still be cut, stays covered until it is over, whatever happens but a break of the connection. |
| ResponseStreams.FailsIff | python/yr_sandbox/tunnel_client.py:730-755 | A response fails if and only if its body outgrows the limit, ends with another length than declared, or the peer reports an error before the end. |
| ResponseStreams.FailedIsFinal | python/yr_sandbox/tunnel_client.py:730-757 | Over every run a failed response cuts nothing more and never ends. |
| ResponseStreams.HeldUntilSettled | python/yr_sandbox/tunnel_client.py:1472-1474 | Over every run a response is held until the peer says that it has everything or reports an error, and no longer. |
| ResponseStreams.SettledIsLeftAlone | python/yr_sandbox/tunnel_client.py:1463-1474 | Over every run from then on it gets no credits, is not replayed, and is not held up by a lost connection. |
| ResponseStreams.RefusedWindowIff | python/yr_sandbox/tunnel_client.py:1451-1462 | A window frame is refused if and only if it has a negative number, or neither credits nor an acknowledgement. |
| ResponseStreams.ResponseStream.constructor | python/yr_sandbox/tunnel_client.py:705-726 | The entry starts without credits, ready, at offset zero. |
| ResponseStreams.ResponseStream.ReadPiece | python/yr_sandbox/tunnel_client.py:730-733 | A piece is taken or, past the body limit, ends the copying task. |
| ResponseStreams.ResponseStream.AppendWithCredit | python/yr_sandbox/tunnel_client.py:736-740 | A credit is spent, the next slice recorded at `next_offset` before it is sent. |
| ResponseStreams.ResponseStream.FrameSent | python/yr_sandbox/tunnel_client.py:741-749 | After the send the copying task goes on with the rest of the piece, or reads, and a replay that waits for the lock gets it. |
| ResponseStreams.ResponseStream.BodyOver | python/yr_sandbox/tunnel_client.py:750-757 | The body ends, or fails when its size is not the declared one. |
| ResponseStreams.ResponseStream.Acknowledge | python/yr_sandbox/tunnel_client.py:1466-1471 | The list comprehension computes `Unacked`. |
| ResponseStreams.ResponseStream.PutCreditsOneByOne | python/yr_sandbox/tunnel_client.py:1475-1480 | The loop that stops at a full queue grants what fits the window. |
| ResponseStreams.ResponseStream.TakeWindow | python/yr_sandbox/tunnel_client.py:1463-1484 | A valid frame trims, forgets a completed response, grants credits, and begins the replay of a stream that is not ready. |
| ResponseStreams.ResponseStream.HandleWindow | python/yr_sandbox/tunnel_client.py:1447-1484 | It is refused, without effect, exactly when it carries neither credits nor a valid acknowledgement, or a negative number. |
| ResponseStreams.ResponseStream.ReplayWithCredit | python/yr_sandbox/tunnel_client.py:1483-1484 | The replay takes one credit for the next unacknowledged chunk. |
| ResponseStreams.ResponseStream.ReplayFrameSent | python/yr_sandbox/tunnel_client.py:1485-1492 | It then moves to the next one. |
| ResponseStreams.ResponseStream.ReplayFinished | python/yr_sandbox/tunnel_client.py:1493-1497 | The end frame is sent again exactly when the body had ended; first sends may go on. |
| ResponseStreams.ResponseStream.SendFailed | python/yr_sandbox/tunnel_client.py:593-594 | A failed send takes the connection for broken and changes nothing else. |
| ResponseStreams.ResponseStream.ConnectionLost | python/yr_sandbox/tunnel_client.py:430-435 | When the receive loop leaves, between frames, every registered response stops being ready. |
| ResponseStreams.ResponseStream.NextConnection | python/yr_sandbox/tunnel_client.py:406-421 | A new connection lets sends go on and changes nothing else. |
| ResponseStreams.ResponseStream.HandleError | python/yr_sandbox/tunnel_client.py:1498-1509 | The peer's error forgets the response and cancels its task. |
| FlowControl.WindowIsNeverExceeded | python/yr_sandbox/tunnel_client.py:823-841 | Over every run in which no delivered credit is sent again on a full queue, until the stream ends, the peer's credits, its frames on the way, the queued chunks and the owed credit fit the window together; the queue never overflows. |
| FlowControl.BalanceIsExact | python/yr_sandbox/tunnel_client.py:1265-1276 | And what they leave of the window is exactly the duplicates since the last begin, each of which cost a credit and brought none, and the credits written off. |
| FlowControl.StallsIffWindowLost | python/yr_sandbox/tunnel_client.py:831-841 | With nothing on its way, queued or owed, the peer has no credit left if and only if these fill the window. |
| FlowControl.OneDuplicateStalls | python/yr_sandbox/tunnel_client.py:1266-1276 | A run, with a window of one, that one duplicate after a reconnect stalls. |
| FlowControl.BeginRestoresTheWindow | python/yr_sandbox/tunnel_client.py:919-934 | The answer to a repeated begin makes good all that was lost before, but for one credit whose frame is out at that moment while the queue has room. |
| FlowControl.RunKeeps | python/yr_sandbox/tunnel_client.py:1297-1318 | The channel and credit invariant holds after every list of steps. |
| FlowControl.GoneStreamAbsorbs | python/yr_sandbox/tunnel_client.py:1250-1259 | In every reachable state in which the stream was cut off, refused or cancelled, a frame that the peer still sends on an old credit is taken off the connection and nothing else changes. |
| StreamTables.MemoryIsTold | python/yr_sandbox/tunnel_client.py:655-668 | Over every run the memory of ended streams is what remembering, in order, each id that left the table makes of it. |
| StreamTables.FrameTakesOutIff | python/yr_sandbox/tunnel_client.py:1285-1318 | A data or end frame for a stream in the table takes it out if and only if the body limit, the window or the declared length refuses it; then the id is remembered at once, and no other stream is touched. |
| StreamTables.EntersAndLeaves | python/yr_sandbox/tunnel_client.py:1498-1504 | A stream comes into the table by its begin only, and leaves it by the end of its task, the peer's error or a frame that ends it; its id is remembered at that moment. |
| StreamTables.StreamsRunAlone | python/yr_sandbox/tunnel_client.py:1250-1446 | Over every run each stream in the table is what its own frames and its own consumer have made of it since it was entered, whatever happened to the others. |
| StreamTables.UnknownIsRefused | python/yr_sandbox/tunnel_client.py:1250-1259 | Over every run a data or end frame for an id that never left the table and is not in it ends the connection. |
| StreamTables.EndedIsAbsorbedIff | python/yr_sandbox/tunnel_client.py:1418-1426 | Over every run such a frame for an id that left the table is absorbed if and only if its time to live is not over and the streams that ended since have not crowded it out of the memory. |
| StreamTables.ForgettingIsUnobservable | python/yr_sandbox/tunnel_client.py:669-676 | That an expired id is forgotten when it is asked for changes no later answer. |
| FlowControl.ResendOverflowsIffQueueFull | python/yr_sandbox/tunnel_client.py:563-580 | In every configuration and every reachable state of an unfinished stream: when the connection breaks over a delivered credit, sending it again can cut the peer off if and only if the queue is full and the receive loop is not sending the answer to a begin. |
| FlowControl.FullQueueOverflows | python/yr_sandbox/tunnel_client.py:925-930 | On a full queue the begin is answered with nothing, the credit goes out after the answer and comes on top, and the frame it pays for overflows. |
| FlowControl.EveryWindowCanOverflow | python/yr_sandbox/tunnel_client.py:1297-1318 | Every window has a run in which the peer keeps the rules and is cut off. |
| ReplyCaches.EvictIsExact | python/yr_sandbox/tunnel_client.py:647-653 | Eviction ends within both limits, drops only entries no newer than all it keeps, and not one too many. |
| ReplyCaches.SweepIsExact | python/yr_sandbox/tunnel_client.py:629-653 | After a sweep both limits hold, what stays is unexpired and in its old order, what went is expired or no newer than what stays, and nothing unexpired goes when the limits held. |
| ReplyCaches.RememberIsBounded | python/yr_sandbox/tunnel_client.py:655-667 | The memory of ended streams never exceeds its limit, and until another id is remembered an id is recognised for exactly the time to live. |
| ReplyCaches.RememberKeepsIff | python/yr_sandbox/tunnel_client.py:655-667 | Remembering another id forgets this one exactly when it expired, or when as many entries as fit beside the new one outlast it. |
| ReplyCaches.RecognisedIffNeverCrowded | python/yr_sandbox/tunnel_client.py:655-676 | The exact condition over every run of later calls: an id is recognised if and only if the time to live is not over and before no call so many entries outlasted it that they filled the memory beside the new one. |
| ReplyCaches.RecognisedUnlessManyNewer | python/yr_sandbox/tunnel_client.py:655-676 | Over every run of later calls an id is recognised for the whole time to live unless so many others were remembered that they fill the memory, and never longer. |
| ReplyCaches.NewIdIsLast | python/yr_sandbox/tunnel_client.py:664-667 | A new id is outlasted by nothing. |
| ReplyCaches.IdsStayDistinct | python/yr_sandbox/tunnel_client.py:629-667 | Storing, sweeping and remembering leave one entry for each id. |
| ReplyCaches.Oldest | python/yr_sandbox/tunnel_client.py:651 | The first entry with the least timestamp. |
| ReplyCaches.KeepUnexpired | python/yr_sandbox/tunnel_client.py:637-643 | Removing the expired ids leaves the other entries in order. |
| ReplyCaches.ReplyCache.CleanupCompleted | python/yr_sandbox/tunnel_client.py:629-653 | The loop with its byte count kept by subtraction terminates and computes `Sweep`. |
| ReplyCaches.ReplyCache.StoreReply | python/yr_sandbox/tunnel_client.py:901 | A reply replaces the one under its id or is added last. |
| ReplyCaches.ReplyCache.RememberTerminated | python/yr_sandbox/tunnel_client.py:655-667 | The loop computes `Remember`. |
| ReplyCaches.ReplyCache.CheckTerminated | python/yr_sandbox/tunnel_client.py:669-676 | True exactly for an unexpired id; an expired one is forgotten, nothing else changes. |
| FetchOnce.NeverTwoLive | python/yr_sandbox/tunnel_client.py:891-907 | Over every run two fetches for one nonempty id are never live together. |
| FetchOnce.AtMostOnce | python/yr_sandbox/tunnel_client.py:878-907 | Between two fetches for one id the peer gave the response up (`complete` or `error`), or the cached reply expired or was evicted. |
| FetchOnce.FirstRequestIsFetched | python/yr_sandbox/tunnel_client.py:1392-1411 | The first request for an id is fetched unless the limit refuses it. |
| FetchOnce.StaysCovered | python/yr_sandbox/tunnel_client.py:1472-1474 | Any event other than those leaves a known id known, so that a repeated request is answered without a fetch. |
| FetchOnce.AnswerIsTold | python/yr_sandbox/tunnel_client.py:878-907 | After every run, for every id, time and limit: which of the five answers a request gets, each as an if and only if over the history: refused, the begin frame again, the cached reply, nothing, a new fetch. |
| FetchOnce.RespondingIsTold | python/yr_sandbox/tunnel_client.py:1447-1474 | A streamed response is held if and only if it was registered and the peer has not settled it since. |
| FetchOnce.CacheIsTold | python/yr_sandbox/tunnel_client.py:895-904 | A reply is cached if and only if a fetch ended with one and no sweep since has taken it away. |
| FetchOnce.ReplyIsStored | python/yr_sandbox/tunnel_client.py:898-902 | With its own size and the time of the callback. |
| FetchOnce.NothingMeansLive | python/yr_sandbox/tunnel_client.py:888-889 | Whoever is answered with nothing has a fetch that is still live. |
| FetchOnce.PhaseIsTold | python/yr_sandbox/tunnel_client.py:1498-1509 | Over every run the phase of a fetch is what has happened to it: an error frame before its end cancels it and nothing else does, and a cancelled fetch never ends with a reply. |
| FetchOnce.ReplyIsTheEnding | python/yr_sandbox/tunnel_client.py:895-900 | The reply that a callback finds is the one with which its fetch ended. |
| FetchOnce.EveryFetchCanFinish | python/yr_sandbox/tunnel_client.py:878-907 | From every reachable state each live fetch can come to its callback. |
| FetchOnce.NoIdIsAlwaysFetched | python/yr_sandbox/tunnel_client.py:878-907 | A request without an id is never taken for a repeated one and leaves no trace but its fetch. |
| FetchOnce.FetchTable.HandleHttpReq | python/yr_sandbox/tunnel_client.py:1392-1411 | The frame is refused at the limit, answered from the streamed response, the cache or the fetch in flight, or starts a fetch. |
| FetchOnce.FetchTable.DoneCallback | python/yr_sandbox/tunnel_client.py:895-904 | A finished fetch leaves the table and its reply enters the swept cache; a cancelled one caches nothing. |
| FetchOnce.FetchTable.HandleErrorFrame | python/yr_sandbox/tunnel_client.py:1498-1509 | The response is forgotten and a fetch that still runs is cancelled, unless the id is a streamed request. |
| Negotiation.BothEndsAgree | python/yr_sandbox/tunnel_client.py:1330-1381 | Two endpoints that apply the rule to each other's hello reach identical usable limits, none above either offer. |
| Negotiation.WindowsFitOutboundQueue | python/yr_sandbox/tunnel_client.py:1365-1375 | Windows of all streams and the control reserve fit the outbound queue up to 480 streams, and no larger window that both ends offer would; beyond 480 the window is one. |
| Negotiation.FirstAcceptableHelloSettles | python/yr_sandbox/tunnel_client.py:1331-1333 | The first acceptable hello of a connection settles the limits, whatever comes before or after. |
| Negotiation.UntilThenItsOwn | python/yr_sandbox/tunnel_client.py:1331-1333 | Until an acceptable hello arrives an endpoint speaks version 1 and keeps to its own limits. |
| Negotiation.BothMustSpeakTwo | python/yr_sandbox/tunnel_client.py:1330-1381 | Two endpoints use version 2 if and only if both offer it; otherwise nothing about the connection changes. |
| Negotiation.WhatThePeerLeavesOut | python/yr_sandbox/tunnel_client.py:1330-1381 | A peer that leaves out the body or message limit is taken to offer one's own; one that cannot resume, or sends no integer, changes nothing. |
| Negotiation.Connection.HandleHello | python/yr_sandbox/tunnel_client.py:1330-1381 | The handler computes `OnHello`. |
| WebSocketFragments.RoundTrip | python/yr_sandbox/tunnel_client.py:1066-1138 | Any list of messages within the limit, with any chunk size, is delivered as the same list. |
| WebSocketFragments.MessageFitsChannel | python/yr_sandbox/tunnel_client.py:1537-1545 | A message takes at most `channel_limit - 2` frames, the longest one exactly that many, none above the chunk size, only the last one marked. |
| WebSocketFragments.OversizedIsRefused | python/yr_sandbox/tunnel_client.py:1127-1134 | Frames of a message over the limit are refused, whatever follows. |
| WebSocketFragments.SendMessage | python/yr_sandbox/tunnel_client.py:1066-1105 | The sending loop refuses exactly the messages over the limit and sends the fragments of the others. |
| WebSocketFragments.CutMessage | python/yr_sandbox/tunnel_client.py:1074-1087 | The slicing loop. |
| WebSocketFragments.ReceiveMessages | python/yr_sandbox/tunnel_client.py:1118-1138 | The receiving loop computes `Assemble`. |
| Envelopes.DecodeEncode | python/yr_sandbox/tunnel_protocol.py:49-131 | Decoding what was encoded under the same limit gives the envelope back, its id in canonical form. |
| Envelopes.EncodeDecode | python/yr_sandbox/tunnel_protocol.py:79-131 | Every accepted byte string is the encoding of what it decodes to, and its id is canonical. |
| Envelopes.Bijection | python/yr_sandbox/tunnel_protocol.py:49-131 | For every envelope, byte string and limit: the envelope can be encoded exactly when its id can be read, its payload is within the limit and its numbers fit; the byte string is its encoding exactly when it decodes to it with the id in canonical form. |
| Envelopes.DecodedIffLaidOut | python/yr_sandbox/tunnel_protocol.py:79-131 | A byte string decodes to an envelope if and only if it is laid out as that envelope's frame, byte by byte, and the payload is within the limit. |
| Envelopes.EncodeRefusesIff | python/yr_sandbox/tunnel_protocol.py:49-65 | An envelope is refused if and only if something is wrong with it, and for the first of its faults in a fixed order. |
| Envelopes.DecodeRefusesIff | python/yr_sandbox/tunnel_protocol.py:85-124 | So is a byte string. |
| Uuids.ParseFormat | python/yr_sandbox/tunnel_protocol.py:126 | A written id is read back as the same 16 bytes. |
| Uuids.CanonicalComesBack | python/yr_sandbox/tunnel_protocol.py:56 | A readable id comes back unchanged if and only if it is canonical. |
| Uuids.CanonicalIsParsed | python/yr_sandbox/tunnel_protocol.py:55-58 | Every canonical id is read, as the bytes its digits stand for. |
| Uuids.DigitsOfEitherCase | python/yr_sandbox/tunnel_protocol.py:56 | Digits of either case are read by their place among the sixteen, written in lower case, and nothing else is a digit. |
| Uuids.DigitsIff | python/yr_sandbox/tunnel_protocol.py:56 | A text is read as a base 16 number, and as these digits, if and only if it spells them: space, sign, `0x` prefix, groups of digits between single underscores, space. |
| Uuids.NumeralIff | python/yr_sandbox/tunnel_protocol.py:56 | Groups of digits joined by single underscores, and nothing else, make a numeral. |
| Uuids.DecoratedIsRead | python/yr_sandbox/tunnel_protocol.py:56 | A canonical id is read the same as a urn, in braces, and without hyphens. |
| Scheduling.PlacementIsPreserved | python/yr_sandbox/scheduling.py:117-148 | For all groups, runtime, node id and labels, a node matches the built groups as the scheduler reads them if and only if it matches the caller's groups, by the meaning of their own operators, affinities and priorities, and has the runtime and node labels. |
| Scheduling.EncodedMeansCaller | python/yr_sandbox/scheduling.py:41-46 | The encoded groups, read by their codes, match the nodes that the caller's groups mean. |
| Scheduling.BuiltReadsBack | python/yr_sandbox/scheduling.py:9-15 | Read with the wire's tables of kinds, affinities and operators, each built group is the caller's, in its place, with the constraints added exactly where a node must match; one group more exactly when there is none of these. |
| Scheduling.RefusedIff | python/yr_sandbox/scheduling.py:102-138 | A list is refused if and only if two groups of one kind, both for or both against, both asked for outright or both not, differ in priority. |
| Scheduling.BuildScheduleAffinities | python/yr_sandbox/scheduling.py:117-148 | The loop refuses a list exactly when two groups with one effective selector disagree on priority, and otherwise returns `Build`. |
| Scheduling.DecidingGroupsAgree | python/yr_sandbox/scheduling.py:131-134 | In an accepted list all deciding groups agree on priority. |
| Scheduling.OneMoreGroupWouldBypass | python/yr_sandbox/scheduling.py:136-139 | Under priority a separate group with the constraints would accept a node without the runtime; the built groups do not. |
| Scheduling.RequiredGroupsMean | python/tests/unit/test_scheduling.py:18-35 | Both as alternatives and as a conjunction, required groups with constraints mean the groups without them and the constraints. |
| HttpPool.ReferencesAreOpenLeases | python/yr_sandbox/_http_pool.py:95-127 | After any run of acquire, request, close and fork, each count is the number of open leases of the current process on the target; leases of the process, open or closed, have one client exactly when they are on one target. |
| HttpPool.RequestsUseOwnClients | python/yr_sandbox/_http_pool.py:215-224 | A request is only ever given the client that its own process created for the target; which of the two errors it gets otherwise, each as an if and only if. |
| HttpPool.CloseCountsOnce | python/yr_sandbox/_http_pool.py:207-213 | Closing twice is closing once, closing an inherited unused lease changes no count, closing an own lease takes one. |
| HttpPool.RunKeeps | python/yr_sandbox/_http_pool.py:150-165 | The invariant behind these holds after every run. |
| HttpPool.SharedRegistry.constructor | python/yr_sandbox/_http_pool.py:94-97 | An empty registry of its process. |
| HttpPool.SharedRegistry.ResetAfterFork | python/yr_sandbox/_http_pool.py:150-159 | In another process the entries are forgotten, in the same one nothing changes. |
| HttpPool.SharedRegistry.Acquire | python/yr_sandbox/_http_pool.py:110-118 | One more reference on an existing client, or a new one, or nothing when none can be created. |
| HttpPool.SharedRegistry.ReleaseTarget | python/yr_sandbox/_http_pool.py:120-127 | One reference less, only for a lease of this process and never below zero. |
| HttpPool.SharedLease.constructor | python/yr_sandbox/_http_pool.py:171-185 | An open lease on the acquired client. |
| HttpPool.SharedLease.ClientForRequest | python/yr_sandbox/_http_pool.py:215-224 | The lease's client in its own process, a newly acquired one in another. |
| HttpPool.SharedLease.CloseOnce | python/yr_sandbox/_http_pool.py:207-213 | The first close releases under the lease's process, later ones do nothing. |
| DirectInvoke.InvokeIsBounded | python/yr_sandbox/_transport.py:633-661 | At most three direct requests and one through the frontend; the latter, after a direct one, exactly when the last direct one was a missing route or a failed connection and time remains. |
| DirectInvoke.FallBackIffLastNotRun | python/yr_sandbox/_transport.py:690-802 | The direct route falls back exactly when its last attempt is known not to have run. |
| DirectInvoke.EarlierAttemptMayHaveRun | python/yr_sandbox/_transport.py:792-795 | A run in which an attempt of unknown outcome is followed by a fall-back. |
| DirectInvoke.ExecutedTwiceIff | python/yr_sandbox/_transport.py:633-661 | Direct attempts under one id counting once: an invoke can carry its action out twice if and only if, on what network and clock do, it falls back with time left after an earlier attempt that was anything but a failed connection; never three times. |
| DirectInvoke.ExecutedOnceWithoutDirect | python/yr_sandbox/_transport.py:646-661 | With the direct route off an action is carried out once, or not at all for want of time. |
| DirectInvoke.FallsBackAtTheLast | python/yr_sandbox/_transport.py:690-795 | Which attempts are made, and at which one the direct route falls back, as conditions on outcomes and times alone. |
| DirectInvoke.AttemptsAreExact | python/yr_sandbox/_transport.py:690-790 | Each attempt but the last met a failure that may pass, with time left; attempts stop short of three only without time or at an outcome that decides. |
| DirectInvoke.EndingIsTheLastOutcome | python/yr_sandbox/_transport.py:715-802 | The direct route ends (result, terminal error, status error, fall-back, unknown outcome) as its last outcome alone has it. |
| DirectInvoke.InvokeEndsAsTold | python/yr_sandbox/_transport.py:633-661 | An invoke ends as its last direct request has it, with the frontend's request exactly when it falls back, and with an unknown outcome when there is nothing to go by. |
| DirectInvoke.MissesAreTheCurrentRun | python/yr_sandbox/_transport.py:740-761 | Over any operations the counter is the current run of missing routes, at most three while the direct route is on. |
| DirectInvoke.OffIff | python/yr_sandbox/_transport.py:738-761 | Over any operations: the direct route is off if and only if it was switched off, or an invoke made while it was on ended with failed connections, or at some point the current run of missing routes exceeded the budget. |
| DirectInvoke.InvokeSwitch | python/yr_sandbox/_transport.py:792-795 | The same for one invoke, told from its script and the history. |
| DirectInvoke.SwitchShowsTheChoice | python/yr_sandbox/_transport.py:1117-1123 | The switch shows what the caller chose last, whether or not the direct route is still used. |
| DirectInvoke.NeverDirectAgain | python/yr_sandbox/_transport.py:634 | Once off, the direct route is never used again. |
| DirectInvoke.SandboxClient.constructor | python/yr_sandbox/_transport.py:169-173 | The direct route starts on, with no misses. |
| DirectInvoke.SandboxClient.SetDirectEnabled | python/yr_sandbox/_transport.py:1117-1123 | Switching off is for good. |
| DirectInvoke.SandboxClient.Count | python/yr_sandbox/_transport.py:738-761 | The bookkeeping of one response or failure. |
| DirectInvoke.SandboxClient.InvokeDirect | python/yr_sandbox/_transport.py:690-802 | The retry loop agrees with `From`; all its requests carry the one id. |
| DirectInvoke.SandboxClient.InvokeAction | python/yr_sandbox/_transport.py:626-661 | An invoke agrees with `Invoke` and sends its direct requests, then its frontend request, under one id. |
| Downloads.DownloadIsExact | python/yr_sandbox/_transport.py:1050-1079 | Through every broken stream and restart the part file stays a prefix of the remote file, the local file changes only on a normal return and is then the remote file. |
| Downloads.RequestsAreBounded | python/yr_sandbox/_transport.py:1076-1079 | Whatever the server does, at most one request more than the retries is made. |
| Downloads.EndingIsTheLastReply | python/yr_sandbox/_transport.py:1056-1079 | An error status ends the download at once, as it came; failures end it with one more of them than retries. |
| Downloads.CompletePartIsRefused | python/yr_sandbox/_transport.py:1052-1071 | A part file that holds a whole one-byte file is refused with 416 for any number of retries. |
| Downloads.SucceedsIffNeverWhole | python/yr_sandbox/_transport.py:1050-1079 | For every part file and every list of failed connections and broken streams: the download succeeds if and only if the faults are no more than the retries, the part file is not whole at the start, and no stream breaks after its last byte; a server that takes no ranges is spared the latter two. |
| Downloads.BreakAfterLastByteIsRefused | python/yr_sandbox/_transport.py:1052-1071 | A stream that breaks after its last byte ends the download with 416, retries left. |
| Downloads.FaultyIsHonest | python/yr_sandbox/_transport.py:1063-1074 | These servers answer as `DownloadIsExact` asks. |
| Downloads.Downloader.WriteStream | python/yr_sandbox/_transport.py:1081-1088 | Appends to the file or starts it again. |
| Downloads.Downloader.Download | python/yr_sandbox/_transport.py:1050-1079 | The loop agrees with `From` and so has the properties above for every remote file. |
| RpcFiles.WriteRpcChunks | python/yr_sandbox/filesystem.py:88-114 | A successful write leaves the concatenation of the source chunks, the empty one included; a failed one the old file or a prefix of the new; no call carries more than a mebibyte; the first fault makes it fail, and nothing else does. |
| RpcFiles.WriteSourceChunk | python/yr_sandbox/filesystem.py:94-108 | The pieces of one source chunk extend what was written by exactly that chunk. |
| RpcFiles.ReadRpcChunks | python/yr_sandbox/filesystem.py:116-142 | The loop ends and yields the remote bytes in nonempty pieces of at most a mebibyte; a failed one yields a prefix; the first fault makes it fail, and nothing else does. |
| RpcFiles.WriteThenRead | python/yr_sandbox/filesystem.py:88-142 | What was written is what is read. |
| RpcFiles.RemoteFile.WriteChunk | python/tests/unit/test_filesystem.py:40-49 | One write call of the remote side, done or not when it reports a fault. |
| PollLoops.LoopIsOrderly | python/yr_sandbox/commands.py:41-100 | Over every script each wait and sleep fits the time left, no block of failed polls exceeds three, errors are raised only by three in a row, and the process is killed exactly once when the deadline ends the loop and not otherwise. |
| PollLoops.LoopEnds | python/yr_sandbox/commands.py:43-46 | The loop ends when every poll that finds the process running takes time. |
| PollLoops.RunIsTold | python/yr_sandbox/commands.py:41-100 | Over every script, by a clock: each poll waits for the jittered time or the time left, each sleep follows a failed poll and fits the time left, the process is killed only when the time is up, and the last action decides the ending. |
| PollLoops.ThirdFailureRaises | python/yr_sandbox/commands.py:64-72 | Three failed polls in a row with time left raise, two do not. |
| PollLoops.AfterFailure | python/yr_sandbox/commands.py:64-78 | The handler of a failed poll: the deadline comes before the error count. |
| PollLoops.PollUntilDone | python/yr_sandbox/commands.py:41-100 | The loop does what `From` says. |

## Left out

What the model takes as input, or does not cover:

- The error frame of a WebSocket channel, which cancels its task.
- Sockets, TLS, HTTP and WebSocket libraries, threads, locks, logging, environment variables: their results are inputs of the model.
- The remote peer, which is not in the repository. `TunnelRuns` joins the response sender to a receiver with the rules of the request side; `FlowControl` states the peer's rules: one credit for each data frame, the answer to a repeated begin taken as the whole balance, and nothing sent between a begin and its answer.
- Progress of the replay under any schedule: it is proved when a replay can end and when it can never end, not that the event loop runs it.
- TunnelRecovery.BreakIsSurvivedIff: one response on a client. A replay of another response holds up the receive loop in the same way and is not modelled; what the loop does for other streams is an answer to send or an end marker to put.
- A half-open connection: a break is one that a send notices.
- A response registered while the connection is down, which is ready on the next one without a replay.
- Limits that change on reconnect: window and chunk size stay as first negotiated.
- Responses that have no body by their method or status, whose length is not checked.
- StreamTables.StreamsRunAlone: a begin for an id in the table changes no stream and is not an event there.
- Admission of a new `http_req_begin` (length, id and in-flight checks).
- The bound on live fetches by `max_inflight`, which an expired cached id can pass, and a streamed request that reuses an id after an error.
- Stopping the client, which cancels every task and clears the tables.
- FetchOnce.EveryFetchCanFinish: that a fetch can come to its callback, not that the event loop brings it there.
- FetchOnce.AtMostOnce: plain `http_req` frames only; streamed requests are known by their table entry.
- Uuids.CanonicalComesBack: digits and spaces outside ASCII, which `uuid.UUID` also takes.
- Negotiation.Connection.HandleHello: numbers are integers; that Python takes booleans for integers is not modelled.
- DirectInvoke.ExecutedTwiceIff: that the server carries out direct requests under one id once, and does not match the frontend request, which is sent with the same id, against them, is assumed.
- Scheduling.BuildScheduleAffinities: arguments have their types; type errors and the checks of the constructors are not modelled, nor the scoring of preferences.
- HttpPool.ReferencesAreOpenLeases: `close_all` at interpreter exit is not part of a run, and process ids along one line of processes are distinct.
- DirectInvoke.SandboxClient.InvokeAction: the frontend's answer is not looked at, and time is whether any is left.
- Downloads.Downloader.Download: content decoding and disk errors.
- Resumable upload, whose chunks depend on an offset that the server moves.
- RpcFiles.WriteRpcChunks: the hexadecimal form of the data and the file information returned at the end.
- PollLoops.PollUntilDone: the jitter is a given number within its range, time is in whole microseconds, and the outcome of the kill is not looked at.
- Domain and address normalisation, the event stream reader, the terminal transport, shell output and the command line.
