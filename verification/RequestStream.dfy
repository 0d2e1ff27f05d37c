/**
 The receiving side of one streamed request: the state that `_proxy_loop` keeps for a request id
 in `stream_requests`, the frames that change it, and the body generator that drains its queue.

 `Receiver` is that state as a value and the functions on it say what each code segment between two
 suspension points does; class `RequestStream` updates the same fields in place.
 */
module RequestStreams {
  import opened Bytes

  datatype Item = Body(payload: Bytes) | Eof

  /** Where the body generator `request_content` is suspended.
      AtGet: waiting for the queue.  AtYield: the HTTP client is using the chunk just yielded.
      AtSend: the credit for that chunk is on the wire.  Drained: it took the end marker.
      Abandoned: the HTTP client or a cancellation stopped it. */
  datatype Consumer = AtGet | AtYield | AtSend | Drained | Abandoned

  datatype Receiver = Receiver(
    window: nat,
    contentLength: Option<nat>,
    live: bool,
    received: nat,
    consumed: nat,
    pending: nat,
    queue: seq<Item>,
    ended: bool,
    eofBlocked: bool,
    consumer: Consumer,
    upstream: Bytes)

  datatype Violation = UnknownStream | MissingOffset | Overlap | Gap

  /** What a data or end frame leads to. A violation is raised out of the receive loop, so the
      connection is given up; the stream itself is kept for the next connection. */
  datatype Outcome =
    | Absorbed
    | Violates(violation: Violation)
    | Duplicate(ackOffset: nat)
    | IgnoredAfterEnd
    | BodyTooLarge
    | WindowOverflow
    | LengthMismatch
    | Accepted

  /** A credit grant sent to the peer. */
  datatype Grant = Grant(credits: nat, ackOffset: nat)

  function Fresh(window: nat, contentLength: Option<nat>): Receiver {
    Receiver(window, contentLength, true, 0, 0, 0, [], false, false, AtGet, [])
  }

  /** A queue with a size of zero has no bound. */
  predicate Full(r: Receiver) {
    r.window > 0 && |r.queue| >= r.window
  }

  /** Removed from the table of streams, its task cancelled. */
  function Dropped(r: Receiver): Receiver {
    r.(live := false, consumer := Abandoned)
  }

  /** Marking the end: the marker takes a queue slot, so the receive loop may have to wait for one. */
  function WithEnd(r: Receiver): Receiver {
    if Full(r) then r.(ended := true, eofBlocked := true) else r.(ended := true, queue := r.queue + [Eof])
  }

  function OnData(r: Receiver, offset: Option<nat>, payload: Bytes, endOfBody: bool, maxBody: nat,
                  recentlyTerminated: bool): (Receiver, Outcome)
  {
    if !r.live then
      (r, if recentlyTerminated then Absorbed else Violates(UnknownStream))
    else if offset.None? then
      (r, Violates(MissingOffset))
    else if offset.value < r.received then
      (r, if offset.value + |payload| <= r.received then Duplicate(r.received) else Violates(Overlap))
    else if offset.value > r.received then
      (r, Violates(Gap))
    else if r.ended then
      (r, IgnoredAfterEnd)
    else if offset.value + |payload| > maxBody then
      (Dropped(r), BodyTooLarge)
    else if Full(r) then
      (Dropped(r), WindowOverflow)
    else
      var taken := r.(queue := r.queue + [Body(payload)], received := offset.value + |payload|);
      (if endOfBody then WithEnd(taken) else taken, Accepted)
  }

  function OnEnd(r: Receiver, recentlyTerminated: bool): (Receiver, Outcome) {
    if !r.live then
      (r, if recentlyTerminated then Absorbed else Violates(UnknownStream))
    else if r.ended then
      (r, IgnoredAfterEnd)
    else if r.contentLength.Some? && r.contentLength.value != r.received then
      (Dropped(r), LengthMismatch)
    else
      (WithEnd(r), Accepted)
  }

  /** The answer to a repeated `http_req_begin` for this id. */
  function BeginReply(r: Receiver, negotiatedWindow: nat): Grant {
    Grant(Max(0, negotiatedWindow - |r.queue| - r.pending), r.consumed)
  }

  /** The end marker that had to wait goes in once there is room. */
  function PutEof(r: Receiver): Receiver
    requires r.eofBlocked
  {
    r.(eofBlocked := false, queue := r.queue + [Eof])
  }

  function Get(r: Receiver): Receiver
    requires r.queue != []
  {
    var rest := r.(queue := r.queue[1..]);
    match r.queue[0]
    case Eof => rest.(consumer := Drained)
    case Body(chunk) =>
      rest.(consumed := r.consumed + |chunk|, pending := r.pending + 1, consumer := AtYield,
            upstream := r.upstream + chunk)
  }

  /** The credit that the generator sends when the HTTP client asks for the next chunk. */
  function CreditFor(r: Receiver): Grant {
    Grant(1, r.consumed)
  }

  function WindowSent(r: Receiver): Receiver
    requires r.pending > 0
  {
    r.(pending := r.pending - 1, consumer := AtGet)
  }

  /** The HTTP client gives the generator up, or it is cancelled. A credit that was being sent is
      written off; one owed for a chunk still with the client stays counted. */
  function Abandon(r: Receiver): Receiver {
    r.(consumer := Abandoned, pending := if r.consumer == AtSend && r.pending > 0 then r.pending - 1 else r.pending)
  }

  datatype Event =
    | Envelope(offset: Option<nat>, payload: Bytes, endOfBody: bool)
    | EndFrame
    | EofPut
    | ConsumerGet
    | ConsumerResume
    | ConsumerWindowSent
    | ConsumerAbandon
    | Cancel

  predicate Enabled(r: Receiver, event: Event) {
    match event
    case Envelope(_, _, _) => !r.eofBlocked
    case EndFrame => !r.eofBlocked
    case EofPut => r.eofBlocked && !Full(r)
    case ConsumerGet => r.consumer == AtGet && r.queue != []
    case ConsumerResume => r.consumer == AtYield
    case ConsumerWindowSent => r.consumer == AtSend && r.pending > 0
    case ConsumerAbandon => r.consumer != Drained
    case Cancel => true
  }

  /** One event; an event that cannot happen in this state changes nothing. */
  function Apply(r: Receiver, event: Event, maxBody: nat): Receiver {
    if !Enabled(r, event) then r else
      match event
      case Envelope(offset, payload, endOfBody) => OnData(r, offset, payload, endOfBody, maxBody, true).0
      case EndFrame => OnEnd(r, true).0
      case EofPut => PutEof(r)
      case ConsumerGet => Get(r)
      case ConsumerResume => r.(consumer := AtSend)
      case ConsumerWindowSent => WindowSent(r)
      case ConsumerAbandon => Abandon(r)
      case Cancel => Dropped(r)
  }

  function Run(r: Receiver, events: seq<Event>, maxBody: nat): Receiver
    decreases |events|
  {
    if events == [] then r else Run(Apply(r, events[0], maxBody), events[1..], maxBody)
  }

  /** The body bytes waiting in the queue. */
  function Queued(queue: seq<Item>): Bytes {
    if queue == [] then []
    else (match queue[0] case Body(p) => p case Eof => []) + Queued(queue[1..])
  }

  /** What every event keeps, whatever the peer sends. */
  ghost predicate Inv(r: Receiver) {
    && r.consumed == |r.upstream|
    && (!r.live ==> r.consumer == Abandoned)
    && r.received == |r.upstream| + |Queued(r.queue)|
    && (r.window > 0 ==> |r.queue| <= r.window)
    // the end marker is queued at most once, last, and only when the stream has ended
    && (forall i :: 0 <= i < |r.queue| && r.queue[i].Eof? ==> i == |r.queue| - 1 && r.ended && !r.eofBlocked)
    && (r.ended && !r.eofBlocked && r.consumer !in {Drained, Abandoned} ==>
          r.queue != [] && r.queue[|r.queue| - 1].Eof?)
    && (r.eofBlocked ==> r.ended)
    && (r.consumer == Drained ==> r.ended && !r.eofBlocked && r.queue == [])
    // one credit is owed exactly while the chunk it pays for is with the HTTP client
    && r.pending <= 1
    && (r.consumer in {AtYield, AtSend} ==> r.pending == 1)
    && (r.consumer in {AtGet, Drained} ==> r.pending == 0)
  }

  /** In order and exactly once: consumed bytes, then queued bytes, are the body up to `received`. */
  ghost predicate InOrder(r: Receiver, body: Bytes) {
    && r.received <= |body|
    && r.upstream + Queued(r.queue) == body[..r.received]
  }

  /** The payload is what the body holds at its offset. Frames without an offset carry no claim. */
  predicate Agrees(event: Event, body: Bytes) {
    event.Envelope? && event.offset.Some? ==> SliceAt(body, event.offset.value, event.payload)
  }

  lemma {:induction false} QueuedAppend(queue: seq<Item>, item: Item)
    ensures Queued(queue + [item]) == Queued(queue) + (match item case Body(p) => p case Eof => [])
  {
    if queue == [] {
    } else {
      assert (queue + [item])[1..] == queue[1..] + [item];
      QueuedAppend(queue[1..], item);
    }
  }

  lemma WithEndKeepsInv(r: Receiver)
    requires Inv(r) && !r.ended
    ensures Inv(WithEnd(r)) && Queued(WithEnd(r).queue) == Queued(r.queue)
  {
    QueuedAppend(r.queue, Eof);
  }

  lemma DataKeepsInv(r: Receiver, offset: Option<nat>, payload: Bytes, endOfBody: bool, maxBody: nat, known: bool)
    requires Inv(r)
    ensures var (after, outcome) := OnData(r, offset, payload, endOfBody, maxBody, known);
            && Inv(after)
            && after.upstream == r.upstream
            && Queued(after.queue) == Queued(r.queue) + (if outcome == Accepted then payload else [])
  {
    QueuedAppend(r.queue, Body(payload));
    var (after, outcome) := OnData(r, offset, payload, endOfBody, maxBody, known);
    if outcome == Accepted {
      var taken := r.(queue := r.queue + [Body(payload)], received := offset.value + |payload|);
      assert Inv(taken);
      if endOfBody { WithEndKeepsInv(taken); }
    }
  }

  lemma PutEofKeepsInv(r: Receiver)
    requires Inv(r) && r.eofBlocked && !Full(r)
    ensures Inv(PutEof(r)) && Queued(PutEof(r).queue) == Queued(r.queue)
  {
    QueuedAppend(r.queue, Eof);
  }

  lemma GetKeepsInv(r: Receiver)
    requires Inv(r) && r.queue != [] && r.consumer == AtGet
    ensures Inv(Get(r))
    ensures Get(r).upstream + Queued(Get(r).queue) == r.upstream + Queued(r.queue)
  {
    assert Queued(r.queue) == (match r.queue[0] case Body(p) => p case Eof => []) + Queued(r.queue[1..]);
    assert r.queue[0].Eof? ==> r.queue[1..] == [];
  }

  lemma ApplyKeepsInv(r: Receiver, event: Event, maxBody: nat)
    requires Inv(r)
    ensures Inv(Apply(r, event, maxBody))
  {
    if Enabled(r, event) {
      match event {
        case Envelope(offset, payload, endOfBody) => DataKeepsInv(r, offset, payload, endOfBody, maxBody, true);
        case EndFrame => if r.live && !r.ended { WithEndKeepsInv(r); }
        case EofPut => PutEofKeepsInv(r);
        case ConsumerGet => GetKeepsInv(r);
        case _ =>
      }
    }
  }

  /** A chunk of the body keeps delivery in order and moves `received` to its end, or does nothing. */
  lemma DataKeepsInOrder(r: Receiver, offset: nat, payload: Bytes, endOfBody: bool, maxBody: nat, body: Bytes)
    requires Inv(r) && InOrder(r, body) && SliceAt(body, offset, payload)
    ensures var (after, outcome) := OnData(r, Some(offset), payload, endOfBody, maxBody, true);
            && InOrder(after, body)
            && after.received == (if outcome == Accepted then offset + |payload| else r.received)
            && r.received <= after.received
            && (outcome.Duplicate? ==> outcome.ackOffset == r.received)
  {
    DataKeepsInv(r, Some(offset), payload, endOfBody, maxBody, true);
    var (after, outcome) := OnData(r, Some(offset), payload, endOfBody, maxBody, true);
    if outcome == Accepted { TakenInOrder(r, payload, body); }
  }

  lemma TakenInOrder(r: Receiver, payload: Bytes, body: Bytes)
    requires InOrder(r, body) && SliceAt(body, r.received, payload)
    ensures r.upstream + (Queued(r.queue) + payload) == body[..r.received + |payload|]
  {
    calc {
      r.upstream + (Queued(r.queue) + payload);
      r.upstream + Queued(r.queue) + payload;
      body[..r.received] + payload;
      body[..r.received + |payload|];
    }
  }

  /** A chunk is judged by its place: one that names none, would leave a gap, or brings old and new bytes, is refused
      and changes nothing; one without a new byte is only acknowledged, with all that was received; the next one
      is ignored after the end, ends the stream when the body or the queue has no room for it, and is taken
      otherwise. */
  lemma ChunkIsJudgedByItsPlace(r: Receiver, offset: Option<nat>, payload: Bytes, endOfBody: bool, maxBody: nat,
                                known: bool)
    requires r.live
    ensures var (after, outcome) := OnData(r, offset, payload, endOfBody, maxBody, known);
            var end := if offset.Some? then offset.value + |payload| else 0;
            var next := offset == Some(r.received) && !r.ended;
            && (outcome == Violates(MissingOffset) <==> offset.None?)
            && (outcome == Violates(Gap) <==> offset.Some? && r.received < offset.value)
            && (outcome == Violates(Overlap) <==> offset.Some? && offset.value < r.received < end)
            && (outcome == Duplicate(r.received) <==> offset.Some? && offset.value < r.received && end <= r.received)
            && (outcome == IgnoredAfterEnd <==> offset == Some(r.received) && r.ended)
            && (outcome == BodyTooLarge <==> next && end > maxBody)
            && (outcome == WindowOverflow <==> next && end <= maxBody && r.window > 0 && |r.queue| >= r.window)
            && (outcome in {BodyTooLarge, WindowOverflow} <==> !after.live)
            && (outcome == Accepted <==> after.live && after != r)
  {
    if offset == Some(r.received) && !r.ended && !Full(r) {
      assert |r.queue + [Body(payload)]| > |r.queue|;
    }
  }

  /** An end frame ends a live stream unless it has ended or not all of a declared length was received. */
  lemma EndIsJudgedByTheLength(r: Receiver, known: bool)
    requires r.live
    ensures var (after, outcome) := OnEnd(r, known);
            && (outcome == IgnoredAfterEnd <==> r.ended)
            && (outcome == LengthMismatch <==> !r.ended && r.contentLength !in {None, Some(r.received)})
            && (outcome == Accepted <==> !r.ended && r.contentLength in {None, Some(r.received)})
            && (outcome == LengthMismatch <==> !after.live)
            && (outcome == Accepted <==> after.ended && !r.ended)
  {}

  /** What is acknowledged with credits is what the HTTP client has got, not what was received. */
  lemma CreditsAcknowledgeDelivery(r: Receiver, negotiatedWindow: nat)
    requires Inv(r)
    ensures CreditFor(r) == Grant(1, |r.upstream|) && BeginReply(r, negotiatedWindow).ackOffset == |r.upstream|
  {}

  /** A generator that is stopped while its credit is being sent takes the credit with it; stopped while the chunk
      is with the HTTP client, it leaves one owed, which every later answer to a begin holds back. */
  lemma GivingUpOwes(r: Receiver, negotiatedWindow: nat)
    requires Inv(r) && Enabled(r, ConsumerAbandon) && r.consumer != Abandoned
    ensures Apply(r, ConsumerAbandon, 0).consumer == Abandoned
    ensures BeginReply(Apply(r, ConsumerAbandon, 0), negotiatedWindow)
         == Grant(Max(0, negotiatedWindow - |r.queue| - (if r.consumer == AtYield then 1 else 0)), r.consumed)
  {}

  lemma ApplyKeepsInOrder(r: Receiver, event: Event, maxBody: nat, body: Bytes)
    requires Inv(r) && InOrder(r, body) && Agrees(event, body)
    ensures InOrder(Apply(r, event, maxBody), body)
  {
    if Enabled(r, event) {
      match event {
        case Envelope(offset, payload, endOfBody) =>
          if offset.Some? { DataKeepsInOrder(r, offset.value, payload, endOfBody, maxBody, body); }
        case EndFrame => if r.live && !r.ended { WithEndKeepsInv(r); }
        case EofPut => PutEofKeepsInv(r);
        case ConsumerGet => GetKeepsInv(r);
        case _ =>
      }
    }
  }

  /** Exactly once and in order, for every sequence of frames and every pace of consumption: however
      chunks of `body` are duplicated, reordered or replayed, nothing is delivered twice, out of
      place or invented, and the counters say where delivery is. */
  lemma {:induction false} ExactlyOnceInOrder(r: Receiver, events: seq<Event>, maxBody: nat, body: Bytes)
    requires Inv(r) && InOrder(r, body)
    requires forall i :: 0 <= i < |events| ==> Agrees(events[i], body)
    ensures var after := Run(r, events, maxBody);
            && Inv(after)
            && after.received <= |body|
            && after.upstream + Queued(after.queue) == body[..after.received]
            && after.consumed == |after.upstream|
            && after.upstream <= body
    decreases |events|
  {
    if events == [] {
      assert r.upstream == body[..r.received][..|r.upstream|];
    } else {
      ApplyKeepsInv(r, events[0], maxBody);
      ApplyKeepsInOrder(r, events[0], maxBody, body);
      ExactlyOnceInOrder(Apply(r, events[0], maxBody), events[1..], maxBody, body);
    }
  }

  /** Only frames end a stream or add to it, and none adds to an ended one. */
  lemma EndedIsFinal(r: Receiver, event: Event, maxBody: nat)
    ensures var after := Apply(r, event, maxBody);
            && (r.ended ==> after.ended && after.received == r.received)
            && (!event.Envelope? && !event.EndFrame? ==> after.ended == r.ended && after.received == r.received)
            && after.contentLength == r.contentLength
  {}

  // ---- room for an end marker that waits

  lemma {:induction false} NobodyTakes(r: Receiver, events: seq<Event>, maxBody: nat)
    requires r.eofBlocked && Full(r) && r.consumer in {AtYield, AtSend, Abandoned}
    requires r.consumer != Abandoned ==> ConsumerWindowSent !in events
    ensures Full(Run(r, events, maxBody))
    decreases |events|
  {
    if events != [] { NobodyTakes(Apply(r, events[0], maxBody), events[1..], maxBody); }
  }

  /** The generator's way back to the queue. */
  function WayToQueue(r: Receiver): seq<Event> {
    match r.consumer
    case AtYield => [ConsumerResume, ConsumerWindowSent, ConsumerGet]
    case AtSend => [ConsumerWindowSent, ConsumerGet]
    case _ => [ConsumerGet]
  }

  lemma WayMakesRoom(r: Receiver, maxBody: nat)
    requires Inv(r) && r.eofBlocked && Full(r) && r.consumer in {AtGet, AtYield, AtSend}
    ensures !Full(Run(r, WayToQueue(r), maxBody))
  {
    var sending := if r.consumer == AtYield then r.(consumer := AtSend) else r;
    var waiting := if sending.consumer == AtSend then WindowSent(sending) else sending;
    RunOne(waiting, ConsumerGet, [], maxBody);
    RunOne(sending, ConsumerWindowSent, [ConsumerGet], maxBody);
    RunOne(r, ConsumerResume, [ConsumerWindowSent, ConsumerGet], maxBody);
  }

  /** While the end marker waits, room comes without sending anything if and only if the generator waits for the
      queue; a client whose connection broke can send nothing. */
  lemma RoomWithoutSendIff(r: Receiver, maxBody: nat)
    requires Inv(r) && r.eofBlocked && Full(r)
    ensures (exists events :: ConsumerWindowSent !in events && !Full(Run(r, events, maxBody))) <==> r.consumer == AtGet
  {
    if r.consumer == AtGet {
      WayMakesRoom(r, maxBody);
      assert ConsumerWindowSent !in WayToQueue(r);
    } else {
      forall events | ConsumerWindowSent !in events ensures Full(Run(r, events, maxBody)) {
        NobodyTakes(r, events, maxBody);
      }
    }
  }

  /** And it comes at all if and only if the generator was not given up. */
  lemma RoomIff(r: Receiver, maxBody: nat)
    requires Inv(r) && r.eofBlocked && Full(r)
    ensures (exists events :: !Full(Run(r, events, maxBody))) <==> r.consumer != Abandoned
  {
    if r.consumer == Abandoned {
      forall events ensures Full(Run(r, events, maxBody)) {
        NobodyTakes(r, events, maxBody);
      }
    } else {
      WayMakesRoom(r, maxBody);
    }
  }

  /** Once ended, no event adds a byte. */
  lemma {:induction false} EndIsFinal(r: Receiver, events: seq<Event>, maxBody: nat)
    requires Inv(r) && r.ended
    ensures var after := Run(r, events, maxBody);
            Inv(after) && after.ended && after.received == r.received
    decreases |events|
  {
    if events != [] {
      ApplyKeepsInv(r, events[0], maxBody);
      EndedIsFinal(r, events[0], maxBody);
      EndIsFinal(Apply(r, events[0], maxBody), events[1..], maxBody);
    }
  }

  /** A stream with a declared length that an end frame closes reaches the upstream with exactly that
      length, whatever happens afterwards; the end frame is refused otherwise. */
  lemma EndFrameDeliversDeclaredLength(r: Receiver, declared: nat, later: seq<Event>, maxBody: nat)
    requires Inv(r) && r.live && !r.ended && r.contentLength == Some(declared)
    ensures OnEnd(r, true).1 == Accepted <==> r.received == declared
    ensures OnEnd(r, true).1 != Accepted ==> !OnEnd(r, true).0.live
    ensures var after := Run(OnEnd(r, true).0, later, maxBody);
            OnEnd(r, true).1 == Accepted && after.consumer == Drained ==> |after.upstream| == declared
  {
    if r.received == declared {
      assert r.consumer != Drained;
      WithEndKeepsInv(r);
      EndIsFinal(WithEnd(r), later, maxBody);
    }
  }

  /** Ending through the flag of a data frame does not compare with the declared length: the body that
      reaches the upstream has the declared length exactly when the flagged chunk ends there. */
  lemma EndFlagSkipsDeclaredLength(r: Receiver, declared: nat, payload: Bytes, later: seq<Event>, maxBody: nat)
    requires Inv(r) && r.live && !r.ended && r.contentLength == Some(declared)
    requires !Full(r) && r.received + |payload| <= maxBody
    ensures var flagged := OnData(r, Some(r.received), payload, true, maxBody, true);
            && flagged.1 == Accepted
            && var after := Run(flagged.0, later, maxBody);
               after.consumer == Drained ==>
                 (|after.upstream| == declared <==> r.received + |payload| == declared)
  {
    var taken := r.(queue := r.queue + [Body(payload)], received := r.received + |payload|);
    var flagged := OnData(r, Some(r.received), payload, true, maxBody, true).0;
    ApplyKeepsInv(r, Envelope(Some(r.received), payload, true), maxBody);
    assert flagged == WithEnd(taken);
    EndIsFinal(flagged, later, maxBody);
  }

  /** A concrete stream that declares two bytes, ends by the flag after one and is drained short. */
  lemma EndFlagCanCutShort()
    ensures var after := Run(Fresh(2, Some(2)), [Envelope(Some(0), [7], true), ConsumerGet, ConsumerResume,
                                                 ConsumerWindowSent, ConsumerGet], 10);
            after.consumer == Drained && after.upstream == [7]
  {
    var r1 := Receiver(2, Some(2), true, 1, 0, 0, [Body([7]), Eof], true, false, AtGet, []);
    var r2 := Receiver(2, Some(2), true, 1, 1, 1, [Eof], true, false, AtYield, [7]);
    var r3 := r2.(consumer := AtSend);
    var r4 := r2.(pending := 0, consumer := AtGet);
    var r5 := r4.(queue := [], consumer := Drained);
    assert Apply(Fresh(2, Some(2)), Envelope(Some(0), [7], true), 10) == r1 by {
      assert [] + [Body([7])] + [Eof] == r1.queue;
    }
    assert Apply(r1, ConsumerGet, 10) == r2 by { assert r1.queue[1..] == [Eof]; }
    assert Apply(r2, ConsumerResume, 10) == r3;
    assert Apply(r3, ConsumerWindowSent, 10) == r4;
    assert Apply(r4, ConsumerGet, 10) == r5;
    FlagRun(r1, r2, r3, r4, r5);
    RunOne(Fresh(2, Some(2)), Envelope(Some(0), [7], true),
           [ConsumerGet, ConsumerResume, ConsumerWindowSent, ConsumerGet], 10);
  }

  lemma FlagRun(r1: Receiver, r2: Receiver, r3: Receiver, r4: Receiver, r5: Receiver)
    requires Apply(r1, ConsumerGet, 10) == r2 && Apply(r2, ConsumerResume, 10) == r3
    requires Apply(r3, ConsumerWindowSent, 10) == r4 && Apply(r4, ConsumerGet, 10) == r5
    ensures Run(r1, [ConsumerGet, ConsumerResume, ConsumerWindowSent, ConsumerGet], 10) == r5
  {
    RunOne(r4, ConsumerGet, [], 10);
    RunOne(r3, ConsumerWindowSent, [ConsumerGet], 10);
    RunOne(r2, ConsumerResume, [ConsumerWindowSent, ConsumerGet], 10);
    RunOne(r1, ConsumerGet, [ConsumerResume, ConsumerWindowSent, ConsumerGet], 10);
  }

  lemma RunOne(r: Receiver, event: Event, rest: seq<Event>, maxBody: nat)
    ensures Run(r, [event] + rest, maxBody) == Run(Apply(r, event, maxBody), rest, maxBody)
  {
    assert ([event] + rest)[1..] == rest;
  }

  /** The table entry that the handlers and the body generator update in place. */
  class RequestStream {
    const window: nat
    const contentLength: Option<nat>
    var live: bool
    var received: nat
    var consumed: nat
    var pending: nat
    var queue: seq<Item>
    var ended: bool
    var eofBlocked: bool
    var consumer: Consumer
    ghost var upstream: Bytes

    ghost function View(): Receiver
      reads this
    {
      Receiver(window, contentLength, live, received, consumed, pending, queue, ended, eofBlocked, consumer, upstream)
    }

    constructor (window: nat, contentLength: Option<nat>)
      ensures View() == Fresh(window, contentLength) && Inv(View())
    {
      this.window := window;
      this.contentLength := contentLength;
      live, received, consumed, pending, queue := true, 0, 0, 0, [];
      ended, eofBlocked, consumer, upstream := false, false, AtGet, [];
    }

    method PutEnd()
      modifies this
      ensures View() == WithEnd(old(View()))
    {
      ended := true;
      if window > 0 && |queue| >= window {
        eofBlocked := true;
      } else {
        queue := queue + [Eof];
      }
    }

    method Drop()
      modifies this
      ensures View() == Dropped(old(View()))
    {
      live := false;
      consumer := Abandoned;
    }

    method HandleData(offset: Option<nat>, payload: Bytes, endOfBody: bool, maxBody: nat, recentlyTerminated: bool)
      returns (outcome: Outcome)
      requires Inv(View()) && !eofBlocked
      modifies this
      ensures (View(), outcome) == OnData(old(View()), offset, payload, endOfBody, maxBody, recentlyTerminated)
      ensures Inv(View())
    {
      ghost var before := View();
      if live { ApplyKeepsInv(before, Envelope(offset, payload, endOfBody), maxBody); }
      if !live {
        return if recentlyTerminated then Absorbed else Violates(UnknownStream);
      }
      if offset.None? { return Violates(MissingOffset); }
      var chunkEnd := offset.value + |payload|;
      if offset.value < received {
        if chunkEnd <= received { return Duplicate(received); }
        return Violates(Overlap);
      }
      if offset.value > received { return Violates(Gap); }
      if ended { return IgnoredAfterEnd; }
      if chunkEnd > maxBody {
        Drop();
        return BodyTooLarge;
      }
      if window > 0 && |queue| >= window {
        Drop();
        return WindowOverflow;
      }
      queue := queue + [Body(payload)];
      received := chunkEnd;
      if endOfBody { PutEnd(); }
      return Accepted;
    }

    method HandleEnd(recentlyTerminated: bool) returns (outcome: Outcome)
      requires Inv(View()) && !eofBlocked
      modifies this
      ensures (View(), outcome) == OnEnd(old(View()), recentlyTerminated)
      ensures Inv(View())
    {
      if live { ApplyKeepsInv(View(), EndFrame, 0); }
      if !live {
        return if recentlyTerminated then Absorbed else Violates(UnknownStream);
      }
      if ended { return IgnoredAfterEnd; }
      if contentLength.Some? && contentLength.value != received {
        Drop();
        return LengthMismatch;
      }
      PutEnd();
      return Accepted;
    }

    /** The generator up to its `yield`: None when it took the end marker. */
    method TakeChunk() returns (chunk: Option<Bytes>)
      requires Inv(View()) && consumer == AtGet && queue != []
      modifies this
      ensures View() == Get(old(View())) && Inv(View())
      ensures chunk == (match old(queue)[0] case Eof => None case Body(p) => Some(p))
    {
      ApplyKeepsInv(View(), ConsumerGet, 0);
      var item := queue[0];
      queue := queue[1..];
      if item.Eof? {
        consumer := Drained;
        return None;
      }
      consumed := consumed + |item.payload|;
      pending := pending + 1;
      consumer := AtYield;
      upstream := upstream + item.payload;
      return Some(item.payload);
    }

    /** The generator from its `yield` to the credit frame. */
    method Resume() returns (grant: Grant)
      requires Inv(View()) && consumer == AtYield
      modifies this
      ensures View() == old(View()).(consumer := AtSend) && Inv(View())
      ensures grant == CreditFor(old(View()))
    {
      consumer := AtSend;
      return Grant(1, consumed);
    }

    method CreditSent()
      requires Inv(View()) && consumer == AtSend
      modifies this
      ensures View() == WindowSent(old(View())) && Inv(View())
    {
      pending := pending - 1;
      consumer := AtGet;
    }

    method GiveUp()
      requires Inv(View()) && consumer != Drained
      modifies this
      ensures View() == Abandon(old(View())) && Inv(View())
    {
      if consumer == AtSend { pending := pending - 1; }
      consumer := Abandoned;
    }

    method HandleBeginAgain(negotiatedWindow: nat) returns (grant: Grant)
      ensures grant == BeginReply(View(), negotiatedWindow)
    {
      var room := negotiatedWindow - |queue| - pending;
      return Grant(if room > 0 then room else 0, consumed);
    }
  }
}
