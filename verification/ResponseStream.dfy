/**
 The sending side of one streamed response: `send_streaming_response`, the `window` handler that
 takes acknowledgements and credits, and the replay it does after a reconnect.

 `Sender` is the state of one response as a value and the functions on it are the code segments
 between suspension points; class `ResponseStream` updates the same fields in place.
 */
module ResponseStreams {
  import opened Bytes

  datatype Chunk = Chunk(offset: nat, payload: Bytes) {
    function End(): nat { offset + |payload| }
  }

  /** Where the asyncio task that copies the upstream body is suspended.
      Reading: for the next piece of the upstream body.  AwaitReady: for the replay to be over.
      AwaitCredit: for a credit.  Holding: with an appended chunk whose frame is not sent yet.
      Finished: the body is complete.  Failed: an error ended it, or it was cancelled. */
  datatype Main = Reading | AwaitReady | AwaitCredit | Holding(chunk: Chunk) | Finished | Failed

  /** Who is to make room for an end marker that the receive loop puts into the full queue of a request.
      AtQueue: its generator, waiting for the queue.  Owing: its generator, once the credit frame for the last
      chunk is sent.  Gone: nobody. */
  datatype Taker = AtQueue | Owing | Gone

  /** Where the receive loop is suspended.
      Waiting: for a frame.  Answering: sending an answer to one, such as a pong or the reply to a begin.
      Putting: putting an end marker into a full queue.  AwaitLock: about to replay this response, its first
      sender holding `send_lock`.  Replaying: holding that lock, about to send `unacked[next]`, with or without
      the credit for it. */
  datatype Loop = Waiting | Answering | Putting(taker: Taker) | AwaitLock | Replaying(next: nat, inHand: Option<Chunk>)

  /** The control connection.  Up: it takes frames.  Dropped: it broke, and the receive loop, which may still
      have frames to read, has not left it.  Down: the receive loop has left; the next one is not there yet. */
  datatype Link = Up | Dropped | Down

  datatype Limits = Limits(window: nat, chunk: nat, body: nat)

  datatype Sender = Sender(
    limits: Limits,
    link: Link,
    registered: bool,
    credits: nat,
    unacked: seq<Chunk>,
    nextOffset: nat,
    ready: bool,
    ended: bool,
    size: nat,
    raw: Bytes,
    main: Main,
    loop: Loop,
    produced: Bytes)

  function Fresh(limits: Limits): Sender {
    Sender(limits, Up, true, 0, [], 0, true, false, 0, [], Reading, Waiting, [])
  }

  // ---- the asyncio task that copies the upstream body

  predicate CanRead(s: Sender) {
    s.main == Reading
  }

  /** Where it goes next once a piece of the body, or a slice of it, is dealt with. */
  function AfterSlice(raw: Bytes): Main {
    if raw == [] then Reading else AwaitReady
  }

  /** The upstream yields one more piece of the body. */
  function Read(s: Sender, piece: Bytes): Sender
    requires CanRead(s)
  {
    if s.size + |piece| > s.limits.body then s.(size := s.size + |piece|, main := Failed)
    else s.(size := s.size + |piece|, raw := piece, produced := s.produced + piece, main := AfterSlice(piece))
  }

  predicate CanPassReady(s: Sender) {
    s.main == AwaitReady && s.ready
  }

  function PassReady(s: Sender): Sender
    requires CanPassReady(s)
  {
    s.(main := AwaitCredit)
  }

  predicate CanAppend(s: Sender) {
    s.main == AwaitCredit && s.credits > 0
  }

  /** The slice that the next credit pays for. */
  function NextChunk(s: Sender): Chunk {
    Chunk(s.nextOffset, s.raw[..Min(s.limits.chunk, |s.raw|)])
  }

  function TakeCreditAndAppend(s: Sender): Sender
    requires CanAppend(s)
  {
    var chunk := NextChunk(s);
    s.(credits := s.credits - 1,
       raw := s.raw[|chunk.payload|..],
       nextOffset := chunk.End(),
       unacked := s.unacked + [chunk],
       main := Holding(chunk))
  }

  /** Without a connection a send waits for one, and before that for the lock if a replay holds it. */
  predicate CanSend(s: Sender) {
    s.main.Holding? && s.link == Up && !s.loop.Replaying?
  }

  /** The replay that waits for the lock gets it. */
  function Unlocked(loop: Loop): Loop {
    if loop == AwaitLock then Replaying(0, None) else loop
  }

  /** The frame of the held chunk is sent, and the lock released. */
  function SendDone(s: Sender): Sender
    requires CanSend(s)
  {
    s.(main := AfterSlice(s.raw), loop := Unlocked(s.loop))
  }

  /** The upstream body is over. */
  function Finish(s: Sender, contentLength: Option<nat>): Sender
    requires CanRead(s)
  {
    if contentLength.Some? && contentLength.value != s.size then s.(main := Failed)
    else s.(ended := true, main := Finished)
  }

  // ---- the `window` handler

  /** The chunks that an acknowledgement up to `ack` leaves. */
  function Unacked(chunks: seq<Chunk>, ack: nat): seq<Chunk> {
    if chunks == [] then []
    else (if chunks[0].End() > ack then [chunks[0]] else []) + Unacked(chunks[1..], ack)
  }

  /** `count` attempts to put a credit into a queue that holds at most `window` (0: no bound). */
  function PutCredits(credits: nat, count: nat, window: nat): nat {
    if window > 0 && credits + count > window then Max(credits, window) else credits + count
  }

  predicate ValidWindow(credits: int, ack: Option<int>) {
    && credits >= 0
    && (credits == 0 ==> ack.Some?)
    && (ack.Some? ==> ack.value >= 0)
  }

  /** The position that a valid acknowledgement names. */
  function Position(ack: Option<int>): Option<nat> {
    if ack.Some? && ack.value >= 0 then Some(ack.value) else None
  }

  /** A valid window frame for this response, the receive loop being between frames. */
  function Window(s: Sender, credits: nat, ack: Option<nat>, complete: bool, negotiatedWindow: nat): Sender {
    if !s.registered then s else
    var trimmed := if ack.Some? then s.(unacked := Unacked(s.unacked, ack.value)) else s;
    if complete then trimmed.(registered := false) else
    var paid := trimmed.(credits := PutCredits(s.credits, Min(credits, negotiatedWindow), s.limits.window));
    if paid.ready then paid else paid.(loop := if s.main.Holding? then AwaitLock else Replaying(0, None))
  }

  predicate CanReplayTake(s: Sender) {
    s.loop.Replaying? && s.loop.inHand.None? && s.loop.next < |s.unacked| && s.credits > 0
  }

  function ReplayTake(s: Sender): Sender
    requires CanReplayTake(s)
  {
    s.(credits := s.credits - 1, loop := s.loop.(inHand := Some(s.unacked[s.loop.next])))
  }

  predicate CanReplaySent(s: Sender) {
    s.loop.Replaying? && s.loop.inHand.Some? && s.link == Up
  }

  function ReplaySent(s: Sender): Sender
    requires CanReplaySent(s)
  {
    s.(loop := Replaying(s.loop.next + 1, None))
  }

  /** After the last chunk the end frame is sent again, if there was one. */
  predicate CanReplayDone(s: Sender) {
    s.loop.Replaying? && s.loop.inHand.None? && s.loop.next >= |s.unacked| && (s.ended ==> s.link == Up)
  }

  function ReplayDone(s: Sender): Sender
    requires CanReplayDone(s)
  {
    s.(loop := Waiting, ready := true)
  }

  // ---- the receive loop and the connection

  /** The receive loop waits for a frame: it can read one or leave. Anywhere else it can do neither. */
  predicate BetweenFrames(s: Sender) {
    s.loop == Waiting && s.link != Down
  }

  /** The receive loop leaves, by its end or by an exception. */
  function Disconnect(s: Sender): Sender {
    s.(link := Down, ready := s.ready && !s.registered)
  }

  function Reconnect(s: Sender): Sender {
    s.(link := Up)
  }

  function PeerError(s: Sender): Sender {
    s.(registered := false, main := if s.main == Finished then Finished else Failed)
  }

  // ---- events

  datatype Event =
    | UpstreamPiece(piece: Bytes)
    | ReadyPassed
    | ChunkAppended
    | FrameSent
    | UpstreamEnd(contentLength: Option<nat>)
    | WindowFrame(credits: nat, ack: Option<nat>, complete: bool, negotiatedWindow: nat)
    | ReplayTaken
    | ReplayFrameSent
    | ReplayOver
    | ConnectionBroke
    | ConnectionLost
    | Reconnected
    | ErrorFrame
    | AnswerDue
    | AnswerSent
    | PutDue(taker: Taker)
    | CreditOut
    | RoomMade
    | TakerGone

  predicate Enabled(s: Sender, event: Event) {
    match event
    case UpstreamPiece(_) => CanRead(s)
    case ReadyPassed => CanPassReady(s)
    case ChunkAppended => CanAppend(s)
    case FrameSent => CanSend(s)
    case UpstreamEnd(_) => CanRead(s)
    case WindowFrame(_, _, _, _) => BetweenFrames(s)
    case ReplayTaken => CanReplayTake(s)
    case ReplayFrameSent => CanReplaySent(s)
    case ReplayOver => CanReplayDone(s)
    case ConnectionBroke => s.link == Up
    case ConnectionLost => BetweenFrames(s)
    case Reconnected => s.link == Down
    case ErrorFrame => BetweenFrames(s)
    case AnswerDue => BetweenFrames(s)
    case AnswerSent => s.loop == Answering && s.link == Up
    case PutDue(_) => BetweenFrames(s)
    case CreditOut => s.loop == Putting(Owing) && s.link == Up
    case RoomMade => s.loop == Putting(AtQueue)
    case TakerGone => s.loop.Putting?
  }

  function Apply(s: Sender, event: Event): Sender
    requires Enabled(s, event)
  {
    match event
    case UpstreamPiece(piece) => Read(s, piece)
    case ReadyPassed => PassReady(s)
    case ChunkAppended => TakeCreditAndAppend(s)
    case FrameSent => SendDone(s)
    case UpstreamEnd(contentLength) => Finish(s, contentLength)
    case WindowFrame(credits, ack, complete, negotiatedWindow) => Window(s, credits, ack, complete, negotiatedWindow)
    case ReplayTaken => ReplayTake(s)
    case ReplayFrameSent => ReplaySent(s)
    case ReplayOver => ReplayDone(s)
    case ConnectionBroke => s.(link := Dropped)
    case ConnectionLost => Disconnect(s)
    case Reconnected => Reconnect(s)
    case ErrorFrame => PeerError(s)
    case AnswerDue => s.(loop := Answering)
    case AnswerSent => s.(loop := Waiting)
    case PutDue(taker) => s.(loop := Putting(taker))
    case CreditOut => s.(loop := Putting(AtQueue))
    case RoomMade => s.(loop := Waiting)
    case TakerGone => s.(loop := Putting(Gone))
  }

  // ---- invariant

  /** Chunks that follow each other without a gap, none empty, the last one ending at `end`. */
  ghost predicate Chain(chunks: seq<Chunk>, end: nat) {
    && (forall i :: 0 <= i < |chunks| ==> chunks[i].payload != [])
    && (forall i :: 0 <= i < |chunks| - 1 ==> chunks[i].End() == chunks[i + 1].offset)
    && (chunks != [] ==> chunks[|chunks| - 1].End() == end)
  }

  ghost predicate Slices(chunks: seq<Chunk>, body: Bytes, limit: nat) {
    forall i :: 0 <= i < |chunks| ==>
      SliceAt(body, chunks[i].offset, chunks[i].payload) && |chunks[i].payload| <= limit
  }

  /** A replay of the response is under way, or waits for the lock. */
  predicate InReplay(s: Sender) {
    s.loop == AwaitLock || s.loop.Replaying?
  }

  ghost predicate Inv(s: Sender) {
    && s.limits.chunk > 0
    && Chain(s.unacked, s.nextOffset)
    && Slices(s.unacked, s.produced, s.limits.chunk)
    && s.nextOffset <= |s.produced| <= s.limits.body
    && (s.main != Failed ==> s.size == |s.produced| && s.raw == s.produced[s.nextOffset..])
    && (s.main in {Reading, Finished} ==> s.raw == [])
    && (s.main in {AwaitReady, AwaitCredit} ==> s.raw != [])
    && (s.main.Holding? ==>
          SliceAt(s.produced, s.main.chunk.offset, s.main.chunk.payload) && s.main.chunk.End() == s.nextOffset)
    && (s.loop.Replaying? && s.loop.inHand.Some? ==>
          SliceAt(s.produced, s.loop.inHand.value.offset, s.loop.inHand.value.payload))
    && (s.loop != Waiting ==> s.link != Down)
    && (InReplay(s) ==> !s.ready)
    && (s.loop == AwaitLock ==> s.main.Holding?)
    && (s.loop.Replaying? ==> s.loop.next + (if s.loop.inHand.Some? then 1 else 0) <= |s.unacked|)
    && (s.ended <==> s.main == Finished)
    && (s.limits.window > 0 ==> s.credits <= s.limits.window)
  }

  lemma {:induction false} ChainBelowEnd(chunks: seq<Chunk>, end: nat, i: nat)
    requires Chain(chunks, end) && i < |chunks|
    ensures chunks[i].End() <= end
    decreases |chunks| - i
  {
    if i < |chunks| - 1 {
      ChainBelowEnd(chunks, end, i + 1);
    }
  }

  lemma {:induction false} ChainGrows(chunks: seq<Chunk>, end: nat, i: nat, j: nat)
    requires Chain(chunks, end) && i < j < |chunks|
    ensures chunks[i].End() <= chunks[j].offset
    decreases j
  {
    if i < j - 1 {
      ChainGrows(chunks, end, i, j - 1);
    }
  }

  lemma ChainTail(chunks: seq<Chunk>, end: nat)
    requires Chain(chunks, end) && chunks != []
    ensures Chain(chunks[1..], end)
  {
    var rest := chunks[1..];
    forall i | 0 <= i < |rest| - 1 ensures rest[i].End() == rest[i + 1].offset {
      assert rest[i] == chunks[i + 1] && rest[i + 1] == chunks[i + 1 + 1];
    }
  }

  lemma {:induction false} ChainRest(chunks: seq<Chunk>, end: nat, k: nat)
    requires Chain(chunks, end) && k <= |chunks|
    ensures Chain(chunks[k..], end)
    decreases k
  {
    if k == 0 {
      assert chunks[0..] == chunks;
    } else {
      ChainTail(chunks, end);
      ChainRest(chunks[1..], end, k - 1);
      assert chunks[1..][k - 1..] == chunks[k..];
    }
  }

  lemma {:induction false} AllAboveAck(chunks: seq<Chunk>, ack: nat)
    requires forall i :: 0 <= i < |chunks| ==> chunks[i].End() > ack
    ensures Unacked(chunks, ack) == chunks
  {
    if chunks != [] {
      AllAboveAck(chunks[1..], ack);
    }
  }

  /** How many of the first chunks lie wholly below an acknowledgement. */
  function BelowAck(chunks: seq<Chunk>, ack: nat): (k: nat)
    ensures k <= |chunks|
    ensures k < |chunks| ==> chunks[k].End() > ack
  {
    if chunks == [] || chunks[0].End() > ack then 0 else 1 + BelowAck(chunks[1..], ack)
  }

  lemma {:induction false} BelowAckIsBelow(chunks: seq<Chunk>, ack: nat, i: nat)
    requires i < BelowAck(chunks, ack)
    ensures chunks[i].End() <= ack
  {
    if i > 0 { BelowAckIsBelow(chunks[1..], ack, i - 1); }
  }

  lemma RestAboveAck(chunks: seq<Chunk>, end: nat, ack: nat, i: nat)
    requires Chain(chunks, end) && BelowAck(chunks, ack) <= i < |chunks|
    ensures chunks[i].End() > ack
  {
    var k := BelowAck(chunks, ack);
    if i > k { ChainGrows(chunks, end, k, i); }
  }

  lemma {:induction false} UnackedIsRest(chunks: seq<Chunk>, end: nat, ack: nat)
    requires Chain(chunks, end)
    ensures Unacked(chunks, ack) == chunks[BelowAck(chunks, ack)..]
  {
    if chunks != [] {
      if chunks[0].End() > ack {
        forall i | 0 <= i < |chunks| ensures chunks[i].End() > ack { RestAboveAck(chunks, end, ack, i); }
        AllAboveAck(chunks, ack);
      } else {
        ChainTail(chunks, end);
        UnackedIsRest(chunks[1..], end, ack);
        assert chunks[1..][BelowAck(chunks[1..], ack)..] == chunks[BelowAck(chunks, ack)..];
      }
    }
  }

  /** An acknowledgement takes away exactly the chunks that lie wholly below it, and these come first. */
  lemma {:induction false} AckDropsPrefix(chunks: seq<Chunk>, end: nat, ack: nat)
    requires Chain(chunks, end)
    ensures var k := BelowAck(chunks, ack);
            && Unacked(chunks, ack) == chunks[k..]
            && (forall i :: 0 <= i < |chunks| ==> (i < k <==> chunks[i].End() <= ack))
            && Chain(chunks[k..], end)
  {
    UnackedIsRest(chunks, end, ack);
    ChainRest(chunks, end, BelowAck(chunks, ack));
    forall i | 0 <= i < |chunks| ensures i < BelowAck(chunks, ack) <==> chunks[i].End() <= ack {
      if i < BelowAck(chunks, ack) { BelowAckIsBelow(chunks, ack, i); } else { RestAboveAck(chunks, end, ack, i); }
    }
  }

  lemma SlicesOfLonger(chunks: seq<Chunk>, body: Bytes, longer: Bytes, limit: nat)
    requires Slices(chunks, body, limit) && body <= longer
    ensures Slices(chunks, longer, limit)
  {
    forall i | 0 <= i < |chunks| ensures SliceAt(longer, chunks[i].offset, chunks[i].payload) {
      SliceOfLonger(body, longer, chunks[i].offset, chunks[i].payload);
    }
  }

  lemma SlicesOfRest(chunks: seq<Chunk>, k: nat, body: Bytes, limit: nat)
    requires Slices(chunks, body, limit) && k <= |chunks|
    ensures Slices(chunks[k..], body, limit)
  {}

  lemma ReadKeepsInv(s: Sender, piece: Bytes)
    requires Inv(s) && CanRead(s)
    ensures Inv(Read(s, piece))
  {
    SlicesOfLonger(s.unacked, s.produced, s.produced + piece, s.limits.chunk);
    assert (s.produced + piece)[s.nextOffset..] == s.raw + piece;
    if s.loop.Replaying? && s.loop.inHand.Some? {
      SliceOfLonger(s.produced, s.produced + piece, s.loop.inHand.value.offset, s.loop.inHand.value.payload);
    }
  }

  lemma NextChunkIsSlice(s: Sender)
    requires s.limits.chunk > 0 && s.raw != [] && s.nextOffset <= |s.produced| && s.raw == s.produced[s.nextOffset..]
    ensures var chunk := NextChunk(s);
            && chunk.payload != [] && |chunk.payload| <= s.limits.chunk
            && SliceAt(s.produced, s.nextOffset, chunk.payload)
            && s.raw[|chunk.payload|..] == s.produced[chunk.End()..]
  {
    var chunk := NextChunk(s);
    assert chunk.payload == s.produced[s.nextOffset..chunk.End()];
  }

  lemma ChainAppend(chunks: seq<Chunk>, end: nat, chunk: Chunk)
    requires Chain(chunks, end) && chunk.offset == end && chunk.payload != []
    ensures Chain(chunks + [chunk], chunk.End())
  {
    var longer := chunks + [chunk];
    assert forall i :: 0 <= i < |chunks| ==> longer[i] == chunks[i];
  }

  lemma AppendKeepsInv(s: Sender)
    requires Inv(s) && CanAppend(s)
    ensures Inv(TakeCreditAndAppend(s))
  {
    NextChunkIsSlice(s);
    ChainAppend(s.unacked, s.nextOffset, NextChunk(s));
  }

  lemma WindowKeepsInv(s: Sender, credits: nat, ack: Option<nat>, complete: bool, negotiatedWindow: nat)
    requires Inv(s) && BetweenFrames(s)
    ensures Inv(Window(s, credits, ack, complete, negotiatedWindow))
  {
    if s.registered && ack.Some? {
      AckDropsPrefix(s.unacked, s.nextOffset, ack.value);
      SlicesOfRest(s.unacked, BelowAck(s.unacked, ack.value), s.produced, s.limits.chunk);
    }
  }

  lemma ReplayTakeKeepsInv(s: Sender)
    requires Inv(s) && CanReplayTake(s)
    ensures Inv(ReplayTake(s))
  {
    assert SliceAt(s.produced, s.unacked[s.loop.next].offset, s.unacked[s.loop.next].payload);
  }

  /** Events that concern the receive loop and the connection only. */
  predicate LoopEvent(event: Event) {
    || event.ConnectionBroke? || event.ConnectionLost? || event.Reconnected?
    || event.AnswerDue? || event.AnswerSent? || event.PutDue? || event.CreditOut? || event.RoomMade? || event.TakerGone?
  }

  lemma LoopEventsKeepInv(s: Sender, event: Event)
    requires Inv(s) && Enabled(s, event) && LoopEvent(event)
    ensures Inv(Apply(s, event))
  {}

  lemma OtherEventsKeepInv(s: Sender, event: Event)
    requires Inv(s) && Enabled(s, event) && !LoopEvent(event)
    requires !event.UpstreamPiece? && !event.ChunkAppended? && !event.WindowFrame? && !event.ReplayTaken?
    ensures Inv(Apply(s, event))
  {}

  lemma ApplyKeepsInv(s: Sender, event: Event)
    requires Inv(s) && Enabled(s, event)
    ensures Inv(Apply(s, event))
  {
    if event.UpstreamPiece? {
      ReadKeepsInv(s, event.piece);
    } else if event.ChunkAppended? {
      AppendKeepsInv(s);
    } else if event.WindowFrame? {
      WindowKeepsInv(s, event.credits, event.ack, event.complete, event.negotiatedWindow);
    } else if event.ReplayTaken? {
      ReplayTakeKeepsInv(s);
    } else if LoopEvent(event) {
      LoopEventsKeepInv(s, event);
    } else {
      OtherEventsKeepInv(s, event);
    }
  }

  /** Only cutting a slice and reading a window frame touch the chunks. */
  lemma ChunksStay(s: Sender, event: Event)
    requires Enabled(s, event)
    ensures var after := Apply(s, event);
            && (!event.ChunkAppended? ==> after.nextOffset == s.nextOffset)
            && (!event.ChunkAppended? && after.main.Holding? ==> after.main == s.main)
            && (!event.ChunkAppended? && !event.WindowFrame? ==> after.unacked == s.unacked)
  {}

  /** The body only grows, and only two events touch the chunks. */
  lemma BodyOnlyGrows(s: Sender, event: Event)
    requires Enabled(s, event)
    ensures var after := Apply(s, event);
            && after.limits == s.limits
            && s.produced <= after.produced
            && (!event.ChunkAppended? ==> after.nextOffset == s.nextOffset)
            && (!event.ChunkAppended? && after.main.Holding? ==> after.main == s.main)
            && (!event.ChunkAppended? && !event.WindowFrame? ==> after.unacked == s.unacked)
  {
    ChunksStay(s, event);
  }

  /** How many chunks a window frame takes from the front. */
  function Trimmed(s: Sender, ack: Option<nat>): nat {
    if s.registered && ack.Some? then BelowAck(s.unacked, ack.value) else 0
  }

  lemma WindowTrims(s: Sender, event: Event)
    requires Chain(s.unacked, s.nextOffset) && event.WindowFrame? && Enabled(s, event)
    ensures Trimmed(s, event.ack) <= |s.unacked|
    ensures Apply(s, event).unacked == s.unacked[Trimmed(s, event.ack)..]
    ensures Apply(s, event).produced == s.produced
  {
    if event.ack.Some? { UnackedIsRest(s.unacked, s.nextOffset, event.ack.value); }
  }

  /** Data frames that have their credit but are not sent yet. */
  function InHand(s: Sender): nat {
    (if s.main.Holding? then 1 else 0) + (if s.loop.Replaying? && s.loop.inHand.Some? then 1 else 0)
  }

  function Taken(event: Event): nat {
    if event.ChunkAppended? || event.ReplayTaken? then 1 else 0
  }

  function Sent(event: Event): nat {
    if event.FrameSent? || event.ReplayFrameSent? then 1 else 0
  }

  /** Credits leave the queue one at a time, each for one frame, and never exceed the window. A response that fails
      with a chunk in hand wastes one. */
  lemma CreditsAccounted(s: Sender, event: Event)
    requires Enabled(s, event)
    ensures var after := Apply(s, event);
            && (!event.WindowFrame? ==> after.credits == s.credits - Taken(event))
            && (event.WindowFrame? ==> after.credits >= s.credits)
            && InHand(after) + Sent(event) <= InHand(s) + Taken(event)
               <= InHand(after) + Sent(event) + (if s.main != Failed && after.main == Failed then 1 else 0)
            && (s.main == Failed ==> after.main == Failed)
            && (s.limits.window > 0 && s.credits <= s.limits.window ==> after.credits <= s.limits.window)
  {}

  // ---- the time until a replay is over

  predicate CanRun(s: Sender, events: seq<Event>)
    decreases |events|
  {
    events == [] || (Enabled(s, events[0]) && CanRun(Apply(s, events[0]), events[1..]))
  }

  function Run(s: Sender, events: seq<Event>): Sender
    requires CanRun(s, events)
    decreases |events|
  {
    if events == [] then s else Run(Apply(s, events[0]), events[1..])
  }

  /** A response fails if and only if its body outgrows the limit, ends with another length than was declared, or
      the peer reports an error before the end. */
  lemma FailsIff(s: Sender, event: Event)
    requires Inv(s) && Enabled(s, event) && s.main != Failed
    ensures Apply(s, event).main == Failed
       <==> || (event.UpstreamPiece? && |s.produced| + |event.piece| > s.limits.body)
            || (event.UpstreamEnd? && event.contentLength.Some? && event.contentLength.value != |s.produced|)
            || (event.ErrorFrame? && !s.ended)
  {}

  /** A failed response stays failed: it reads and cuts nothing more, and no end frame is ever sent for it. */
  lemma {:induction false} FailedIsFinal(s: Sender, events: seq<Event>)
    requires Inv(s) && s.main == Failed && CanRun(s, events)
    ensures var after := Run(s, events);
            after.main == Failed && !after.ended && after.nextOffset == s.nextOffset && after.produced == s.produced
    decreases |events|
  {
    if events != [] {
      ApplyKeepsInv(s, events[0]);
      FailedIsFinal(Apply(s, events[0]), events[1..]);
    }
  }

  /** The peer's word that it has everything, or an error from it. */
  predicate Settles(event: Event) {
    event.ErrorFrame? || (event.WindowFrame? && event.complete)
  }

  /** A response is held until the peer settles it, whatever else happens. */
  lemma {:induction false} HeldUntilSettled(s: Sender, events: seq<Event>)
    requires CanRun(s, events)
    ensures Run(s, events).registered <==> s.registered && forall i :: 0 <= i < |events| ==> !Settles(events[i])
    decreases |events|
  {
    if events != [] {
      HeldUntilSettled(Apply(s, events[0]), events[1..]);
      assert forall i :: 1 <= i < |events| ==> events[i] == events[1..][i - 1];
    }
  }

  /** Once settled it gets no more credits, is never replayed, and a lost connection does not hold it up. */
  lemma {:induction false} SettledIsLeftAlone(s: Sender, events: seq<Event>)
    requires !s.registered && !InReplay(s) && CanRun(s, events)
    ensures var after := Run(s, events); !InReplay(after) && after.ready == s.ready && after.credits <= s.credits
    decreases |events|
  {
    if events != [] { SettledIsLeftAlone(Apply(s, events[0]), events[1..]); }
  }

  /** A window frame grants so many credits. */
  predicate Grantable(s: Sender, credits: nat, negotiatedWindow: nat, n: int) {
    n <= credits && n <= negotiatedWindow && (s.limits.window > 0 ==> s.credits + n <= s.limits.window)
  }

  /** It grants the most that its number, the negotiated window and the room in the credit queue allow. */
  lemma WindowGrantsTheMost(s: Sender, credits: nat, ack: Option<nat>, negotiatedWindow: nat, n: int)
    requires Inv(s) && s.registered
    ensures var granted := Window(s, credits, ack, false, negotiatedWindow).credits - s.credits;
            && 0 <= granted && Grantable(s, credits, negotiatedWindow, granted)
            && (Grantable(s, credits, negotiatedWindow, n) ==> n <= granted)
  {}

  /** Which window frames are refused: those with a negative number, and those that carry neither credits nor an
      acknowledgement. */
  lemma RefusedWindowIff(credits: int, ack: Option<int>)
    ensures !ValidWindow(credits, ack)
       <==> credits < 0 || (ack.Some? && ack.value < 0) || (credits == 0 && ack == None)
  {}

  /** How many slices are cut. */
  function Cuts(events: seq<Event>): nat {
    if events == [] then 0 else (if events[0].ChunkAppended? then 1 else 0) + Cuts(events[1..])
  }

  /** A response that is not ready stays so through every run until a replay is over, and until then at most
      one more slice is cut: by a task that had passed the wait before and holds out for a credit. */
  lemma {:induction false} NothingNewBeforeReplay(s: Sender, events: seq<Event>)
    requires !s.ready && CanRun(s, events) && ReplayOver !in events
    ensures var after := Run(s, events);
            && !after.ready
            && Cuts(events) + (if after.main == AwaitCredit then 1 else 0) <= (if s.main == AwaitCredit then 1 else 0)
    decreases |events|
  {
    if events != [] {
      NothingNewBeforeReplay(Apply(s, events[0]), events[1..]);
    }
  }

  // ---- where the receive loop is stuck

  /** Chunks that the replay has to send and has no credit for yet. */
  function Unpaid(s: Sender): int {
    match s.loop
    case AwaitLock => |s.unacked|
    case Replaying(next, inHand) => |s.unacked| - next - (if inHand.Some? then 1 else 0)
    case _ => 0
  }

  /** What the receive loop is about can be done without a connection. */
  predicate DoneOffline(s: Sender) {
    match s.loop
    case Waiting => true
    case Answering => false
    case Putting(taker) => taker == AtQueue
    case AwaitLock => false
    case Replaying(_, inHand) => Unpaid(s) == 0 && inHand.None? && !s.ended
  }

  /** The receive loop cannot go on. It is the only place that grants credits, and the only one that notices a
      broken connection and makes way for the next. */
  predicate Wedged(s: Sender) {
    s.loop == Putting(Gone) || s.credits < Unpaid(s) || (s.link != Up && !DoneOffline(s))
  }

  /** No event helps it, and a connection that broke stays broken. */
  lemma WedgedStays(s: Sender, event: Event)
    requires Inv(s) && s.link != Down && Wedged(s) && Enabled(s, event)
    ensures var after := Apply(s, event);
            && Wedged(after) && after.loop != Waiting && after.link != Down
            && (InReplay(s) ==> InReplay(after) && !after.ready)
            && (s.link == Dropped ==> after.link == Dropped)
  {}

  /** The credits cover the replay, and the task that may take one of them away. */
  predicate Covered(s: Sender) {
    InReplay(s) && s.link == Up && s.credits >= Unpaid(s) + (if s.main == AwaitCredit then 2 else 0)
  }

  /** A covered replay is wedged by nothing but a broken connection. */
  lemma CoveredStays(s: Sender, event: Event)
    requires Inv(s) && Covered(s) && Enabled(s, event) && !event.ConnectionBroke?
    ensures Covered(Apply(s, event)) || (event.ReplayOver? && Apply(s, event).ready)
    ensures !Wedged(Apply(s, event))
  {}

  // ---- what is sent when nothing goes wrong

  function Payloads(chunks: seq<Chunk>): seq<Bytes> {
    seq(|chunks|, i requires 0 <= i < |chunks| => chunks[i].payload)
  }

  /** Sending the piece at hand with credits to spare: the state afterwards and the frames sent. */
  function SendPiece(s: Sender): (Sender, seq<Chunk>)
    requires s.limits.chunk > 0
    decreases |s.raw|
  {
    if CanPassReady(s) && s.credits > 0 && s.raw != [] && s.link == Up && !InReplay(s) then
      var held := TakeCreditAndAppend(PassReady(s));
      var (after, rest) := SendPiece(SendDone(held));
      (after, [held.main.chunk] + rest)
    else (s, [])
  }

  /** `sent` carries the whole piece at hand, one credit a frame, in full slices but for the last one, and the
      sender is then ready for the next piece. */
  ghost predicate SendsWhole(s: Sender, after: Sender, sent: seq<Chunk>) {
    && after.main == Reading && after.nextOffset == s.nextOffset + |s.raw|
    && Concat(Payloads(sent)) == s.raw
    && after.unacked == s.unacked + sent
    && after.credits + |sent| == s.credits
    && (forall i :: 0 <= i < |sent| - 1 ==> |sent[i].payload| == s.limits.chunk)
  }

  predicate CanSendPiece(s: Sender) {
    && s.limits.chunk > 0 && s.raw != [] && s.main == AwaitReady && s.ready && s.credits > 0
    && s.link == Up && !InReplay(s)
  }

  /** The sender after the frame of the next slice. */
  function AfterFrame(s: Sender): Sender
    requires CanSendPiece(s)
  {
    SendDone(TakeCreditAndAppend(PassReady(s)))
  }

  lemma SendPieceUnfolds(s: Sender)
    requires CanSendPiece(s)
    ensures SendPiece(s) == (SendPiece(AfterFrame(s)).0, [NextChunk(s)] + SendPiece(AfterFrame(s)).1)
  {}

  lemma AfterFrameIs(s: Sender)
    requires CanSendPiece(s)
    ensures var chunk, next := NextChunk(s), AfterFrame(s);
            && next == s.(credits := s.credits - 1, raw := s.raw[|chunk.payload|..], nextOffset := chunk.End(),
                          unacked := s.unacked + [chunk], main := AfterSlice(s.raw[|chunk.payload|..]))
            && chunk.payload + next.raw == s.raw
            && (next.raw != [] ==> |chunk.payload| == s.limits.chunk)
            && |next.raw| < |s.raw|
  {}

  lemma LastFrame(s: Sender)
    requires CanSendPiece(s) && AfterFrame(s).raw == []
    ensures SendsWhole(s, AfterFrame(s), [NextChunk(s)])
  {
    AfterFrameIs(s);
    PayloadsPrepend(NextChunk(s), []);
    assert [NextChunk(s)] + [] == [NextChunk(s)];
  }

  lemma OneMoreFrame(s: Sender, after: Sender, rest: seq<Chunk>)
    requires CanSendPiece(s) && AfterFrame(s).raw != [] && SendsWhole(AfterFrame(s), after, rest)
    ensures SendsWhole(s, after, [NextChunk(s)] + rest)
  {
    var chunk, next := NextChunk(s), AfterFrame(s);
    AfterFrameIs(s);
    PayloadsPrepend(chunk, rest);
    assert s.unacked + [chunk] + rest == s.unacked + ([chunk] + rest);
  }

  lemma EnoughForTheRest(credits: nat, chunk: nat, length: nat)
    requires credits * chunk >= length > chunk
    ensures credits > 1 && (credits - 1) * chunk >= length - chunk
  {
    assert credits <= 1 ==> credits * chunk <= chunk;
  }

  /** A connected sender with a credit for each slice sends the whole piece. */
  lemma {:induction false} WholePieceIsSent(s: Sender)
    requires CanSendPiece(s) && s.credits * s.limits.chunk >= |s.raw|
    ensures SendsWhole(s, SendPiece(s).0, SendPiece(s).1)
    decreases |s.raw|
  {
    var next := AfterFrame(s);
    AfterFrameIs(s);
    SendPieceUnfolds(s);
    if next.raw == [] {
      LastFrame(s);
      assert [NextChunk(s)] + [] == [NextChunk(s)];
    } else {
      EnoughForTheRest(s.credits, s.limits.chunk, |s.raw|);
      WholePieceIsSent(next);
      OneMoreFrame(s, SendPiece(next).0, SendPiece(next).1);
    }
  }

  lemma PayloadsPrepend(chunk: Chunk, rest: seq<Chunk>)
    ensures Concat(Payloads([chunk] + rest)) == chunk.payload + Concat(Payloads(rest))
  {
    assert Payloads([chunk] + rest)[1..] == Payloads(rest);
  }

  /** A replay that is left to run while it finds credits. */
  function ReplayAll(s: Sender): (Sender, seq<Chunk>)
    requires s.loop.Replaying? && s.loop.inHand.None?
    decreases |s.unacked| - s.loop.next
  {
    if CanReplayTake(s) && s.link == Up then
      var held := ReplayTake(s);
      var (after, rest) := ReplayAll(ReplaySent(held));
      (after, [held.loop.inHand.value] + rest)
    else if CanReplayDone(s) then (ReplayDone(s), [])
    else (s, [])
  }

  lemma ReplayUnfolds(s: Sender)
    requires CanReplayTake(s) && s.link == Up
    ensures var next := s.(credits := s.credits - 1, loop := Replaying(s.loop.next + 1, None));
            ReplayAll(s) == (ReplayAll(next).0, [s.unacked[s.loop.next]] + ReplayAll(next).1)
  {
    assert ReplaySent(ReplayTake(s)) == s.(credits := s.credits - 1, loop := Replaying(s.loop.next + 1, None));
  }

  lemma ReplayIsOver(s: Sender)
    requires s.loop == Replaying(|s.unacked|, None) && s.link == Up
    ensures ReplayAll(s) == (s.(loop := Waiting, ready := true), [])
  {}

  /** With enough credits the replay sends every unacknowledged chunk once, in order, for one credit each,
      and only then lets first sends go on. */
  lemma {:induction false} ReplaySendsAll(s: Sender, next: nat)
    requires s.loop == Replaying(next, None) && next <= |s.unacked| <= s.credits + next && s.link == Up
    ensures ReplayAll(s) == (s.(credits := s.credits + next - |s.unacked|, loop := Waiting, ready := true),
                             s.unacked[next..])
    decreases |s.unacked| - next
  {
    if next == |s.unacked| {
      ReplayIsOver(s);
    } else {
      ReplayUnfolds(s);
      ReplaySendsAll(s.(credits := s.credits - 1, loop := Replaying(next + 1, None)), next + 1);
      assert s.unacked[next..] == [s.unacked[next]] + s.unacked[next + 1..];
    }
  }

  /** The entry of `response_credits` together with the locals of the asyncio task that fills it. */
  class ResponseStream {
    const limits: Limits
    var link: Link
    var registered: bool
    var credits: nat
    var unacked: seq<Chunk>
    var nextOffset: nat
    var ready: bool
    var ended: bool
    var size: nat
    var raw: Bytes
    var main: Main
    var loop: Loop
    ghost var produced: Bytes

    ghost function View(): Sender
      reads this
    {
      Sender(limits, link, registered, credits, unacked, nextOffset, ready, ended, size, raw, main, loop, produced)
    }

    constructor (limits: Limits)
      requires limits.chunk > 0
      ensures View() == Fresh(limits) && Inv(View())
    {
      this.limits, link := limits, Up;
      registered, credits, unacked, nextOffset := true, 0, [], 0;
      ready, ended, size, raw, main, loop, produced := true, false, 0, [], Reading, Waiting, [];
    }

    method ReadPiece(piece: Bytes) returns (tooLarge: bool)
      requires Inv(View()) && CanRead(View())
      modifies this
      ensures View() == Read(old(View()), piece) && Inv(View())
      ensures tooLarge <==> main == Failed
    {
      ghost var before := View();
      size := size + |piece|;
      if size > limits.body {
        main := Failed;
        assert View() == Read(before, piece);
        ReadKeepsInv(before, piece);
        return true;
      }
      raw := piece;
      produced := produced + piece;
      main := AfterSlice(raw);
      assert View() == Read(before, piece);
      ReadKeepsInv(before, piece);
      return false;
    }

    method AppendWithCredit() returns (chunk: Chunk)
      requires Inv(View()) && CanAppend(View())
      modifies this
      ensures View() == TakeCreditAndAppend(old(View())) && Inv(View())
      ensures chunk == NextChunk(old(View()))
    {
      AppendKeepsInv(View());
      chunk := Chunk(nextOffset, raw[..Min(limits.chunk, |raw|)]);
      credits := credits - 1;
      raw := raw[|chunk.payload|..];
      nextOffset := chunk.End();
      unacked := unacked + [chunk];
      main := Holding(chunk);
      assert View() == TakeCreditAndAppend(old(View()));
    }

    method FrameSent()
      requires Inv(View()) && CanSend(View())
      modifies this
      ensures View() == SendDone(old(View())) && Inv(View())
    {
      main := AfterSlice(raw);
      if loop == AwaitLock { loop := Replaying(0, None); }
    }

    method BodyOver(contentLength: Option<nat>) returns (mismatch: bool)
      requires Inv(View()) && CanRead(View())
      modifies this
      ensures View() == Finish(old(View()), contentLength) && Inv(View())
      ensures mismatch <==> main == Failed
    {
      if contentLength.Some? && size != contentLength.value {
        main := Failed;
        return true;
      }
      ended := true;
      main := Finished;
      return false;
    }

    /** The list comprehension over the unacknowledged chunks. */
    method Acknowledge(ack: nat)
      modifies this`unacked
      ensures unacked == Unacked(old(unacked), ack)
    {
      var kept: seq<Chunk> := [];
      var i := 0;
      while i < |unacked|
        invariant 0 <= i <= |unacked| && unacked == old(unacked)
        invariant kept + Unacked(unacked[i..], ack) == Unacked(unacked, ack)
      {
        assert unacked[i..][1..] == unacked[i + 1..];
        if unacked[i].End() > ack {
          kept := kept + [unacked[i]];
        }
        i := i + 1;
      }
      assert unacked[i..] == [];
      unacked := kept;
    }

    /** The loop of `put_nowait` calls, left at the first full queue. */
    method PutCreditsOneByOne(count: nat)
      modifies this`credits
      ensures credits == PutCredits(old(credits), count, limits.window)
    {
      var done := 0;
      while done < count
        invariant 0 <= done <= count
        invariant credits == old(credits) + done
        invariant done > 0 && limits.window > 0 ==> credits <= limits.window
      {
        if limits.window > 0 && credits >= limits.window {
          break;
        }
        credits := credits + 1;
        done := done + 1;
      }
    }

    /** A `window` frame with a valid position and valid credits. */
    method TakeWindow(credits: nat, ack: Option<nat>, complete: bool, negotiatedWindow: nat)
      requires BetweenFrames(View())
      modifies this
      ensures View() == Window(old(View()), credits, ack, complete, negotiatedWindow)
    {
      if !registered { return; }
      if ack.Some? { Acknowledge(ack.value); }
      if complete {
        registered := false;
        return;
      }
      PutCreditsOneByOne(if credits <= negotiatedWindow then credits else negotiatedWindow);
      if !ready { loop := if main.Holding? then AwaitLock else Replaying(0, None); }
    }

    /** A `window` frame; false when the frame is refused, which raises out of the receive loop. */
    method HandleWindow(credits: int, ack: Option<int>, complete: bool, negotiatedWindow: nat) returns (valid: bool)
      requires Inv(View()) && BetweenFrames(View())
      modifies this
      ensures valid <==> ValidWindow(credits, ack)
      ensures valid ==> View() == Window(old(View()), credits, Position(ack), complete, negotiatedWindow)
      ensures !valid ==> View() == old(View())
      ensures Inv(View())
    {
      if credits < 0 || (credits == 0 && ack.None?) || (ack.Some? && ack.value < 0) {
        return false;
      }
      WindowKeepsInv(View(), credits, Position(ack), complete, negotiatedWindow);
      TakeWindow(credits, Position(ack), complete, negotiatedWindow);
      return true;
    }

    method ReplayWithCredit() returns (chunk: Chunk)
      requires Inv(View()) && CanReplayTake(View())
      modifies this
      ensures View() == ReplayTake(old(View())) && Inv(View())
      ensures chunk == old(unacked)[old(loop).next]
    {
      ReplayTakeKeepsInv(View());
      credits := credits - 1;
      chunk := unacked[loop.next];
      loop := loop.(inHand := Some(chunk));
    }

    method ReplayFrameSent()
      requires Inv(View()) && CanReplaySent(View())
      modifies this
      ensures View() == ReplaySent(old(View())) && Inv(View())
    {
      loop := Replaying(loop.next + 1, None);
    }

    /** The end of the replay loop: true when the end frame is sent again. */
    method ReplayFinished() returns (sendEnd: bool)
      requires Inv(View()) && CanReplayDone(View())
      modifies this
      ensures View() == ReplayDone(old(View())) && Inv(View())
      ensures sendEnd <==> ended
    {
      sendEnd := ended;
      loop := Waiting;
      ready := true;
    }

    /** A send that fails takes the connection for broken and waits for the next one. */
    method SendFailed()
      requires Inv(View()) && link == Up
      modifies this
      ensures View() == Apply(old(View()), ConnectionBroke) && Inv(View())
    {
      link := Dropped;
    }

    method ConnectionLost()
      requires Inv(View()) && BetweenFrames(View())
      modifies this
      ensures View() == Disconnect(old(View())) && Inv(View())
    {
      link := Down;
      if registered { ready := false; }
    }

    method NextConnection()
      requires Inv(View()) && link == Down
      modifies this
      ensures View() == Reconnect(old(View())) && Inv(View())
    {
      link := Up;
    }

    method HandleError()
      requires Inv(View()) && BetweenFrames(View())
      modifies this
      ensures View() == PeerError(old(View())) && Inv(View())
    {
      registered := false;
      if main != Finished { main := Failed; }
    }
  }
}
