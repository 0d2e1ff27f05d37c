/**
 A response sender joined to a receiver that follows the acceptance and acknowledgement rules of
 the request side, over connections that come and go.

 The network is as hostile as it can be: a chunk may be delivered from the moment its frame is
 first handed to the connection, any number of times, in any order, or never; the same holds for
 acknowledgements. Every loss that a disconnect can cause is one of these runs.
 */
module TunnelRuns {
  import opened Bytes
  import Snd = ResponseStreams
  import Rcv = RequestStreams

  datatype Config = Config(limits: Snd.Limits, receiverWindow: nat, maxBody: nat, contentLength: Option<nat>)

  /** `log` is every chunk ever cut from the body, `acked` how many of them were acknowledged, `acks`
      every acknowledgement ever sent; `granted`, `taken` and `frames` count the credits that reached
      the credit queue, those taken out of it, and the data frames whose sending completed. */
  datatype System = System(
    snd: Snd.Sender,
    rcv: Rcv.Receiver,
    log: seq<Snd.Chunk>,
    acked: int,
    acks: set<nat>,
    granted: int,
    taken: nat,
    frames: nat)

  datatype Step =
    | Sender(sent: Snd.Event)
    | DeliverData(chunk: Snd.Chunk)
    | DeliverEnd
    | BeginAgain
    | Receiver(event: Rcv.Event)

  function Start(c: Config): System {
    System(Snd.Fresh(c.limits), Rcv.Fresh(c.receiverWindow, c.contentLength), [], 0, {}, 0, 0, 0)
  }

  /** An acknowledgement that arrives was sent at some time; so was an end frame. */
  predicate Can(c: Config, s: System, step: Step) {
    match step
    case Sender(event) =>
      && Snd.Enabled(s.snd, event)
      && (event.WindowFrame? && event.ack.Some? ==> event.ack.value in s.acks)
      && (event.UpstreamEnd? ==> event.contentLength == c.contentLength)
    case DeliverData(chunk) => chunk in s.log && !s.rcv.eofBlocked
    case DeliverEnd => s.snd.ended && !s.rcv.eofBlocked
    case BeginAgain => s.rcv.live
    case Receiver(event) => !event.Envelope? && !event.EndFrame? && Rcv.Enabled(s.rcv, event)
  }

  function DoSender(s: System, event: Snd.Event): System
    requires Snd.Enabled(s.snd, event)
  {
    var snd := Snd.Apply(s.snd, event);
    var log := if event.ChunkAppended? then s.log + [Snd.NextChunk(s.snd)] else s.log;
    s.(snd := snd,
       log := log,
       acked := |log| - |snd.unacked|,
       granted := if event.WindowFrame? then s.granted + snd.credits - s.snd.credits else s.granted,
       taken := s.taken + Snd.Taken(event),
       frames := s.frames + Snd.Sent(event))
  }

  function Do(c: Config, s: System, step: Step): System
    requires Can(c, s, step)
  {
    match step
    case Sender(event) => DoSender(s, event)
    case DeliverData(chunk) =>
      var (rcv, outcome) := Rcv.OnData(s.rcv, Some(chunk.offset), chunk.payload, false, c.maxBody, true);
      s.(rcv := rcv, acks := if outcome.Duplicate? then s.acks + {outcome.ackOffset} else s.acks)
    case DeliverEnd => s.(rcv := Rcv.OnEnd(s.rcv, true).0)
    case BeginAgain => s.(acks := s.acks + {Rcv.BeginReply(s.rcv, c.receiverWindow).ackOffset})
    case Receiver(event) =>
      s.(rcv := Rcv.Apply(s.rcv, event, c.maxBody),
         acks := if event.ConsumerResume? then s.acks + {Rcv.CreditFor(s.rcv).ackOffset} else s.acks)
  }

  /** The states reached by a list of steps; None when a step cannot happen where it is taken. */
  function Exec(c: Config, steps: seq<Step>): Option<System> {
    if steps == [] then Some(Start(c)) else
      var before := Exec(c, steps[..|steps| - 1]);
      if before.Some? && Can(c, before.value, steps[|steps| - 1])
      then Some(Do(c, before.value, steps[|steps| - 1]))
      else None
  }

  // ---- invariant

  /** The whole log: chunks of the body from offset zero to `next_offset` without a gap. */
  ghost predicate Log(s: System) {
    && Snd.Chain(s.log, s.snd.nextOffset)
    && (s.log == [] ==> s.snd.nextOffset == 0)
    && (s.log != [] ==> s.log[0].offset == 0)
    && Snd.Slices(s.log, s.snd.produced, s.snd.limits.chunk)
    && 0 <= s.acked <= |s.log|
    && s.snd.unacked == s.log[s.acked..]
    && (s.snd.main.Holding? ==> s.log != [] && s.snd.main.chunk == s.log[|s.log| - 1])
  }

  /** An offset at which a chunk begins, or the end of the log. */
  ghost predicate Boundary(chunks: seq<Snd.Chunk>, end: nat, offset: nat) {
    offset == end || exists i :: 0 <= i < |chunks| && chunks[i].offset == offset
  }

  /** The offset up to which chunks were acknowledged. */
  function Low(s: System): nat {
    if s.snd.unacked == [] then s.snd.nextOffset else s.snd.unacked[0].offset
  }

  ghost predicate Delivery(s: System) {
    && s.rcv.received <= s.snd.nextOffset
    && s.rcv.received <= |s.snd.produced|
    && s.rcv.upstream + Rcv.Queued(s.rcv.queue) == s.snd.produced[..s.rcv.received]
    && Boundary(s.log, s.snd.nextOffset, s.rcv.received)
    && (forall a :: a in s.acks ==> a <= s.rcv.received)
    && Low(s) <= s.rcv.received
  }

  ghost predicate Ending(c: Config, s: System) {
    && (s.rcv.ended ==> s.snd.ended)
    && (c.contentLength.Some? && s.snd.ended ==> |s.snd.produced| == c.contentLength.value)
    && s.rcv.contentLength == c.contentLength
    && (c.contentLength.Some? && s.rcv.ended ==> s.rcv.received == c.contentLength.value)
  }

  /** Credits: each one granted is in the queue or was taken, and each one taken paid for one frame, but for the one
      of a chunk that was in hand when the response failed. */
  ghost predicate Credits(s: System) {
    && s.granted == s.snd.credits + s.taken
    && s.frames + Snd.InHand(s.snd) <= s.taken
    && s.taken <= s.frames + Snd.InHand(s.snd) + (if s.snd.main == Snd.Failed then 1 else 0)
    && (s.snd.limits.window > 0 ==> s.snd.credits <= s.snd.limits.window)
  }

  ghost predicate Inv(c: Config, s: System) {
    && s.snd.limits == c.limits
    && Snd.Inv(s.snd)
    && Rcv.Inv(s.rcv)
    && Log(s)
    && Delivery(s)
    && Ending(c, s)
    && Credits(s)
  }

  // ---- every step keeps it, one part of the invariant at a time

  lemma LogAppended(s: System)
    requires Snd.Inv(s.snd) && Log(s) && Snd.CanAppend(s.snd)
    ensures Log(DoSender(s, Snd.ChunkAppended))
  {
    LogOfOneMore(s, DoSender(s, Snd.ChunkAppended));
  }

  lemma LogOfOneMore(s: System, after: System)
    requires Log(s) && s.snd.limits.chunk > 0 && s.snd.raw != []
    requires s.snd.nextOffset <= |s.snd.produced| && s.snd.raw == s.snd.produced[s.snd.nextOffset..]
    requires var chunk := Snd.NextChunk(s.snd);
             && after.log == s.log + [chunk] && after.acked == s.acked && after.snd.unacked == s.snd.unacked + [chunk]
             && after.snd.nextOffset == chunk.End() && after.snd.produced == s.snd.produced
             && after.snd.limits == s.snd.limits && after.snd.main == Snd.Holding(chunk)
    ensures Log(after)
  {
    Snd.NextChunkIsSlice(s.snd);
    Snd.ChainAppend(s.log, s.snd.nextOffset, Snd.NextChunk(s.snd));
    RestOfLonger(s.log, s.acked, Snd.NextChunk(s.snd));
    assert Snd.Slices(after.log, after.snd.produced, after.snd.limits.chunk) by {
      assert forall i :: 0 <= i < |s.log| ==> after.log[i] == s.log[i];
    }
  }

  lemma RestOfLonger(log: seq<Snd.Chunk>, k: nat, chunk: Snd.Chunk)
    requires k <= |log|
    ensures (log + [chunk])[k..] == log[k..] + [chunk]
  {}

  /** The log with its first chunks acknowledged, `k` more than before, and perhaps more of the body known. */
  lemma LogOfOldChunks(s: System, after: System, k: nat)
    requires Log(s) && k <= |s.snd.unacked|
    requires after.log == s.log && after.acked == s.acked + k && after.snd.unacked == s.snd.unacked[k..]
    requires after.snd.nextOffset == s.snd.nextOffset && after.snd.limits == s.snd.limits
    requires s.snd.produced <= after.snd.produced && (after.snd.main.Holding? ==> after.snd.main == s.snd.main)
    ensures Log(after)
  {
    assert s.log[s.acked..][k..] == s.log[s.acked + k..];
    forall i | 0 <= i < |s.log| ensures SliceAt(after.snd.produced, s.log[i].offset, s.log[i].payload) {
      SliceOfLonger(s.snd.produced, after.snd.produced, s.log[i].offset, s.log[i].payload);
    }
  }

  lemma LogKept(s: System, event: Snd.Event)
    requires Snd.Inv(s.snd) && Log(s) && Snd.Enabled(s.snd, event)
    ensures Log(DoSender(s, event))
  {
    Snd.BodyOnlyGrows(s.snd, event);
    if event.ChunkAppended? {
      LogAppended(s);
    } else if event.WindowFrame? {
      Snd.WindowTrims(s.snd, event);
      LogOfOldChunks(s, DoSender(s, event), Snd.Trimmed(s.snd, event.ack));
    } else {
      LogOfOldChunks(s, DoSender(s, event), 0);
    }
  }

  /** Dropping chunks that lie below an acknowledgement never passes what the receiver has. */
  lemma LowAfterDrop(s: System, k: nat, ack: nat)
    requires Snd.Chain(s.snd.unacked, s.snd.nextOffset) && Low(s) <= s.rcv.received <= s.snd.nextOffset
    requires k <= |s.snd.unacked| && ack <= s.rcv.received
    requires forall i :: 0 <= i < k ==> s.snd.unacked[i].End() <= ack
    ensures (if k == |s.snd.unacked| then s.snd.nextOffset else s.snd.unacked[k].offset) <= s.rcv.received
  {
    if k > 0 { assert s.snd.unacked[k - 1].End() <= ack; }
  }

  /** What the receiver has stays where it is while the sender moves on. */
  lemma DeliveryOfSameReceiver(s: System, after: System)
    requires Delivery(s)
    requires after.rcv == s.rcv && after.acks == s.acks && s.log <= after.log
    requires s.snd.nextOffset <= after.snd.nextOffset && s.snd.produced <= after.snd.produced
    requires Boundary(after.log, after.snd.nextOffset, s.snd.nextOffset)
    requires Low(after) <= s.rcv.received
    ensures Delivery(after)
  {
    assert after.snd.produced[..s.rcv.received] == s.snd.produced[..s.rcv.received];
    if s.rcv.received != s.snd.nextOffset {
      var i :| 0 <= i < |s.log| && s.log[i].offset == s.rcv.received;
      assert after.log[i].offset == s.rcv.received;
    }
  }

  lemma DeliveryKeptBySender(c: Config, s: System, event: Snd.Event)
    requires Snd.Chain(s.snd.unacked, s.snd.nextOffset) && Delivery(s) && Can(c, s, Sender(event))
    ensures Delivery(DoSender(s, event))
  {
    var after := DoSender(s, event);
    Snd.BodyOnlyGrows(s.snd, event);
    if event.ChunkAppended? {
      assert after.log[|s.log|].offset == s.snd.nextOffset;
    } else if event.WindowFrame? {
      Snd.WindowTrims(s.snd, event);
      if s.snd.registered && event.ack.Some? {
        Snd.AckDropsPrefix(s.snd.unacked, s.snd.nextOffset, event.ack.value);
        LowAfterDrop(s, Snd.Trimmed(s.snd, event.ack), event.ack.value);
      }
    }
    DeliveryOfSameReceiver(s, after);
  }

  lemma ChunkEndsAtBoundary(chunks: seq<Snd.Chunk>, end: nat, i: nat)
    requires Snd.Chain(chunks, end) && i < |chunks|
    ensures Boundary(chunks, end, chunks[i].End()) && chunks[i].End() <= end
  {
    Snd.ChainBelowEnd(chunks, end, i);
    if i + 1 < |chunks| {
      assert chunks[i + 1].offset == chunks[i].End();
    }
  }

  lemma DeliveryKeptByData(c: Config, s: System, chunk: Snd.Chunk)
    requires Rcv.Inv(s.rcv) && Log(s) && Delivery(s) && Can(c, s, DeliverData(chunk))
    ensures Delivery(Do(c, s, DeliverData(chunk)))
  {
    var i :| 0 <= i < |s.log| && s.log[i] == chunk;
    Rcv.DataKeepsInOrder(s.rcv, chunk.offset, chunk.payload, false, c.maxBody, s.snd.produced);
    ChunkEndsAtBoundary(s.log, s.snd.nextOffset, i);
  }

  lemma DeliveryKeptByReceiver(c: Config, s: System, event: Rcv.Event)
    requires Rcv.Inv(s.rcv) && Delivery(s) && Can(c, s, Receiver(event))
    ensures Delivery(Do(c, s, Receiver(event)))
  {
    Rcv.ApplyKeepsInOrder(s.rcv, event, c.maxBody, s.snd.produced);
    Rcv.EndedIsFinal(s.rcv, event, c.maxBody);
  }

  lemma DeliveryKeptByEnd(c: Config, s: System)
    requires Rcv.Inv(s.rcv) && Delivery(s) && Can(c, s, DeliverEnd)
    ensures Delivery(Do(c, s, DeliverEnd))
  {
    if s.rcv.live && !s.rcv.ended { Rcv.WithEndKeepsInv(s.rcv); }
  }

  lemma SenderStepKeeps(c: Config, s: System, event: Snd.Event)
    requires Inv(c, s) && Can(c, s, Sender(event))
    ensures Inv(c, Do(c, s, Sender(event)))
  {
    Snd.ApplyKeepsInv(s.snd, event);
    LogKept(s, event);
    DeliveryKeptBySender(c, s, event);
    EndingKeptBySender(c, s, event);
    Snd.BodyOnlyGrows(s.snd, event);
    CreditsKept(s, event);
  }

  lemma EndingKeptBySender(c: Config, s: System, event: Snd.Event)
    requires Ending(c, s) && Can(c, s, Sender(event))
    requires s.snd.ended ==> s.snd.main == Snd.Finished
    requires s.snd.main != Snd.Failed ==> s.snd.size == |s.snd.produced|
    ensures Ending(c, DoSender(s, event))
  {}

  lemma CreditsKept(s: System, event: Snd.Event)
    requires Credits(s) && Snd.Enabled(s.snd, event)
    ensures Credits(DoSender(s, event))
  {
    Snd.CreditsAccounted(s.snd, event);
    Snd.BodyOnlyGrows(s.snd, event);
  }

  lemma ReceiverPartKeeps(c: Config, s: System, step: Step)
    requires Rcv.Inv(s.rcv) && Log(s) && Delivery(s) && Can(c, s, step) && !step.Sender?
    ensures Rcv.Inv(Do(c, s, step).rcv) && Delivery(Do(c, s, step))
  {
    match step {
      case DeliverData(chunk) =>
        Rcv.DataKeepsInv(s.rcv, Some(chunk.offset), chunk.payload, false, c.maxBody, true);
        DeliveryKeptByData(c, s, chunk);
      case DeliverEnd =>
        if s.rcv.live && !s.rcv.ended { Rcv.WithEndKeepsInv(s.rcv); }
        DeliveryKeptByEnd(c, s);
      case Receiver(event) =>
        Rcv.ApplyKeepsInv(s.rcv, event, c.maxBody);
        DeliveryKeptByReceiver(c, s, event);
      case _ =>
    }
  }

  lemma SenderUntouched(c: Config, s: System, step: Step)
    requires Can(c, s, step) && !step.Sender?
    ensures var after := Do(c, s, step);
            && after.snd == s.snd && after.log == s.log && after.acked == s.acked
            && after.granted == s.granted && after.taken == s.taken && after.frames == s.frames
  {}

  lemma ReceiverStepKeeps(c: Config, s: System, step: Step)
    requires Inv(c, s) && Can(c, s, step) && !step.Sender?
    ensures Inv(c, Do(c, s, step))
  {
    ReceiverPartKeeps(c, s, step);
    SenderUntouched(c, s, step);
    EndingKeptByReceiver(c, s, step);
  }

  lemma EndingKeptByReceiver(c: Config, s: System, step: Step)
    requires Ending(c, s) && Can(c, s, step) && !step.Sender?
    ensures Ending(c, Do(c, s, step))
  {
    if step.Receiver? { Rcv.EndedIsFinal(s.rcv, step.event, c.maxBody); }
  }

  lemma StepKeeps(c: Config, s: System, step: Step)
    requires Inv(c, s) && Can(c, s, step)
    ensures Inv(c, Do(c, s, step))
  {
    if step.Sender? { SenderStepKeeps(c, s, step.sent); } else { ReceiverStepKeeps(c, s, step); }
  }

  /** The invariant holds in every reachable state. */
  lemma {:induction false} RunKeeps(c: Config, steps: seq<Step>)
    requires c.limits.chunk > 0
    ensures Exec(c, steps).Some? ==> Inv(c, Exec(c, steps).value)
  {
    if steps != [] {
      var prefix := steps[..|steps| - 1];
      RunKeeps(c, prefix);
      if Exec(c, steps).Some? {
        StepKeeps(c, Exec(c, prefix).value, steps[|steps| - 1]);
      }
    }
  }

  lemma ExecMore(c: Config, steps: seq<Step>, step: Step)
    requires Exec(c, steps).Some? && Can(c, Exec(c, steps).value, step)
    ensures Exec(c, steps + [step]) == Some(Do(c, Exec(c, steps).value, step))
  {
    assert (steps + [step])[..|steps|] == steps;
  }

  /** One more step of the sender. */
  lemma SenderMoves(c: Config, s: System, steps: seq<Step>, event: Snd.Event) returns (longer: seq<Step>, next: System)
    requires Exec(c, steps) == Some(s) && Can(c, s, Sender(event))
    ensures longer == steps + [Sender(event)] && Exec(c, longer) == Some(next)
    ensures next.snd == Snd.Apply(s.snd, event) && next.rcv == s.rcv && next.acks == s.acks
    ensures next.log == DoSender(s, event).log
  {
    ExecMore(c, steps, Sender(event));
    longer := steps + [Sender(event)];
    next := Do(c, s, Sender(event));
  }

  // ---- what holds in every reachable state

  /** The chunk that covers a position between the first chunk's offset and the end of the run. */
  lemma {:induction false} ChainCovers(chunks: seq<Snd.Chunk>, end: nat, position: nat, from: nat) returns (i: nat)
    requires Snd.Chain(chunks, end) && from < |chunks| && chunks[from].offset <= position < end
    ensures i < |chunks| && chunks[i].offset <= position < chunks[i].End()
    decreases |chunks| - from
  {
    if position < chunks[from].End() {
      i := from;
    } else {
      i := ChainCovers(chunks, end, position, from + 1);
    }
  }

  /** The byte at this position of the body is held for replay, with its right value. */
  ghost predicate Held(snd: Snd.Sender, p: nat) {
    exists i :: 0 <= i < |snd.unacked| && snd.unacked[i].offset <= p < snd.unacked[i].End()
                && p < |snd.produced| && snd.unacked[i].payload[p - snd.unacked[i].offset] == snd.produced[p]
  }

  lemma HeldFromLow(s: System, p: nat)
    requires Snd.Chain(s.snd.unacked, s.snd.nextOffset)
    requires Snd.Slices(s.snd.unacked, s.snd.produced, s.snd.limits.chunk)
    requires Low(s) <= p < s.snd.nextOffset
    ensures Held(s.snd, p)
  {
    var i := ChainCovers(s.snd.unacked, s.snd.nextOffset, p, 0);
    var chunk := s.snd.unacked[i];
    assert SliceAt(s.snd.produced, chunk.offset, chunk.payload);
    assert chunk.payload[p - chunk.offset] == s.snd.produced[p];
  }

  lemma UpstreamIsPrefix(s: System)
    requires Delivery(s)
    ensures s.rcv.upstream <= s.snd.produced
  {
    assert s.rcv.upstream == s.snd.produced[..s.rcv.received][..|s.rcv.upstream|];
  }

  /** Nothing the receiver still lacks can be lost: whatever was dropped, duplicated or reordered, every
      acknowledgement is at most `received`, every byte from `received` to `next_offset` is still held
      unacknowledged with its right value, and what the upstream got is a prefix of the body. */
  lemma NothingLost(c: Config, steps: seq<Step>)
    requires c.limits.chunk > 0 && Exec(c, steps).Some?
    ensures var s := Exec(c, steps).value;
            && (forall a :: a in s.acks ==> a <= s.rcv.received)
            && s.rcv.received <= s.snd.nextOffset <= |s.snd.produced| <= c.limits.body
            && s.rcv.upstream <= s.snd.produced
            && s.rcv.consumed == |s.rcv.upstream|
            && forall p :: s.rcv.received <= p < s.snd.nextOffset ==> Held(s.snd, p)
  {
    RunKeeps(c, steps);
    var s := Exec(c, steps).value;
    UpstreamIsPrefix(s);
    forall p | s.rcv.received <= p < s.snd.nextOffset ensures Held(s.snd, p) {
      HeldFromLow(s, p);
    }
  }

  /** The list kept for replay is a gap-free run of nonempty slices of the body within the chunk limit,
      ending at `next_offset`; every frame whose sending completed, first send or replay, had its own
      credit, and no credit was taken for anything else, but one that a failed response may waste; and never
      more than one window of credits is held. */
  lemma SenderAccounts(c: Config, steps: seq<Step>)
    requires c.limits.chunk > 0 && Exec(c, steps).Some?
    ensures var s := Exec(c, steps).value;
            && Snd.Chain(s.snd.unacked, s.snd.nextOffset)
            && Snd.Slices(s.snd.unacked, s.snd.produced, c.limits.chunk)
            && s.snd.nextOffset <= c.limits.body
            && s.frames + Snd.InHand(s.snd) <= s.taken
            && s.taken <= s.frames + Snd.InHand(s.snd) + (if s.snd.main == Snd.Failed then 1 else 0)
            && s.taken + s.snd.credits == s.granted
            && (c.limits.window > 0 ==> s.snd.credits <= c.limits.window)
  {
    RunKeeps(c, steps);
  }

  // ---- replay

  /** Delivering chunks one after the other. */
  function Deliver(r: Rcv.Receiver, chunks: seq<Snd.Chunk>, maxBody: nat): Rcv.Receiver
    decreases |chunks|
  {
    if chunks == [] then r
    else Deliver(Rcv.OnData(r, Some(chunks[0].offset), chunks[0].payload, false, maxBody, true).0, chunks[1..], maxBody)
  }

  /** Each of them is either already there or exactly the next one. */
  ghost predicate Smooth(r: Rcv.Receiver, chunks: seq<Snd.Chunk>, maxBody: nat)
    decreases |chunks|
  {
    chunks == [] ||
    var (after, outcome) := Rcv.OnData(r, Some(chunks[0].offset), chunks[0].payload, false, maxBody, true);
    (outcome.Duplicate? || outcome.Accepted?) && Smooth(after, chunks[1..], maxBody)
  }

  /** How many of the chunks the receiver does not have. */
  function Missing(chunks: seq<Snd.Chunk>, received: nat): nat {
    if chunks == [] then 0
    else (if chunks[0].offset >= received then 1 else 0) + Missing(chunks[1..], received)
  }

  lemma {:induction false} AllMissing(chunks: seq<Snd.Chunk>, received: nat)
    requires forall i :: 0 <= i < |chunks| ==> chunks[i].offset >= received
    ensures Missing(chunks, received) == |chunks|
  {
    if chunks != [] { AllMissing(chunks[1..], received); }
  }

  /** Once the receiver stands at the first chunk, all are accepted. */
  lemma {:induction false} AcceptAll(r: Rcv.Receiver, chunks: seq<Snd.Chunk>, end: nat, maxBody: nat)
    requires Snd.Chain(chunks, end) && end <= maxBody && r.live && !r.ended
    requires r.received == (if chunks == [] then end else chunks[0].offset)
    requires r.window > 0 ==> |r.queue| + |chunks| <= r.window
    ensures Smooth(r, chunks, maxBody) && Deliver(r, chunks, maxBody).received == end
    decreases |chunks|
  {
    if chunks != [] {
      Snd.ChainBelowEnd(chunks, end, 0);
      var (after, outcome) := Rcv.OnData(r, Some(chunks[0].offset), chunks[0].payload, false, maxBody, true);
      assert outcome == Rcv.Accepted;
      Snd.ChainTail(chunks, end);
      AcceptAll(after, chunks[1..], end, maxBody);
    }
  }

  lemma {:induction false} CatchUp(r: Rcv.Receiver, chunks: seq<Snd.Chunk>, end: nat, maxBody: nat)
    requires Snd.Chain(chunks, end) && end <= maxBody && r.live && !r.ended
    requires Boundary(chunks, end, r.received)
    requires (if chunks == [] then end else chunks[0].offset) <= r.received <= end
    requires r.window > 0 ==> |r.queue| + Missing(chunks, r.received) <= r.window
    ensures Smooth(r, chunks, maxBody) && Deliver(r, chunks, maxBody).received == end
    decreases |chunks|
  {
    if chunks == [] || chunks[0].offset == r.received {
      forall i | 0 <= i < |chunks| ensures chunks[i].offset >= r.received {
        if i > 0 { Snd.ChainGrows(chunks, end, 0, i); }
      }
      AllMissing(chunks, r.received);
      AcceptAll(r, chunks, end, maxBody);
    } else {
      assert chunks[0].End() <= r.received by {
        if r.received != end {
          var i :| 0 <= i < |chunks| && chunks[i].offset == r.received;
          Snd.ChainGrows(chunks, end, 0, i);
        } else {
          Snd.ChainBelowEnd(chunks, end, 0);
        }
      }
      Snd.ChainTail(chunks, end);
      BoundaryTail(chunks, end, r.received);
      CatchUp(r, chunks[1..], end, maxBody);
    }
  }

  lemma BoundaryTail(chunks: seq<Snd.Chunk>, end: nat, offset: nat)
    requires Boundary(chunks, end, offset) && chunks != [] && chunks[0].offset != offset
    ensures Boundary(chunks[1..], end, offset)
  {
    if offset != end {
      var i :| 0 <= i < |chunks| && chunks[i].offset == offset;
      assert chunks[1..][i - 1].offset == offset;
    }
  }

  lemma {:induction false} DeliverInOrder(r: Rcv.Receiver, chunks: seq<Snd.Chunk>, maxBody: nat, body: Bytes)
    requires Rcv.Inv(r) && Rcv.InOrder(r, body)
    requires forall i :: 0 <= i < |chunks| ==> SliceAt(body, chunks[i].offset, chunks[i].payload)
    ensures Rcv.InOrder(Deliver(r, chunks, maxBody), body)
    decreases |chunks|
  {
    if chunks != [] {
      Rcv.DataKeepsInOrder(r, chunks[0].offset, chunks[0].payload, false, maxBody, body);
      Rcv.DataKeepsInv(r, Some(chunks[0].offset), chunks[0].payload, false, maxBody, true);
      DeliverInOrder(Rcv.OnData(r, Some(chunks[0].offset), chunks[0].payload, false, maxBody, true).0,
                     chunks[1..], maxBody, body);
    }
  }

  lemma {:induction false} BoundaryOfRest(log: seq<Snd.Chunk>, end: nat, k: nat, offset: nat)
    requires Snd.Chain(log, end) && k <= |log| && Boundary(log, end, offset)
    requires (if k == |log| then end else log[k].offset) <= offset
    ensures Boundary(log[k..], end, offset)
  {
    if offset != end {
      var i :| 0 <= i < |log| && log[i].offset == offset;
      if i < k {
        assert log[i].payload != [];
        if k < |log| { Snd.ChainGrows(log, end, i, k); } else { Snd.ChainBelowEnd(log, end, i); }
      }
      assert log[k..][i - k].offset == offset;
    }
  }

  /** Replay catches up from wherever the losses left the receiver: sending the unacknowledged chunks in
      order meets only duplicates and then exactly the next chunks, never a gap or an overlap, and
      leaves the receiver with the body up to `next_offset`. */
  lemma ReplayCatchesUp(c: Config, steps: seq<Step>)
    requires c.limits.chunk > 0 && Exec(c, steps).Some?
    requires var s := Exec(c, steps).value;
             && s.rcv.live && !s.rcv.ended
             && s.snd.nextOffset <= c.maxBody
             && (s.rcv.window > 0 ==> |s.rcv.queue| + Missing(s.snd.unacked, s.rcv.received) <= s.rcv.window)
    ensures var s := Exec(c, steps).value;
            var after := Deliver(s.rcv, s.snd.unacked, c.maxBody);
            && Smooth(s.rcv, s.snd.unacked, c.maxBody)
            && after.received == s.snd.nextOffset
            && s.snd.nextOffset <= |s.snd.produced|
            && after.upstream + Rcv.Queued(after.queue) == s.snd.produced[..s.snd.nextOffset]
  {
    RunKeeps(c, steps);
    var s := Exec(c, steps).value;
    assert Snd.Chain(s.snd.unacked, s.snd.nextOffset);
    BoundaryOfRest(s.log, s.snd.nextOffset, s.acked, s.rcv.received);
    CatchUp(s.rcv, s.snd.unacked, s.snd.nextOffset, c.maxBody);
    DeliverInOrder(s.rcv, s.snd.unacked, c.maxBody, s.snd.produced);
  }

  /** When the sender begins its replay with credits for it, the frames it sends, received in order, bring
      the receiver from wherever it is to everything ever cut from the body. */
  lemma ReplayRecovers(c: Config, steps: seq<Step>)
    requires c.limits.chunk > 0 && Exec(c, steps).Some?
    requires var s := Exec(c, steps).value;
             && s.snd.loop == Snd.Replaying(0, None) && s.snd.link == Snd.Up && s.snd.credits >= |s.snd.unacked|
             && s.rcv.live && !s.rcv.ended && s.snd.nextOffset <= c.maxBody
             && (s.rcv.window > 0 ==> |s.rcv.queue| + Missing(s.snd.unacked, s.rcv.received) <= s.rcv.window)
    ensures var s := Exec(c, steps).value;
            var (after, sent) := Snd.ReplayAll(s.snd);
            && after.ready && after.loop == Snd.Waiting
            && Smooth(s.rcv, sent, c.maxBody)
            && Deliver(s.rcv, sent, c.maxBody).received == after.nextOffset == s.snd.nextOffset
  {
    var s := Exec(c, steps).value;
    Snd.ReplaySendsAll(s.snd, 0);
    assert s.snd.unacked[0..] == s.snd.unacked;
    ReplayCatchesUp(c, steps);
  }

  // ---- the end of the body

  /** A receiver that saw the end of the stream passed on the whole body. */
  ghost predicate Complete(s: System) {
    s.rcv.consumer == Rcv.Drained ==> s.rcv.upstream == s.snd.produced
  }

  lemma DeclaredIsComplete(c: Config, steps: seq<Step>)
    requires c.limits.chunk > 0 && c.contentLength.Some? && Exec(c, steps).Some?
    ensures Complete(Exec(c, steps).value)
  {
    RunKeeps(c, steps);
    var s := Exec(c, steps).value;
    if s.rcv.consumer == Rcv.Drained {
      assert s.rcv.upstream == s.snd.produced[..s.rcv.received];
      assert |s.snd.produced| == s.rcv.received;
    }
  }

  /** A sender that sent its first byte. */
  function OneByteSent(limits: Snd.Limits): Snd.Sender {
    Snd.Fresh(limits).(size := 1, produced := [7], nextOffset := 1, unacked := [Snd.Chunk(0, [7])])
  }

  lemma GrantOne(c: Config) returns (steps: seq<Step>, s: System)
    ensures Exec(c, steps) == Some(s) && s.log == [] && s.rcv == Start(c).rcv
    ensures s.snd == Snd.Fresh(c.limits).(credits := 1)
  {
    var none: seq<Step> := [];
    NoSteps(c, none);
    FirstGrant(c.limits);
    steps, s := SenderMoves(c, Start(c), none, Snd.WindowFrame(1, None, false, 1));
  }

  lemma NoSteps(c: Config, steps: seq<Step>)
    requires steps == []
    ensures Exec(c, steps) == Some(Start(c))
  {}

  lemma ReadOneByte(c: Config) returns (steps: seq<Step>, s: System)
    requires c.limits.chunk > 0 && c.limits.body > 0
    ensures Exec(c, steps) == Some(s) && s.log == [] && s.rcv == Start(c).rcv
    ensures s.snd == Snd.Fresh(c.limits).(credits := 1, size := 1, raw := [7], produced := [7], main := Snd.AwaitReady)
  {
    steps, s := GrantOne(c);
    FirstByte(c.limits);
    steps, s := SenderMoves(c, s, steps, Snd.UpstreamPiece([7]));
  }

  lemma FirstGrant(limits: Snd.Limits)
    ensures Snd.Window(Snd.Fresh(limits), 1, None, false, 1) == Snd.Fresh(limits).(credits := 1)
  {}

  lemma FirstByte(limits: Snd.Limits)
    requires limits.body > 0
    ensures Snd.Read(Snd.Fresh(limits).(credits := 1), [7])
         == Snd.Fresh(limits).(credits := 1, size := 1, raw := [7], produced := [7], main := Snd.AwaitReady)
  {
    assert [] + [7] == [7];
  }

  lemma OneByteCut(c: Config) returns (steps: seq<Step>, s: System)
    requires c.limits.chunk > 0 && c.limits.body > 0
    ensures Exec(c, steps) == Some(s) && s.log == [Snd.Chunk(0, [7])] && s.rcv == Start(c).rcv
    ensures s.snd == OneByteSent(c.limits).(main := Snd.Holding(Snd.Chunk(0, [7])))
  {
    steps, s := ReadOneByte(c);
    steps, s := SenderMoves(c, s, steps, Snd.ReadyPassed);
    assert [7][..Min(c.limits.chunk, 1)] == [7] && [7][1..] == [];
    assert Snd.NextChunk(s.snd) == Snd.Chunk(0, [7]);
    assert [] + [Snd.Chunk(0, [7])] == [Snd.Chunk(0, [7])];
    steps, s := SenderMoves(c, s, steps, Snd.ChunkAppended);
  }

  lemma SendOneByte(c: Config) returns (steps: seq<Step>, s: System)
    requires c.limits.chunk > 0 && c.limits.body > 0
    ensures Exec(c, steps) == Some(s) && s.log == [Snd.Chunk(0, [7])] && s.rcv == Start(c).rcv
    ensures s.snd == OneByteSent(c.limits)
  {
    steps, s := OneByteCut(c);
    steps, s := SenderMoves(c, s, steps, Snd.FrameSent);
  }

  lemma EndWhileDown(c: Config) returns (steps: seq<Step>, s: System)
    requires c.limits.chunk > 0 && c.limits.body > 0 && c.contentLength.None?
    ensures Exec(c, steps) == Some(s) && s.rcv == Start(c).rcv
    ensures s.snd == OneByteSent(c.limits).(link := Snd.Down, ready := false, ended := true, main := Snd.Finished)
  {
    steps, s := SendOneByte(c);
    steps, s := SenderMoves(c, s, steps, Snd.ConnectionLost);
    steps, s := SenderMoves(c, s, steps, Snd.UpstreamEnd(None));
  }

  lemma EndBeforeReplay(c: Config) returns (steps: seq<Step>, s: System)
    requires c.limits.chunk > 0 && c.limits.body > 0 && c.contentLength.None?
    ensures Exec(c, steps) == Some(s) && s.rcv == Start(c).rcv
    ensures s.snd.ended && s.snd.produced == [7] && s.snd.link == Snd.Up
  {
    steps, s := EndWhileDown(c);
    steps, s := SenderMoves(c, s, steps, Snd.Reconnected);
  }

  /** One byte is sent, the connection drops with it, the end frame goes out on the next connection
      before any replay, and the receiver, which has no length to compare with, takes it. */
  lemma UndeclaredCanBeCutShort(c: Config) returns (steps: seq<Step>)
    requires c.limits.chunk > 0 && c.limits.body > 0 && c.contentLength.None?
    ensures Exec(c, steps).Some? && !Complete(Exec(c, steps).value)
  {
    var s;
    steps, s := EndBeforeReplay(c);
    ExecMore(c, steps, DeliverEnd);
    steps := steps + [DeliverEnd];
    s := Exec(c, steps).value;
    assert s.rcv.queue == [Rcv.Eof];
    ExecMore(c, steps, Receiver(Rcv.ConsumerGet));
    steps := steps + [Receiver(Rcv.ConsumerGet)];
    assert Exec(c, steps).value.rcv.upstream == [];
  }

  /** The end of a response can be trusted exactly when its length was declared. */
  lemma EndIsTrustedIffDeclared(c: Config)
    requires c.limits.chunk > 0 && c.limits.body > 0
    ensures (forall steps :: Exec(c, steps).Some? ==> Complete(Exec(c, steps).value)) <==> c.contentLength.Some?
  {
    if c.contentLength.Some? {
      forall steps | Exec(c, steps).Some? ensures Complete(Exec(c, steps).value) {
        DeclaredIsComplete(c, steps);
      }
    } else {
      var steps := UndeclaredCanBeCutShort(c);
    }
  }
}
