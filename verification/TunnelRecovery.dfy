/**
 What becomes of a response when the connection breaks: from which states the client comes back, which
 window frame lets a replay end, and that a replay that can end brings the receiver up to date.
 */
module TunnelRecovery {
  import opened Bytes
  import opened TunnelRuns
  import Snd = ResponseStreams
  import Rcv = RequestStreams

  // ---- a receive loop that is stuck

  ghost predicate StillStuck(before: Snd.Sender, after: Snd.Sender) {
    && Snd.Wedged(after) && after.loop != Snd.Waiting && after.link != Snd.Down
    && (Snd.InReplay(before) ==> Snd.InReplay(after) && !after.ready)
    && (before.link == Snd.Dropped ==> after.link == Snd.Dropped)
  }

  lemma StuckStep(c: Config, s: System, step: Step)
    requires Snd.Inv(s.snd) && Snd.Wedged(s.snd) && s.snd.link != Snd.Down && Can(c, s, step)
    ensures StillStuck(s.snd, s.snd) && StillStuck(s.snd, Do(c, s, step).snd)
  {
    if step.Sender? { Snd.WedgedStays(s.snd, step.sent); }
  }

  lemma StuckAtFirst(snd: Snd.Sender)
    requires Snd.Inv(snd) && Snd.Wedged(snd) && snd.link != Snd.Down
    ensures StillStuck(snd, snd)
  {}

  lemma LastStep(c: Config, run: seq<Step>, front: seq<Step>, last: Step)
    requires run == front + [last] && Exec(c, run).Some?
    ensures Exec(c, front).Some? && Can(c, Exec(c, front).value, last)
    ensures Exec(c, run) == Some(Do(c, Exec(c, front).value, last))
  {
    assert run[..|run| - 1] == front;
  }

  /** A receive loop that is stuck stays so whatever happens, and with it the client on a broken connection. */
  lemma {:induction false} WedgedForever(c: Config, s: System, steps: seq<Step>, more: seq<Step>)
    requires c.limits.chunk > 0 && Exec(c, steps) == Some(s) && Exec(c, steps + more).Some?
    requires Snd.Wedged(s.snd) && s.snd.link != Snd.Down
    ensures StillStuck(s.snd, Exec(c, steps + more).value.snd)
    decreases |more|
  {
    if more == [] {
      assert steps + more == steps;
      SenderInv(c, s, steps);
      StuckAtFirst(s.snd);
    } else {
      var front := more[..|more| - 1];
      assert steps + more == steps + front + [more[|more| - 1]];
      LastStep(c, steps + more, steps + front, more[|more| - 1]);
      WedgedForever(c, s, steps, front);
      var before := Exec(c, steps + front).value;
      SenderInv(c, before, steps + front);
      StuckStep(c, before, more[|more| - 1]);
    }
  }

  lemma SenderInv(c: Config, s: System, steps: seq<Step>)
    requires c.limits.chunk > 0 && Exec(c, steps) == Some(s)
    ensures Snd.Inv(s.snd)
  {
    RunKeeps(c, steps);
  }

  /** What gets the receive loop on when it is not stuck. */
  function NextStep(snd: Snd.Sender): Snd.Event
    requires snd.loop != Snd.Waiting
  {
    match snd.loop
    case Answering => Snd.AnswerSent
    case Putting(taker) => if taker == Snd.Owing then Snd.CreditOut else Snd.RoomMade
    case AwaitLock => Snd.FrameSent
    case Replaying(next, inHand) =>
      if inHand.Some? then Snd.ReplayFrameSent
      else if next < |snd.unacked| then Snd.ReplayTaken
      else Snd.ReplayOver
  }

  /** A bound on the number of such steps. */
  function Ahead(snd: Snd.Sender): nat {
    match snd.loop
    case Waiting => 0
    case Answering => 1
    case Putting(taker) => if taker == Snd.Owing then 2 else 1
    case AwaitLock => 2 * |snd.unacked| + 2
    case Replaying(next, inHand) => 2 * Max(0, |snd.unacked| - next) + (if inHand.Some? then 0 else 1)
  }

  lemma NextStepGoesOn(snd: Snd.Sender)
    requires Snd.Inv(snd) && snd.loop != Snd.Waiting && !Snd.Wedged(snd)
    ensures Snd.Enabled(snd, NextStep(snd))
    ensures var after := Snd.Apply(snd, NextStep(snd));
            && after.link == snd.link
            && (after.loop == Snd.Waiting ==> Snd.InReplay(snd) ==> after.ready)
            && (after.loop != Snd.Waiting ==>
                  && !Snd.Wedged(after) && Ahead(after) < Ahead(snd)
                  && (Snd.InReplay(after) <==> Snd.InReplay(snd)))
  {}

  /** After these steps the receive loop waits for a frame, the connection and the receiver being as they are
      in `s`, and a replay that was under way is over. */
  ghost predicate GoesOn(c: Config, s: System, steps: seq<Step>) {
    && Exec(c, steps).Some?
    && var after := Exec(c, steps).value;
       && after.snd.loop == Snd.Waiting && after.snd.link == s.snd.link && after.rcv == s.rcv
       && (Snd.InReplay(s.snd) ==> after.snd.ready)
  }

  lemma LoopMoves(c: Config, s: System, steps: seq<Step>) returns (longer: seq<Step>, next: System)
    requires c.limits.chunk > 0 && Exec(c, steps) == Some(s)
    requires s.snd.loop != Snd.Waiting && !Snd.Wedged(s.snd)
    ensures longer == steps + [Sender(NextStep(s.snd))] && Exec(c, longer) == Some(next)
    ensures if next.snd.loop == Snd.Waiting then GoesOn(c, s, longer)
            else && !Snd.Wedged(next.snd) && Ahead(next.snd) < Ahead(s.snd)
                 && (Snd.InReplay(next.snd) <==> Snd.InReplay(s.snd))
                 && next.snd.link == s.snd.link && next.rcv == s.rcv
  {
    RunKeeps(c, steps);
    NextStepGoesOn(s.snd);
    longer, next := SenderMoves(c, s, steps, NextStep(s.snd));
  }

  /** A receive loop that is not stuck can be left to go on. */
  lemma {:induction false} LoopCanGoOn(c: Config, s: System, steps: seq<Step>) returns (more: seq<Step>)
    requires c.limits.chunk > 0 && Exec(c, steps) == Some(s)
    requires s.snd.loop != Snd.Waiting && !Snd.Wedged(s.snd)
    ensures GoesOn(c, s, steps + more)
    decreases Ahead(s.snd)
  {
    var longer, next := LoopMoves(c, s, steps);
    if next.snd.loop == Snd.Waiting {
      more := [Sender(NextStep(s.snd))];
    } else {
      var rest := LoopCanGoOn(c, next, longer);
      more := [Sender(NextStep(s.snd))] + rest;
      assert steps + more == longer + rest;
    }
  }

  /** The receive loop can get back to reading frames if and only if somebody is there to take what it puts into
      a queue, the credits cover the replay it is in, and the connection holds or is not needed. */
  lemma LoopGoesOnIff(c: Config, steps: seq<Step>)
    requires c.limits.chunk > 0 && Exec(c, steps).Some? && Exec(c, steps).value.snd.link != Snd.Down
    ensures var snd := Exec(c, steps).value.snd;
            (exists more :: Exec(c, steps + more).Some? && Exec(c, steps + more).value.snd.loop == Snd.Waiting)
            <==> && snd.loop != Snd.Putting(Snd.Gone)
                 && snd.credits >= Snd.Unpaid(snd)
                 && (snd.link == Snd.Up || Snd.DoneOffline(snd))
  {
    var s := Exec(c, steps).value;
    if Snd.Wedged(s.snd) {
      forall more | Exec(c, steps + more).Some? ensures Exec(c, steps + more).value.snd.loop != Snd.Waiting {
        WedgedForever(c, s, steps, more);
      }
    } else if s.snd.loop == Snd.Waiting {
      assert steps + [] == steps;
    } else {
      var more := LoopCanGoOn(c, s, steps);
      assert Exec(c, steps + more).value.snd.loop == Snd.Waiting;
    }
  }

  lemma LoopLeaves(c: Config, s: System, steps: seq<Step>) returns (longer: seq<Step>, next: System)
    requires Exec(c, steps) == Some(s) && Snd.BetweenFrames(s.snd)
    ensures longer == steps + [Sender(Snd.ConnectionLost), Sender(Snd.Reconnected)] && Exec(c, longer) == Some(next)
    ensures next.snd == Snd.Reconnect(Snd.Disconnect(s.snd)) && next.rcv == s.rcv && next.acks == s.acks
  {
    var one, down := SenderMoves(c, s, steps, Snd.ConnectionLost);
    longer, next := SenderMoves(c, down, one, Snd.Reconnected);
  }

  /** The client comes back. */
  lemma ComesBack(c: Config, s: System, steps: seq<Step>) returns (more: seq<Step>)
    requires c.limits.chunk > 0 && Exec(c, steps) == Some(s) && s.snd.link == Snd.Dropped && !Snd.Wedged(s.snd)
    ensures Exec(c, steps + more).Some? && Exec(c, steps + more).value.snd.link == Snd.Up
  {
    var over: seq<Step> := [];
    assert steps + over == steps;
    if s.snd.loop != Snd.Waiting {
      over := LoopCanGoOn(c, s, steps);
    }
    var longer, next := LoopLeaves(c, Exec(c, steps + over).value, steps + over);
    more := over + [Sender(Snd.ConnectionLost), Sender(Snd.Reconnected)];
    assert longer == steps + more;
  }

  /** On a connection that broke, a receive loop that is stuck keeps the client there. */
  lemma NeverComesBack(c: Config, s: System, steps: seq<Step>)
    requires c.limits.chunk > 0 && Exec(c, steps) == Some(s) && s.snd.link == Snd.Dropped && Snd.Wedged(s.snd)
    ensures forall more :: Exec(c, steps + more).Some? ==> Exec(c, steps + more).value.snd.link == Snd.Dropped
  {
    forall more | Exec(c, steps + more).Some? ensures Exec(c, steps + more).value.snd.link == Snd.Dropped {
      WedgedForever(c, s, steps, more);
    }
  }

  /** Where the receive loop survives a broken connection: it waits for a frame, or puts an end marker into a
      queue that its generator is about to take from, or is in a replay that holds the lock and has nothing
      left to send. */
  predicate Survives(snd: Snd.Sender) {
    match snd.loop
    case Waiting => true
    case Answering => false
    case Putting(taker) => taker == Snd.AtQueue
    case AwaitLock => false
    case Replaying(next, inHand) => next == |snd.unacked| && inHand.None? && !snd.ended
  }

  lemma SurvivesIffNotWedged(snd: Snd.Sender)
    requires Snd.Inv(snd)
    ensures Survives(snd) <==> !Snd.Wedged(snd.(link := Snd.Dropped))
  {}

  /** When the connection breaks, in any reachable state, there can be a next one if and only if the receive loop
      survives it. */
  lemma BreakIsSurvivedIff(c: Config, s: System, steps: seq<Step>)
    requires c.limits.chunk > 0 && Exec(c, steps) == Some(s) && s.snd.link == Snd.Up
    ensures var broken := steps + [Sender(Snd.ConnectionBroke)];
            (exists more :: Exec(c, broken + more).Some? && Exec(c, broken + more).value.snd.link == Snd.Up)
            <==> Survives(s.snd)
  {
    SenderInv(c, s, steps);
    SurvivesIffNotWedged(s.snd);
    var broken, after := SenderMoves(c, s, steps, Snd.ConnectionBroke);
    if Survives(s.snd) {
      var more := ComesBack(c, after, broken);
      assert Exec(c, broken + more).value.snd.link == Snd.Up;
    } else {
      NeverComesBack(c, after, broken);
    }
  }

  lemma PongDue(c: Config) returns (steps: seq<Step>, s: System)
    ensures Exec(c, steps) == Some(s) && s.snd == Snd.Fresh(c.limits).(loop := Snd.Answering)
  {
    var none: seq<Step> := [];
    NoSteps(c, none);
    steps, s := SenderMoves(c, Start(c), none, Snd.AnswerDue);
  }

  /** No replay anywhere: the peer sends a ping, and the connection breaks while the pong is being sent. The
      client never connects again. */
  lemma BreakDuringPong(c: Config) returns (steps: seq<Step>, s: System)
    requires c.limits.chunk > 0
    ensures Exec(c, steps) == Some(s) && s.snd == Snd.Fresh(c.limits).(loop := Snd.Answering, link := Snd.Dropped)
    ensures forall more :: Exec(c, steps + more).Some? ==> Exec(c, steps + more).value.snd.link == Snd.Dropped
  {
    steps, s := PongDue(c);
    steps, s := SenderMoves(c, s, steps, Snd.ConnectionBroke);
    NeverComesBack(c, s, steps);
  }

  /** Who makes room in the queue of a request stream, told from where its generator is. */
  function TakerOf(r: Rcv.Receiver): Snd.Taker {
    if r.consumer == Rcv.AtGet then Snd.AtQueue
    else if r.consumer in {Rcv.AtYield, Rcv.AtSend} then Snd.Owing
    else Snd.Gone
  }

  /** And rightly so: room can come without a connection if and only if the generator waits for the queue, and
      with one if and only if it is not gone. */
  lemma TakerIsRight(r: Rcv.Receiver, maxBody: nat)
    requires Rcv.Inv(r) && r.eofBlocked && Rcv.Full(r)
    ensures (exists events :: Rcv.ConsumerWindowSent !in events && !Rcv.Full(Rcv.Run(r, events, maxBody)))
            <==> TakerOf(r) == Snd.AtQueue
    ensures (exists events :: !Rcv.Full(Rcv.Run(r, events, maxBody))) <==> TakerOf(r) != Snd.Gone
  {
    Rcv.RoomWithoutSendIff(r, maxBody);
    Rcv.RoomIff(r, maxBody);
  }

  // ---- recovery

  /** The sender after the receive loop left and the first window frame of the next connection. */
  function Resumed(snd: Snd.Sender, credits: nat, ack: Option<nat>, negotiatedWindow: nat): Snd.Sender {
    Snd.Window(Snd.Reconnect(Snd.Disconnect(snd)), credits, ack, false, negotiatedWindow)
  }

  function Reconnecting(credits: nat, ack: Option<nat>, negotiatedWindow: nat): seq<Step> {
    [Sender(Snd.ConnectionLost), Sender(Snd.Reconnected),
     Sender(Snd.WindowFrame(credits, ack, false, negotiatedWindow))]
  }

  lemma Reconnects(c: Config, steps: seq<Step>, credits: nat, ack: Option<nat>, negotiatedWindow: nat)
    requires Exec(c, steps).Some? && Snd.BetweenFrames(Exec(c, steps).value.snd)
    requires ack.Some? ==> ack.value in Exec(c, steps).value.acks
    ensures var longer := Exec(c, steps + Reconnecting(credits, ack, negotiatedWindow));
            && longer.Some? && longer.value.rcv == Exec(c, steps).value.rcv
            && longer.value.snd == Resumed(Exec(c, steps).value.snd, credits, ack, negotiatedWindow)
  {
    var back, up := LoopLeaves(c, Exec(c, steps).value, steps);
    var longer, next := SenderMoves(c, up, back, Snd.WindowFrame(credits, ack, false, negotiatedWindow));
    assert longer == steps + Reconnecting(credits, ack, negotiatedWindow);
  }

  lemma ResumedReplays(snd: Snd.Sender, credits: nat, ack: Option<nat>, negotiatedWindow: nat)
    requires snd.registered && Snd.BetweenFrames(snd)
    ensures var resumed := Resumed(snd, credits, ack, negotiatedWindow);
            && resumed.loop == (if snd.main.Holding? then Snd.AwaitLock else Snd.Replaying(0, None))
            && resumed.nextOffset == snd.nextOffset && resumed.main == snd.main && resumed.link == Snd.Up
            && (Snd.Wedged(resumed) <==> resumed.credits < |resumed.unacked|)
  {}

  /** What is sent on the new connection until the response is ready: the slice that the first sender still
      holds, which has the lock, and then the replay. */
  function SentOnReplay(snd: Snd.Sender): (Snd.Sender, seq<Snd.Chunk>)
    requires snd.loop == Snd.Replaying(0, None) || (snd.loop == Snd.AwaitLock && Snd.CanSend(snd))
  {
    if snd.loop == Snd.AwaitLock then
      var (after, rest) := Snd.ReplayAll(Snd.SendDone(snd));
      (after, [snd.main.chunk] + rest)
    else Snd.ReplayAll(snd)
  }

  /** The slice that the first sender still holds is not the next one for the receiver. */
  predicate HeldAhead(s: System) {
    s.snd.main.Holding? && s.snd.main.chunk.offset > s.rcv.received
  }

  /** Sent first, it makes a gap. */
  lemma HeldAheadMakesGap(s: System, rest: seq<Snd.Chunk>, maxBody: nat)
    requires HeldAhead(s) && s.rcv.live
    ensures !Smooth(s.rcv, [s.snd.main.chunk] + rest, maxBody)
  {
    var chunk := s.snd.main.chunk;
    Rcv.ChunkIsJudgedByItsPlace(s.rcv, Some(chunk.offset), chunk.payload, false, maxBody, true);
  }

  lemma {:induction false} SomeMissing(chunks: seq<Snd.Chunk>, received: nat, i: nat)
    requires i < |chunks| && chunks[i].offset >= received
    ensures Missing(chunks, received) >= 1
  {
    if i > 0 { SomeMissing(chunks[1..], received, i - 1); }
  }

  lemma {:induction false} NoneMissing(chunks: seq<Snd.Chunk>, received: nat)
    requires forall i :: 0 <= i < |chunks| ==> chunks[i].offset < received
    ensures Missing(chunks, received) == 0
  {
    if chunks != [] { NoneMissing(chunks[1..], received); }
  }

  /** The held slice is the last one cut; when it is not ahead, the receiver has it or takes it next. */
  lemma HeldIsLast(c: Config, s: System)
    requires Inv(c, s) && s.snd.main.Holding? && !HeldAhead(s)
    ensures var chunk := s.snd.main.chunk;
            && chunk.End() == s.snd.nextOffset && chunk.payload != []
            && (chunk.offset == s.rcv.received || s.rcv.received == s.snd.nextOffset)
            && (chunk.offset == s.rcv.received ==>
                  s.snd.unacked != [] && s.snd.unacked[|s.snd.unacked| - 1] == chunk)
  {
    var last := |s.log| - 1;
    if s.rcv.received != s.snd.nextOffset {
      var i :| 0 <= i < |s.log| && s.log[i].offset == s.rcv.received;
      if i < last { Snd.ChainGrows(s.log, s.snd.nextOffset, i, last); }
    }
  }

  lemma AllBeforeEnd(chunks: seq<Snd.Chunk>, end: nat)
    requires Snd.Chain(chunks, end)
    ensures forall i :: 0 <= i < |chunks| ==> chunks[i].offset < end
  {
    forall i | 0 <= i < |chunks| ensures chunks[i].offset < end {
      Snd.ChainBelowEnd(chunks, end, i);
      assert chunks[i].payload != [];
    }
  }

  /** A slice that ends where the run of chunks ends and is the receiver's next. */
  lemma NextThenReplay(r: Rcv.Receiver, chunk: Snd.Chunk, chunks: seq<Snd.Chunk>, maxBody: nat)
    requires Snd.Chain(chunks, chunk.End()) && chunk.End() <= maxBody && r.live && !r.ended
    requires chunk.offset == r.received && chunks != [] && chunks[|chunks| - 1] == chunk
    requires r.window > 0 ==> |r.queue| + Missing(chunks, r.received) <= r.window
    ensures Smooth(r, [chunk] + chunks, maxBody) && Deliver(r, [chunk] + chunks, maxBody).received == chunk.End()
  {
    SomeMissing(chunks, r.received, |chunks| - 1);
    var (after, outcome) := Rcv.OnData(r, Some(chunk.offset), chunk.payload, false, maxBody, true);
    assert outcome == Rcv.Accepted && after.received == chunk.End() && |after.queue| == |r.queue| + 1;
    AllBeforeEnd(chunks, chunk.End());
    NoneMissing(chunks, chunk.End());
    CatchUp(after, chunks, chunk.End(), maxBody);
    assert ([chunk] + chunks)[1..] == chunks;
  }

  /** A slice that the receiver has already. */
  lemma OldThenReplay(r: Rcv.Receiver, chunk: Snd.Chunk, chunks: seq<Snd.Chunk>, maxBody: nat)
    requires r.live && chunk.offset < chunk.End() <= r.received && Smooth(r, chunks, maxBody)
    ensures Smooth(r, [chunk] + chunks, maxBody)
    ensures Deliver(r, [chunk] + chunks, maxBody) == Deliver(r, chunks, maxBody)
  {
    assert ([chunk] + chunks)[1..] == chunks;
  }

  /** With the held slice first, the frames are still taken smoothly. */
  lemma HeldThenReplay(c: Config, s: System, steps: seq<Step>)
    requires c.limits.chunk > 0 && Exec(c, steps) == Some(s)
    requires s.snd.main.Holding? && !HeldAhead(s)
    requires s.rcv.live && !s.rcv.ended && s.snd.nextOffset <= c.maxBody
    requires s.rcv.window > 0 ==> |s.rcv.queue| + Missing(s.snd.unacked, s.rcv.received) <= s.rcv.window
    ensures var frames := [s.snd.main.chunk] + s.snd.unacked;
            Smooth(s.rcv, frames, c.maxBody) && Deliver(s.rcv, frames, c.maxBody).received == s.snd.nextOffset
  {
    RunKeeps(c, steps);
    HeldIsLast(c, s);
    if s.snd.main.chunk.offset == s.rcv.received {
      NextThenReplay(s.rcv, s.snd.main.chunk, s.snd.unacked, c.maxBody);
    } else {
      ReplayCatchesUp(c, steps);
      OldThenReplay(s.rcv, s.snd.main.chunk, s.snd.unacked, c.maxBody);
    }
  }

  /** Recovery, end to end: from every reachable state of an unfinished stream whose receive loop waits for a
      frame, when the connection is lost, a window frame on the next one, with any acknowledgement ever sent
      and credits for what is left, makes the sender send what brings the receiver to everything ever cut from
      the body. Only a slice that the first sender still held at the loss can disturb this: it goes out first,
      and makes a gap if and only if the receiver lacks what comes before it. */
  lemma ReconnectRecovers(c: Config, steps: seq<Step>, credits: nat, ack: Option<nat>, negotiatedWindow: nat)
    requires c.limits.chunk > 0 && Exec(c, steps).Some?
    requires var s := Exec(c, steps).value;
             var resumed := Resumed(s.snd, credits, ack, negotiatedWindow);
             && Snd.BetweenFrames(s.snd) && s.snd.registered && (ack.Some? ==> ack.value in s.acks)
             && resumed.credits >= |resumed.unacked|
             && s.rcv.live && !s.rcv.ended && s.snd.nextOffset <= c.maxBody
             && (s.rcv.window > 0 ==> |s.rcv.queue| + Missing(resumed.unacked, s.rcv.received) <= s.rcv.window)
    ensures var s := Exec(c, steps).value;
            var resumed := Resumed(s.snd, credits, ack, negotiatedWindow);
            && (resumed.loop == Snd.Replaying(0, None) || (resumed.loop == Snd.AwaitLock && Snd.CanSend(resumed)))
            && var (after, sent) := SentOnReplay(resumed);
               && after.ready && after.loop == Snd.Waiting
               && (Smooth(s.rcv, sent, c.maxBody) <==> !HeldAhead(s))
               && (!HeldAhead(s) ==> Deliver(s.rcv, sent, c.maxBody).received == s.snd.nextOffset)
  {
    var s := Exec(c, steps).value;
    var longer := steps + Reconnecting(credits, ack, negotiatedWindow);
    Reconnects(c, steps, credits, ack, negotiatedWindow);
    ResumedReplays(s.snd, credits, ack, negotiatedWindow);
    var resumed := Exec(c, longer).value.snd;
    if resumed.loop == Snd.AwaitLock {
      LockedReplaySends(resumed);
      if HeldAhead(s) {
        HeldAheadMakesGap(s, resumed.unacked, c.maxBody);
      } else {
        HeldThenReplay(c, Exec(c, longer).value, longer);
      }
    } else {
      ReplayRecovers(c, longer);
    }
  }

  lemma LockedReplaySends(snd: Snd.Sender)
    requires snd.loop == Snd.AwaitLock && Snd.CanSend(snd) && snd.credits >= |snd.unacked|
    ensures var (after, sent) := SentOnReplay(snd);
            after.ready && after.loop == Snd.Waiting && sent == [snd.main.chunk] + snd.unacked
  {
    Snd.ReplaySendsAll(Snd.SendDone(snd), 0);
    assert snd.unacked[0..] == snd.unacked;
  }

  /** And the credits are needed: the response can become ready again if and only if the first window frame
      of the next connection leaves a credit for each chunk still unacknowledged. */
  lemma ReadyAgainIffCovered(c: Config, steps: seq<Step>, credits: nat, ack: Option<nat>, negotiatedWindow: nat)
    requires c.limits.chunk > 0 && Exec(c, steps).Some?
    requires var s := Exec(c, steps).value;
             Snd.BetweenFrames(s.snd) && s.snd.registered && (ack.Some? ==> ack.value in s.acks)
    ensures var resumed := Resumed(Exec(c, steps).value.snd, credits, ack, negotiatedWindow);
            var longer := steps + Reconnecting(credits, ack, negotiatedWindow);
            (exists more :: Exec(c, longer + more).Some? && Exec(c, longer + more).value.snd.ready)
            <==> resumed.credits >= |resumed.unacked|
  {
    var longer := steps + Reconnecting(credits, ack, negotiatedWindow);
    Reconnects(c, steps, credits, ack, negotiatedWindow);
    ResumedReplays(Exec(c, steps).value.snd, credits, ack, negotiatedWindow);
    if Snd.Wedged(Exec(c, longer).value.snd) {
      forall more | Exec(c, longer + more).Some? ensures !Exec(c, longer + more).value.snd.ready {
        WedgedForever(c, Exec(c, longer).value, longer, more);
      }
    } else {
      var more := LoopCanGoOn(c, Exec(c, longer).value, longer);
      assert Exec(c, longer + more).value.snd.ready;
    }
  }

  /** With a window of one: a byte waits in the receiver's queue, the connection is lost, and the receiver
      answers the begin on the next one by its rules, with no credit and nothing acknowledged. The replay of
      that byte never ends. */
  lemma FullReceiverWedges(c: Config) returns (steps: seq<Step>)
    requires c.limits == Snd.Limits(1, 1, 1) && c.receiverWindow == 1 && c.maxBody > 0
    ensures Exec(c, steps).Some?
    ensures var s := Exec(c, steps).value;
            var answer := Rcv.BeginReply(s.rcv, c.receiverWindow);
            && Snd.BetweenFrames(s.snd) && s.snd.registered && answer == Rcv.Grant(0, 0) && 0 in s.acks
            && Snd.Wedged(Resumed(s.snd, answer.credits, Some(answer.ackOffset), 1))
  {
    var s;
    steps, s := SendOneByte(c);
    ExecMore(c, steps, DeliverData(Snd.Chunk(0, [7])));
    steps := steps + [DeliverData(Snd.Chunk(0, [7]))];
    assert Exec(c, steps).value.rcv.queue == [Rcv.Body([7])];
    ExecMore(c, steps, BeginAgain);
    steps := steps + [BeginAgain];
    var snd := OneByteSent(c.limits);
    assert Exec(c, steps).value.snd == snd;
    assert Snd.Unacked(snd.unacked, 0) == snd.unacked by { assert snd.unacked[1..] == []; }
  }

  /** A slice is cut, delivered, taken and acknowledged before its send returns; the connection is lost. */
  lemma HeldAndAcknowledged(c: Config) returns (steps: seq<Step>, s: System)
    requires c.limits.chunk > 0 && c.limits.body > 0 && c.maxBody > 0
    ensures Exec(c, steps) == Some(s) && 1 in s.acks
    ensures s.snd == OneByteSent(c.limits).(main := Snd.Holding(Snd.Chunk(0, [7])))
  {
    steps, s := OneByteCut(c);
    ExecMore(c, steps, DeliverData(Snd.Chunk(0, [7])));
    s := Do(c, s, DeliverData(Snd.Chunk(0, [7])));
    steps := steps + [DeliverData(Snd.Chunk(0, [7]))];
    assert s.rcv.queue == [Rcv.Body([7])];
    ExecMore(c, steps, Receiver(Rcv.ConsumerGet));
    s := Do(c, s, Receiver(Rcv.ConsumerGet));
    steps := steps + [Receiver(Rcv.ConsumerGet)];
    ExecMore(c, steps, Receiver(Rcv.ConsumerResume));
    s := Do(c, s, Receiver(Rcv.ConsumerResume));
    steps := steps + [Receiver(Rcv.ConsumerResume)];
  }

  lemma AnsweredWhileLocked(c: Config) returns (steps: seq<Step>, s: System)
    requires c.limits.chunk > 0 && c.limits.body > 0 && c.maxBody > 0
    ensures Exec(c, steps) == Some(s)
    ensures s.snd.loop == Snd.AwaitLock && s.snd.link == Snd.Up && s.snd.unacked == [] && !s.snd.ended
  {
    var held, before := HeldAndAcknowledged(c);
    var lost, down := SenderMoves(c, before, held, Snd.ConnectionLost);
    var back, up := SenderMoves(c, down, lost, Snd.Reconnected);
    assert up.snd.unacked[1..] == [];
    steps, s := SenderMoves(c, up, back, Snd.WindowFrame(1, Some(1), false, 1));
  }

  /** On the next connection a window frame acknowledges the slice: the replay has nothing to send, but waits
      for the lock of the first sender, which sends the slice again. The connection breaks, and the two wait
      for each other for good. */
  lemma LockWedges(c: Config) returns (steps: seq<Step>, s: System)
    requires c.limits.chunk > 0 && c.limits.body > 0 && c.maxBody > 0
    ensures Exec(c, steps) == Some(s)
    ensures s.snd.loop == Snd.AwaitLock && s.snd.unacked == [] && !s.snd.ended && s.snd.link == Snd.Dropped
    ensures forall more :: Exec(c, steps + more).Some? ==> Exec(c, steps + more).value.snd.link == Snd.Dropped
  {
    steps, s := AnsweredWhileLocked(c);
    steps, s := SenderMoves(c, s, steps, Snd.ConnectionBroke);
    NeverComesBack(c, s, steps);
  }

  /** Two bytes in two slices: the first frame is lost with the connection, the second still being sent. */
  function TwoCut(limits: Snd.Limits): Snd.Sender {
    Snd.Fresh(limits).(size := 2, produced := [7, 8], nextOffset := 2,
                       unacked := [Snd.Chunk(0, [7]), Snd.Chunk(1, [8])], main := Snd.Holding(Snd.Chunk(1, [8])))
  }

  lemma FirstTwoBytes(limits: Snd.Limits)
    requires limits == Snd.Limits(2, 1, 2)
    ensures Snd.Window(Snd.Fresh(limits), 2, None, false, 2) == Snd.Fresh(limits).(credits := 2)
    ensures Snd.Read(Snd.Fresh(limits).(credits := 2), [7, 8])
         == Snd.Fresh(limits).(credits := 2, size := 2, raw := [7, 8], produced := [7, 8], main := Snd.AwaitReady)
  {
    assert [] + [7, 8] == [7, 8];
  }

  lemma TwoGranted(c: Config) returns (steps: seq<Step>, s: System)
    requires c.limits == Snd.Limits(2, 1, 2)
    ensures Exec(c, steps) == Some(s) && s.rcv == Start(c).rcv && s.snd == Snd.Fresh(c.limits).(credits := 2)
  {
    var none: seq<Step> := [];
    NoSteps(c, none);
    FirstTwoBytes(c.limits);
    steps, s := SenderMoves(c, Start(c), none, Snd.WindowFrame(2, None, false, 2));
  }

  lemma TwoBytesRead(c: Config) returns (steps: seq<Step>, s: System)
    requires c.limits == Snd.Limits(2, 1, 2)
    ensures Exec(c, steps) == Some(s) && s.rcv == Start(c).rcv
    ensures s.snd == Snd.Fresh(c.limits).(credits := 2, size := 2, raw := [7, 8], produced := [7, 8],
                                          main := Snd.AwaitReady)
  {
    steps, s := TwoGranted(c);
    FirstTwoBytes(c.limits);
    steps, s := SenderMoves(c, s, steps, Snd.UpstreamPiece([7, 8]));
  }

  lemma FirstOfTwoSent(c: Config) returns (steps: seq<Step>, s: System)
    requires c.limits == Snd.Limits(2, 1, 2)
    ensures Exec(c, steps) == Some(s) && s.rcv == Start(c).rcv
    ensures s.snd == Snd.Fresh(c.limits).(credits := 1, size := 2, raw := [8], produced := [7, 8], nextOffset := 1,
                                          unacked := [Snd.Chunk(0, [7])], main := Snd.AwaitReady)
  {
    steps, s := TwoBytesRead(c);
    steps, s := SenderMoves(c, s, steps, Snd.ReadyPassed);
    assert [7, 8][..1] == [7] && [7, 8][1..] == [8];
    steps, s := SenderMoves(c, s, steps, Snd.ChunkAppended);
    steps, s := SenderMoves(c, s, steps, Snd.FrameSent);
  }

  lemma SecondOfTwoHeld(c: Config) returns (steps: seq<Step>, s: System)
    requires c.limits == Snd.Limits(2, 1, 2)
    ensures Exec(c, steps) == Some(s) && s.rcv == Start(c).rcv
    ensures s.snd == TwoCut(c.limits)
  {
    steps, s := FirstOfTwoSent(c);
    steps, s := SenderMoves(c, s, steps, Snd.ReadyPassed);
    assert [8][..1] == [8] && [8][1..] == [];
    steps, s := SenderMoves(c, s, steps, Snd.ChunkAppended);
    assert s.snd.unacked == [Snd.Chunk(0, [7])] + [Snd.Chunk(1, [8])];
  }

  lemma HeldHasTheLock(snd: Snd.Sender, credits: nat)
    requires snd.main.Holding? && snd.registered && Snd.BetweenFrames(snd)
    ensures Resumed(snd, credits, None, 2).loop == Snd.AwaitLock
  {}

  /** Whatever window frame the next connection brings, the held slice goes out first, and makes a gap. */
  lemma HeldSliceGoesFirst(c: Config) returns (steps: seq<Step>, s: System)
    requires c.limits == Snd.Limits(2, 1, 2)
    ensures Exec(c, steps) == Some(s) && s.snd == TwoCut(c.limits) && HeldAhead(s) && s.rcv.live
    ensures forall credits: nat :: Resumed(s.snd, credits, None, 2).loop == Snd.AwaitLock
    ensures forall rest :: !Smooth(s.rcv, [s.snd.main.chunk] + rest, c.maxBody)
  {
    steps, s := SecondOfTwoHeld(c);
    forall credits: nat ensures Resumed(s.snd, credits, None, 2).loop == Snd.AwaitLock {
      HeldHasTheLock(s.snd, credits);
    }
    forall rest ensures !Smooth(s.rcv, [s.snd.main.chunk] + rest, c.maxBody) {
      HeldAheadMakesGap(s, rest, c.maxBody);
    }
  }
}
