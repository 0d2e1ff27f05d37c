/**
 That a response can get through: which bodies some run delivers whole, with the end of the stream.
 */
module TunnelDelivery {
  import opened Bytes
  import opened TunnelRuns
  import Snd = ResponseStreams
  import Rcv = RequestStreams

  /** The body that the upstream yields in a run. */
  function Yielded(steps: seq<Step>): Bytes {
    if steps == [] then []
    else
      var last := steps[|steps| - 1];
      Yielded(steps[..|steps| - 1])
      + (if last.Sender? && last.sent.UpstreamPiece? then last.sent.piece else [])
  }

  /** In this run the upstream yields `body`, and the receiver passes all of it on and takes the end of it. */
  ghost predicate Delivers(c: Config, steps: seq<Step>, body: Bytes) {
    && Exec(c, steps).Some? && Yielded(steps) == body
    && var rcv := Exec(c, steps).value.rcv;
       rcv.consumer == Rcv.Drained && rcv.upstream == body
  }

  // ---- one byte after the other

  /** The chunks that the first bytes of a body are cut into, one byte each. */
  function Singles(body: Bytes): seq<Snd.Chunk> {
    seq(|body|, i requires 0 <= i < |body| => Snd.Chunk(i, [body[i]]))
  }

  function SentSoFar(c: Config, part: Bytes): Snd.Sender {
    Snd.Fresh(c.limits).(size := |part|, produced := part, nextOffset := |part|, unacked := Singles(part))
  }

  function TakenSoFar(c: Config, part: Bytes): Rcv.Receiver {
    Rcv.Fresh(c.receiverWindow, c.contentLength).(received := |part|, consumed := |part|, upstream := part)
  }

  /** A run that has carried this part of a body across. */
  ghost predicate Across(c: Config, steps: seq<Step>, s: System, part: Bytes) {
    && Exec(c, steps) == Some(s) && Yielded(steps) == part
    && s.snd == SentSoFar(c, part) && s.rcv == TakenSoFar(c, part)
  }

  lemma YieldedMore(steps: seq<Step>, step: Step)
    ensures Yielded(steps + [step])
         == Yielded(steps) + (if step.Sender? && step.sent.UpstreamPiece? then step.sent.piece else [])
  {
    assert (steps + [step])[..|steps|] == steps;
  }

  /** One more step of the receiver or the network. */
  lemma OtherMoves(c: Config, s: System, steps: seq<Step>, step: Step) returns (longer: seq<Step>, next: System)
    requires Exec(c, steps) == Some(s) && Can(c, s, step) && !step.Sender?
    ensures longer == steps + [step] && Exec(c, longer) == Some(next) && Yielded(longer) == Yielded(steps)
    ensures next == Do(c, s, step) && next.snd == s.snd && next.log == s.log
  {
    ExecMore(c, steps, step);
    YieldedMore(steps, step);
    longer, next := steps + [step], Do(c, s, step);
    assert Yielded(steps) + [] == Yielded(steps);
  }

  lemma QuietSenderMoves(c: Config, s: System, steps: seq<Step>, event: Snd.Event)
    returns (longer: seq<Step>, next: System)
    requires Exec(c, steps) == Some(s) && Can(c, s, Sender(event)) && !event.UpstreamPiece?
    ensures Exec(c, longer) == Some(next) && Yielded(longer) == Yielded(steps)
    ensures next.snd == Snd.Apply(s.snd, event) && next.rcv == s.rcv && next.log == DoSender(s, event).log
  {
    longer, next := SenderMoves(c, s, steps, event);
    YieldedMore(steps, Sender(event));
    assert Yielded(steps) + [] == Yielded(steps);
  }

  lemma Granted(c: Config, part: Bytes)
    ensures Snd.Window(SentSoFar(c, part), 1, None, false, 1) == SentSoFar(c, part).(credits := 1)
  {}

  lemma ByteRead(c: Config, part: Bytes, b: Byte)
    requires |part| < c.limits.body
    ensures Snd.Read(SentSoFar(c, part).(credits := 1), [b])
         == SentSoFar(c, part).(credits := 1, size := |part| + 1, raw := [b], produced := part + [b],
                                main := Snd.AwaitReady)
  {}

  /** The upstream yields one more byte and the next credit is there. */
  lemma ByteComes(c: Config, s: System, steps: seq<Step>, part: Bytes, b: Byte)
    returns (longer: seq<Step>, next: System)
    requires Across(c, steps, s, part) && |part| < c.limits.body
    ensures Exec(c, longer) == Some(next) && Yielded(longer) == part + [b] && next.rcv == s.rcv
    ensures next.snd == SentSoFar(c, part).(credits := 1, size := |part| + 1, raw := [b], produced := part + [b],
                                            main := Snd.AwaitReady)
  {
    Granted(c, part);
    ByteRead(c, part, b);
    var one, granted := QuietSenderMoves(c, s, steps, Snd.WindowFrame(1, None, false, 1));
    longer, next := SenderMoves(c, granted, one, Snd.UpstreamPiece([b]));
    YieldedMore(one, Sender(Snd.UpstreamPiece([b])));
  }

  lemma ByteIsCut(c: Config, part: Bytes, b: Byte)
    requires c.limits.chunk > 0
    ensures var ready := SentSoFar(c, part).(credits := 1, size := |part| + 1, raw := [b], produced := part + [b],
                                             main := Snd.AwaitCredit);
            && Snd.NextChunk(ready) == Snd.Chunk(|part|, [b])
            && Snd.TakeCreditAndAppend(ready)
               == SentSoFar(c, part + [b]).(main := Snd.Holding(Snd.Chunk(|part|, [b])))
  {
    assert [b][..Min(c.limits.chunk, 1)] == [b] && [b][1..] == [];
    assert Singles(part) + [Snd.Chunk(|part|, [b])] == Singles(part + [b]);
  }

  lemma ByteGoes(c: Config, s: System, steps: seq<Step>, part: Bytes, b: Byte)
    returns (longer: seq<Step>, next: System)
    requires c.limits.chunk > 0 && Exec(c, steps) == Some(s)
    requires s.snd == SentSoFar(c, part).(credits := 1, size := |part| + 1, raw := [b], produced := part + [b],
                                          main := Snd.AwaitReady)
    ensures Exec(c, longer) == Some(next) && Yielded(longer) == Yielded(steps) && next.rcv == s.rcv
    ensures next.snd == SentSoFar(c, part + [b]) && Snd.Chunk(|part|, [b]) in next.log
  {
    ByteIsCut(c, part, b);
    var one, ready := QuietSenderMoves(c, s, steps, Snd.ReadyPassed);
    var two, cut := QuietSenderMoves(c, ready, one, Snd.ChunkAppended);
    assert cut.log[|ready.log|] == Snd.Chunk(|part|, [b]);
    longer, next := QuietSenderMoves(c, cut, two, Snd.FrameSent);
  }

  lemma ByteTaken(c: Config, part: Bytes, b: Byte)
    ensures var queued := TakenSoFar(c, part).(received := |part| + 1, queue := [Rcv.Body([b])]);
            Rcv.WindowSent(Rcv.Get(queued).(consumer := Rcv.AtSend)) == TakenSoFar(c, part + [b])
  {
    assert [Rcv.Body([b])][1..] == [];
  }

  lemma ByteQueued(c: Config, part: Bytes, b: Byte)
    requires |part| < c.maxBody
    ensures Rcv.OnData(TakenSoFar(c, part), Some(|part|), [b], false, c.maxBody, true)
         == (TakenSoFar(c, part).(received := |part| + 1, queue := [Rcv.Body([b])]), Rcv.Accepted)
  {
    assert [] + [Rcv.Body([b])] == [Rcv.Body([b])];
  }

  lemma ByteArrives(c: Config, s: System, steps: seq<Step>, part: Bytes, b: Byte)
    returns (longer: seq<Step>, next: System)
    requires Exec(c, steps) == Some(s) && s.rcv == TakenSoFar(c, part) && |part| < c.maxBody
    requires Snd.Chunk(|part|, [b]) in s.log
    ensures Exec(c, longer) == Some(next) && Yielded(longer) == Yielded(steps) && next.snd == s.snd
    ensures next.rcv == TakenSoFar(c, part).(received := |part| + 1, queue := [Rcv.Body([b])])
  {
    ByteQueued(c, part, b);
    longer, next := OtherMoves(c, s, steps, DeliverData(Snd.Chunk(|part|, [b])));
  }

  lemma ByteConsumed(c: Config, s: System, steps: seq<Step>, part: Bytes, b: Byte)
    returns (longer: seq<Step>, next: System)
    requires Exec(c, steps) == Some(s)
    requires s.rcv == TakenSoFar(c, part).(received := |part| + 1, queue := [Rcv.Body([b])])
    ensures Exec(c, longer) == Some(next) && Yielded(longer) == Yielded(steps) && next.snd == s.snd
    ensures next.rcv == TakenSoFar(c, part + [b])
  {
    ByteTaken(c, part, b);
    var one, got := OtherMoves(c, s, steps, Receiver(Rcv.ConsumerGet));
    var two, resumed := OtherMoves(c, got, one, Receiver(Rcv.ConsumerResume));
    longer, next := OtherMoves(c, resumed, two, Receiver(Rcv.ConsumerWindowSent));
  }

  lemma OneByteAcross(c: Config, s: System, steps: seq<Step>, part: Bytes, b: Byte)
    returns (longer: seq<Step>, next: System)
    requires c.limits.chunk > 0 && Across(c, steps, s, part) && |part| < c.limits.body && |part| < c.maxBody
    ensures Across(c, longer, next, part + [b])
  {
    var one, come := ByteComes(c, s, steps, part, b);
    var two, gone := ByteGoes(c, come, one, part, b);
    var three, arrived := ByteArrives(c, gone, two, part, b);
    longer, next := ByteConsumed(c, arrived, three, part, b);
  }

  lemma {:induction false} AllAcross(c: Config, body: Bytes) returns (steps: seq<Step>, s: System)
    requires c.limits.chunk > 0 && |body| <= c.limits.body && |body| <= c.maxBody
    ensures Across(c, steps, s, body)
    decreases |body|
  {
    if body == [] {
      steps, s := [], Start(c);
      NoSteps(c, steps);
      assert Singles([]) == [];
    } else {
      var part := body[..|body| - 1];
      steps, s := AllAcross(c, part);
      steps, s := OneByteAcross(c, s, steps, part, body[|body| - 1]);
      assert part + [body[|body| - 1]] == body;
    }
  }

  // ---- and the end

  lemma EndSent(c: Config, s: System, steps: seq<Step>, body: Bytes) returns (longer: seq<Step>, next: System)
    requires Across(c, steps, s, body) && (c.contentLength.Some? ==> c.contentLength.value == |body|)
    ensures Exec(c, longer) == Some(next) && Yielded(longer) == body && next.rcv == s.rcv && next.snd.ended
  {
    longer, next := QuietSenderMoves(c, s, steps, Snd.UpstreamEnd(c.contentLength));
  }

  lemma EndQueued(c: Config, body: Bytes)
    requires c.contentLength.Some? ==> c.contentLength.value == |body|
    ensures Rcv.OnEnd(TakenSoFar(c, body), true).0 == TakenSoFar(c, body).(ended := true, queue := [Rcv.Eof])
  {
    assert [] + [Rcv.Eof] == [Rcv.Eof];
  }

  lemma EndTaken(c: Config, s: System, steps: seq<Step>, body: Bytes) returns (longer: seq<Step>, next: System)
    requires Exec(c, steps) == Some(s) && s.snd.ended && s.rcv == TakenSoFar(c, body)
    requires c.contentLength.Some? ==> c.contentLength.value == |body|
    ensures Exec(c, longer) == Some(next) && Yielded(longer) == Yielded(steps)
    ensures next.rcv.consumer == Rcv.Drained && next.rcv.upstream == body
  {
    EndQueued(c, body);
    var one, told := OtherMoves(c, s, steps, DeliverEnd);
    longer, next := OtherMoves(c, told, one, Receiver(Rcv.ConsumerGet));
  }

  lemma BodyGetsThrough(c: Config, body: Bytes) returns (steps: seq<Step>)
    requires c.limits.chunk > 0 && |body| <= c.limits.body && |body| <= c.maxBody
    requires c.contentLength.Some? ==> c.contentLength.value == |body|
    ensures Delivers(c, steps, body)
  {
    var s;
    steps, s := AllAcross(c, body);
    steps, s := EndSent(c, s, steps, body);
    steps, s := EndTaken(c, s, steps, body);
  }

  lemma OnlyItsDeclaredLength(c: Config, steps: seq<Step>, body: Bytes)
    requires c.limits.chunk > 0 && Delivers(c, steps, body) && c.contentLength.Some?
    ensures |body| == c.contentLength.value
  {
    RunKeeps(c, steps);
  }

  lemma {:induction false} ReceivedFits(c: Config, steps: seq<Step>)
    requires Exec(c, steps).Some?
    ensures Exec(c, steps).value.rcv.received <= c.maxBody
  {
    if steps != [] {
      var last := |steps| - 1;
      ReceivedFits(c, steps[..last]);
      StepFits(c, Exec(c, steps[..last]).value, steps[last]);
    }
  }

  lemma StepFits(c: Config, s: System, step: Step)
    requires Can(c, s, step) && s.rcv.received <= c.maxBody
    ensures Do(c, s, step).rcv.received <= c.maxBody
  {
    if step.Receiver? { Rcv.EndedIsFinal(s.rcv, step.event, c.maxBody); }
  }

  lemma WithinLimits(c: Config, steps: seq<Step>, body: Bytes)
    requires c.limits.chunk > 0 && Delivers(c, steps, body)
    ensures |body| <= c.limits.body && |body| <= c.maxBody
  {
    RunKeeps(c, steps);
    NothingLost(c, steps);
    ReceivedFits(c, steps);
  }

  /** In every configuration a body can be delivered, whole and with its end, if and only if it is within the
      limits of both sides and no length was declared or its own. */
  lemma DeliverableIff(c: Config, body: Bytes)
    requires c.limits.chunk > 0
    ensures (exists steps :: Delivers(c, steps, body))
       <==> && |body| <= c.limits.body && |body| <= c.maxBody
            && (c.contentLength.None? || c.contentLength == Some(|body|))
  {
    if && |body| <= c.limits.body && |body| <= c.maxBody
       && (c.contentLength.None? || c.contentLength == Some(|body|))
    {
      var steps := BodyGetsThrough(c, body);
    } else {
      forall steps ensures !Delivers(c, steps, body) {
        if Delivers(c, steps, body) {
          WithinLimits(c, steps, body);
          if c.contentLength.Some? { OnlyItsDeclaredLength(c, steps, body); }
        }
      }
    }
  }
}
