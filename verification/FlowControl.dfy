/**
 Credits of a streamed request, end to end: the receiver of `RequestStreams`, a peer that spends one
 credit on each data frame and takes the answer to a repeated `http_req_begin` as its whole balance,
 and the two ordered channels of the current connection between them.
 */
module FlowControl {
  import opened Bytes
  import Rcv = RequestStreams

  datatype PeerFrame = Data(offset: Option<nat>, payload: Bytes, endOfBody: bool) | End | Begin

  /** What the peer does with its balance on a window frame: add to it, or replace it (answer to a begin). */
  datatype Credit = Add(credits: nat) | Replace(credits: nat)

  /** The begin exchange: none outstanding, the begin on its way, the answer computed but not yet on
      the wire, the answer on its way. The peer sends nothing from its begin until the answer. */
  datatype Phase = Open | BeginSent | AnswerHeld(credits: nat) | AnswerSent

  /** `onWire`: the credit frame of a generator at AtSend was handed to the connection.  `duplicates`: data
      frames, since the last begin, that cost a credit and brought nothing new.  `writtenOff`: credits that
      the answer to the last begin left out, or that nobody will send. */
  datatype Flow = Flow(
    rcv: Rcv.Receiver,
    toReceiver: seq<PeerFrame>,
    toPeer: seq<Credit>,
    balance: nat,
    phase: Phase,
    onWire: bool,
    overflowed: bool,
    duplicates: nat,
    writtenOff: nat)

  datatype Config = Config(window: nat, contentLength: Option<nat>, maxBody: nat)

  datatype Step =
    | PeerData(frame: PeerFrame)
    | PeerEnd
    | PeerBegin
    | PeerTake
    | Receive
    | AnswerOnWire
    | CreditOnWire
    | Consumer(event: Rcv.Event)
    | Reconnect(resend: bool)

  /** One while the credit for a consumed chunk has not been handed to the connection. */
  function Owed(f: Flow): nat {
    if f.rcv.consumer == Rcv.AtYield || (f.rcv.consumer == Rcv.AtSend && !f.onWire) then 1 else 0
  }

  /** The stream was just created: its first window frame, the whole window, is about to be sent. */
  function Start(c: Config): Flow {
    Flow(Rcv.Fresh(c.window, c.contentLength), [], [], 0, AnswerHeld(c.window), false, false, 0, 0)
  }

  /** The connection is lost and the next one made. Everything in flight is lost and the peer begins by
      repeating its begin frame. A credit frame whose send failed goes out again. */
  function Reconnected(f: Flow, resend: bool): Flow {
    f.(toReceiver := [Begin], toPeer := [], balance := 0, phase := BeginSent, onWire := f.onWire && !resend)
  }

  function Taken(balance: nat, credit: Credit): nat {
    match credit
    case Add(n) => balance + n
    case Replace(n) => n
  }

  /** The receive loop is neither sending the answer to a begin nor putting the end marker: only then does it
      notice a broken connection. */
  predicate LoopCanLeave(f: Flow) {
    !f.phase.AnswerHeld? && !f.rcv.eofBlocked
  }

  predicate Can(c: Config, f: Flow, step: Step) {
    match step
    case PeerData(frame) => f.phase.Open? && f.balance > 0 && frame.Data?
    case PeerEnd => f.phase.Open?
    case PeerBegin => f.phase.Open?
    case PeerTake => f.toPeer != []
    case Receive => f.toReceiver != [] && !f.phase.AnswerHeld? && !f.rcv.eofBlocked
    case AnswerOnWire => f.phase.AnswerHeld?
    case CreditOnWire => f.rcv.consumer == Rcv.AtSend && !f.onWire
    case Consumer(event) =>
      && !event.Envelope? && !event.EndFrame? && Rcv.Enabled(f.rcv, event)
      && (event.ConsumerWindowSent? ==> f.onWire)
    case Reconnect(_) => LoopCanLeave(f)
  }

  /** The first frame for the receiver was a data frame with this outcome. */
  function Received(f: Flow, rcv: Rcv.Receiver, outcome: Rcv.Outcome): Flow
    requires f.toReceiver != []
  {
    var after := f.(toReceiver := f.toReceiver[1..], rcv := rcv, onWire := f.onWire && rcv.consumer == Rcv.AtSend,
                    overflowed := f.overflowed || outcome.WindowOverflow?);
    match outcome
    case Violates(_) => Reconnected(after, false)
    case Duplicate(_) => after.(toPeer := f.toPeer + [Add(0)], duplicates := f.duplicates + 1)
    case _ => after
  }

  function ReceiveFrame(c: Config, f: Flow): Flow
    requires Can(c, f, Receive)
  {
    match f.toReceiver[0]
    case Begin =>
      f.(toReceiver := f.toReceiver[1..], phase := AnswerHeld(Rcv.BeginReply(f.rcv, c.window).credits),
         duplicates := 0, writtenOff := if f.rcv.pending > 0 && Owed(f) == 0 && !Rcv.Full(f.rcv) then 1 else 0)
    case End =>
      var rcv := Rcv.OnEnd(f.rcv, true).0;
      f.(toReceiver := f.toReceiver[1..], rcv := rcv, onWire := f.onWire && rcv.consumer == Rcv.AtSend)
    case Data(offset, payload, endOfBody) =>
      var (rcv, outcome) := Rcv.OnData(f.rcv, offset, payload, endOfBody, c.maxBody, true);
      Received(f, rcv, outcome)
  }

  function Do(c: Config, f: Flow, step: Step): Flow
    requires Can(c, f, step)
  {
    match step
    case PeerData(frame) => f.(toReceiver := f.toReceiver + [frame], balance := f.balance - 1)
    case PeerEnd => f.(toReceiver := f.toReceiver + [End])
    case PeerBegin => f.(toReceiver := f.toReceiver + [Begin], phase := BeginSent)
    case PeerTake =>
      f.(toPeer := f.toPeer[1..],
         balance := Taken(f.balance, f.toPeer[0]),
         phase := if f.toPeer[0].Replace? then Open else f.phase)
    case Receive => ReceiveFrame(c, f)
    case AnswerOnWire => f.(toPeer := f.toPeer + [Replace(f.phase.credits)], phase := AnswerSent)
    case CreditOnWire =>
      f.(toPeer := f.toPeer + [Add(Rcv.CreditFor(f.rcv).credits)], onWire := true,
         writtenOff := f.writtenOff + (if f.phase.AnswerHeld? then 1 else 0))
    case Consumer(event) =>
      f.(rcv := Rcv.Apply(f.rcv, event, c.maxBody),
         onWire := f.onWire && !event.ConsumerWindowSent? && !event.ConsumerAbandon? && !event.Cancel?,
         writtenOff := f.writtenOff + (if event.ConsumerAbandon? then Owed(f) else 0))
    case Reconnect(resend) => Reconnected(f, resend)
  }

  function Exec(c: Config, steps: seq<Step>): Option<Flow> {
    if steps == [] then Some(Start(c)) else
      var before := Exec(c, steps[..|steps| - 1]);
      if before.Some? && Can(c, before.value, steps[|steps| - 1])
      then Some(Do(c, before.value, steps[|steps| - 1]))
      else None
  }

  // ---- invariant

  /** The balance once the peer has taken everything on its way. */
  function Final(balance: nat, toPeer: seq<Credit>): nat
    decreases |toPeer|
  {
    if toPeer == [] then balance else Final(Taken(balance, toPeer[0]), toPeer[1..])
  }

  function DataFrames(frames: seq<PeerFrame>): nat {
    if frames == [] then 0 else (if frames[0].Data? then 1 else 0) + DataFrames(frames[1..])
  }

  function Replacements(toPeer: seq<Credit>): nat {
    if toPeer == [] then 0 else (if toPeer[0].Replace? then 1 else 0) + Replacements(toPeer[1..])
  }

  /** The credits that the peer holds or will hold, as far as they still count. */
  function Spendable(f: Flow): nat {
    match f.phase
    case BeginSent => 0
    case AnswerHeld(credits) => credits
    case _ => Final(f.balance, f.toPeer)
  }

  ghost predicate Channels(f: Flow) {
    && (forall i :: 0 <= i < |f.toReceiver| && f.toReceiver[i].Begin? ==>
          i == |f.toReceiver| - 1 && f.phase.BeginSent?)
    && (f.phase.BeginSent? ==> f.toReceiver != [] && f.toReceiver[|f.toReceiver| - 1].Begin?)
    && Replacements(f.toPeer) == (if f.phase.AnswerSent? then 1 else 0)
    && (f.onWire ==> f.rcv.consumer == Rcv.AtSend)
  }

  /** Credits with the peer, frames on their way, chunks queued and credits owed fit the window. */
  ghost predicate Fits(f: Flow) {
    f.rcv.live && !f.rcv.ended ==>
      Spendable(f) + DataFrames(f.toReceiver) + |f.rcv.queue| + Owed(f) <= f.rcv.window
  }

  /** And they fill it exactly, but for what was lost since the last begin. */
  ghost predicate Fills(f: Flow) {
    f.rcv.live && !f.rcv.ended && !f.phase.BeginSent? ==>
      Spendable(f) + DataFrames(f.toReceiver) + |f.rcv.queue| + Owed(f) + f.duplicates + f.writtenOff == f.rcv.window
  }

  ghost predicate Inv(c: Config, f: Flow) {
    && c.window > 0 && f.rcv.window == c.window && f.rcv.received <= c.maxBody
    && Rcv.Inv(f.rcv)
    && Channels(f)
    && Fits(f)
    && Fills(f)
    && !f.overflowed
  }

  /** A failed send whose credit frame was delivered, and which will therefore deliver it twice, is harmless
      while the queue has room, or once the stream is over. */
  predicate Harmless(f: Flow, step: Step) {
    step == Reconnect(true) && f.onWire && f.rcv.live && !f.rcv.ended ==> |f.rcv.queue| < f.rcv.window
  }

  ghost predicate HarmlessRun(c: Config, steps: seq<Step>) {
    steps == [] ||
    var before := steps[..|steps| - 1];
    HarmlessRun(c, before) && (Exec(c, before).Some? ==> Harmless(Exec(c, before).value, steps[|steps| - 1]))
  }

  lemma {:induction false} FinalAppend(balance: nat, toPeer: seq<Credit>, credit: Credit)
    ensures Final(balance, toPeer + [credit]) == Taken(Final(balance, toPeer), credit)
    ensures Replacements(toPeer + [credit]) == Replacements(toPeer) + (if credit.Replace? then 1 else 0)
    decreases |toPeer|
  {
    if toPeer != [] {
      assert (toPeer + [credit])[1..] == toPeer[1..] + [credit];
      FinalAppend(Taken(balance, toPeer[0]), toPeer[1..], credit);
    }
  }

  lemma {:induction false} DataFramesAppend(frames: seq<PeerFrame>, frame: PeerFrame)
    ensures DataFrames(frames + [frame]) == DataFrames(frames) + (if frame.Data? then 1 else 0)
  {
    if frames != [] {
      assert (frames + [frame])[1..] == frames[1..] + [frame];
      DataFramesAppend(frames[1..], frame);
    }
  }

  lemma PeerKeeps(c: Config, f: Flow, step: Step)
    requires Inv(c, f) && Can(c, f, step)
    requires step.PeerData? || step.PeerEnd? || step.PeerBegin?
    ensures Inv(c, Do(c, f, step))
  {
    DataFramesAppend(f.toReceiver, if step.PeerData? then step.frame else if step.PeerEnd? then End else Begin);
    SpendLowersFinal(f);
  }

  lemma {:induction false} FinalMonotone(low: nat, high: nat, toPeer: seq<Credit>)
    requires low <= high
    ensures Final(low, toPeer) <= Final(high, toPeer)
    ensures Replacements(toPeer) == 0 ==> Final(high, toPeer) - Final(low, toPeer) == high - low
    decreases |toPeer|
  {
    if toPeer != [] {
      FinalMonotone(Taken(low, toPeer[0]), Taken(high, toPeer[0]), toPeer[1..]);
    }
  }

  lemma SpendLowersFinal(f: Flow)
    ensures f.balance > 0 && Replacements(f.toPeer) == 0 ==>
              Final(f.balance - 1, f.toPeer) == Final(f.balance, f.toPeer) - 1
  {
    if f.balance > 0 { FinalMonotone(f.balance - 1, f.balance, f.toPeer); }
  }

  lemma WireKeeps(c: Config, f: Flow, step: Step)
    requires Inv(c, f) && Can(c, f, step)
    requires step.PeerTake? || step.AnswerOnWire? || step.CreditOnWire?
    ensures Inv(c, Do(c, f, step))
  {
    match step {
      case AnswerOnWire => FinalAppend(f.balance, f.toPeer, Replace(f.phase.credits));
      case CreditOnWire => FinalAppend(f.balance, f.toPeer, Add(1));
      case _ =>
    }
  }

  /** What the body generator may do to the receiver, as far as credits go. */
  lemma ConsumerFacts(r: Rcv.Receiver, event: Rcv.Event, maxBody: nat)
    requires !event.Envelope? && !event.EndFrame? && Rcv.Enabled(r, event)
    ensures var after := Rcv.Apply(r, event, maxBody);
            && after.window == r.window
            && (after.live && !after.ended ==>
                  && r.live && !r.ended
                  && (event.EofPut? || |after.queue| == |r.queue| - (if event.ConsumerGet? then 1 else 0)))
            && (event.ConsumerGet? ==> r.consumer == Rcv.AtGet)
            && (event.ConsumerGet? && r.queue[0].Body? ==> after.consumer == Rcv.AtYield)
            && (event.ConsumerResume? ==> r.consumer == Rcv.AtYield && after.consumer == Rcv.AtSend)
            && (event.ConsumerWindowSent? ==> after.consumer == Rcv.AtGet)
            && (event.ConsumerAbandon? || event.Cancel? ==> after.consumer == Rcv.Abandoned)
            && (event.EofPut? ==> after.consumer == r.consumer)
  {}

  lemma ConsumerKeeps(c: Config, f: Flow, step: Step)
    requires Inv(c, f) && Can(c, f, step) && step.Consumer?
    ensures Inv(c, Do(c, f, step))
  {
    Rcv.ApplyKeepsInv(f.rcv, step.event, c.maxBody);
    ConsumerFits(c, f, step.event);
  }

  lemma ConsumerFits(c: Config, f: Flow, event: Rcv.Event)
    requires Channels(f) && Fits(f) && Fills(f) && Can(c, f, Consumer(event))
    requires (f.rcv.eofBlocked ==> f.rcv.ended) && (f.rcv.queue != [] && f.rcv.queue[0].Eof? ==> f.rcv.ended)
    ensures Channels(Do(c, f, Consumer(event))) && Fits(Do(c, f, Consumer(event))) && Fills(Do(c, f, Consumer(event)))
    ensures Do(c, f, Consumer(event)).rcv.window == f.rcv.window
  {
    ConsumerFacts(f.rcv, event, c.maxBody);
  }

  lemma HeadAndTail(frames: seq<PeerFrame>)
    requires frames != []
    ensures DataFrames(frames) == (if frames[0].Data? then 1 else 0) + DataFrames(frames[1..])
  {}

  /** What a data frame that does not overflow may change. */
  ghost predicate OneSlot(before: Rcv.Receiver, after: Rcv.Receiver, outcome: Rcv.Outcome) {
    && after.window == before.window
    && (after.live && !after.ended ==> before.live && !before.ended && |after.queue| <= |before.queue| + 1)
    && (after.live && !after.ended && !outcome.Violates? ==>
          |after.queue| + (if outcome.Duplicate? then 1 else 0) == |before.queue| + 1)
    && (after.live ==> after.consumer == before.consumer)
    && (after.consumer == before.consumer || after.consumer == Rcv.Abandoned)
  }

  lemma DataTakesOneSlot(r: Rcv.Receiver, frame: PeerFrame, maxBody: nat)
    requires frame.Data? && r.window > 0 && (r.live && !r.ended ==> |r.queue| < r.window)
    ensures var (after, outcome) := Rcv.OnData(r, frame.offset, frame.payload, frame.endOfBody, maxBody, true);
            && !outcome.WindowOverflow? && OneSlot(r, after, outcome)
            && (r.received <= maxBody ==> after.received <= maxBody)
  {}

  lemma ReceivedFits(f: Flow, rcv: Rcv.Receiver, outcome: Rcv.Outcome)
    requires f.rcv.window > 0 && Channels(f) && Fits(f) && !f.overflowed
    requires f.toReceiver != [] && f.toReceiver[0].Data? && !f.phase.AnswerHeld?
    requires !outcome.WindowOverflow? && OneSlot(f.rcv, rcv, outcome)
    ensures var after := Received(f, rcv, outcome);
            Channels(after) && Fits(after) && !after.overflowed && after.rcv == rcv
  {
    HeadAndTail(f.toReceiver);
    FinalAppend(f.balance, f.toPeer, Add(0));
  }

  lemma ReceivedFills(f: Flow, rcv: Rcv.Receiver, outcome: Rcv.Outcome)
    requires f.rcv.window > 0 && Fills(f) && f.toReceiver != [] && f.toReceiver[0].Data? && !f.phase.AnswerHeld?
    requires OneSlot(f.rcv, rcv, outcome) && (f.onWire ==> f.rcv.consumer == Rcv.AtSend)
    ensures Fills(Received(f, rcv, outcome))
  {
    HeadAndTail(f.toReceiver);
    FinalAppend(f.balance, f.toPeer, Add(0));
  }

  lemma ReceiveIsReceived(c: Config, f: Flow)
    requires Can(c, f, Receive) && f.toReceiver[0].Data?
    ensures var frame := f.toReceiver[0];
            var (rcv, outcome) := Rcv.OnData(f.rcv, frame.offset, frame.payload, frame.endOfBody, c.maxBody, true);
            Do(c, f, Receive) == Received(f, rcv, outcome)
  {}

  /** The receiver after the data frame in front, and what the frame led to. */
  lemma FrontFrame(c: Config, f: Flow) returns (rcv: Rcv.Receiver, outcome: Rcv.Outcome)
    requires Inv(c, f) && Can(c, f, Receive) && f.toReceiver[0].Data?
    ensures Do(c, f, Receive) == Received(f, rcv, outcome)
    ensures Rcv.Inv(rcv) && rcv.received <= c.maxBody
    ensures !outcome.WindowOverflow? && OneSlot(f.rcv, rcv, outcome)
  {
    var frame := f.toReceiver[0];
    var after := Rcv.OnData(f.rcv, frame.offset, frame.payload, frame.endOfBody, c.maxBody, true);
    rcv, outcome := after.0, after.1;
    ReceiveIsReceived(c, f);
    Rcv.DataKeepsInv(f.rcv, frame.offset, frame.payload, frame.endOfBody, c.maxBody, true);
    HeadAndTail(f.toReceiver);
    DataTakesOneSlot(f.rcv, frame, c.maxBody);
  }

  lemma ReceiveDataKeeps(c: Config, f: Flow)
    requires Inv(c, f) && Can(c, f, Receive) && f.toReceiver[0].Data?
    ensures Inv(c, Do(c, f, Receive))
  {
    var rcv, outcome := FrontFrame(c, f);
    ReceivedFits(f, rcv, outcome);
    ReceivedFills(f, rcv, outcome);
  }

  lemma ReceiveBeginKeeps(c: Config, f: Flow)
    requires Inv(c, f) && Can(c, f, Receive) && f.toReceiver[0].Begin?
    ensures Inv(c, Do(c, f, Receive))
  {
    HeadAndTail(f.toReceiver);
  }

  lemma ReceiveEndKeeps(c: Config, f: Flow)
    requires Inv(c, f) && Can(c, f, Receive) && f.toReceiver[0].End?
    ensures Inv(c, Do(c, f, Receive))
  {
    HeadAndTail(f.toReceiver);
    if f.rcv.live && !f.rcv.ended { Rcv.WithEndKeepsInv(f.rcv); }
  }

  lemma ReceiveKeeps(c: Config, f: Flow)
    requires Inv(c, f) && Can(c, f, Receive)
    ensures Inv(c, Do(c, f, Receive))
  {
    match f.toReceiver[0] {
      case Data(_, _, _) => ReceiveDataKeeps(c, f);
      case End => ReceiveEndKeeps(c, f);
      case Begin => ReceiveBeginKeeps(c, f);
    }
  }

  lemma StepKeeps(c: Config, f: Flow, step: Step)
    requires Inv(c, f) && Can(c, f, step) && Harmless(f, step)
    ensures Inv(c, Do(c, f, step))
  {
    match step {
      case Receive => ReceiveKeeps(c, f);
      case Consumer(_) => ConsumerKeeps(c, f, step);
      case Reconnect(_) =>
      case PeerTake => WireKeeps(c, f, step);
      case AnswerOnWire => WireKeeps(c, f, step);
      case CreditOnWire => WireKeeps(c, f, step);
      case _ => PeerKeeps(c, f, step);
    }
  }

  lemma {:induction false} RunKeeps(c: Config, steps: seq<Step>)
    requires c.window > 0 && HarmlessRun(c, steps)
    ensures Exec(c, steps).Some? ==> Inv(c, Exec(c, steps).value)
  {
    if steps != [] {
      var prefix := steps[..|steps| - 1];
      RunKeeps(c, prefix);
      if Exec(c, steps).Some? {
        StepKeeps(c, Exec(c, prefix).value, steps[|steps| - 1]);
      }
    }
  }

  /** Flow control holds over every run, through consumption, duplicates, repeated begins and reconnects, in
      which no delivered credit is sent again on a full queue: until the stream ends, the credits that the
      peer can still spend, its frames on their way, the queued chunks and the credit still owed fit the
      window together, so the queue never overflows. */
  lemma {:induction false} WindowIsNeverExceeded(c: Config, steps: seq<Step>)
    requires c.window > 0 && HarmlessRun(c, steps) && Exec(c, steps).Some?
    ensures var f := Exec(c, steps).value;
            && !f.overflowed
            && (f.rcv.live && !f.rcv.ended ==>
                  && Spendable(f) + DataFrames(f.toReceiver) + |f.rcv.queue| + Owed(f) <= c.window
                  && Owed(f) <= f.rcv.pending <= 1)
  {
    RunKeeps(c, steps);
  }

  // ---- the exact balance

  /** Credits are not conserved: what is missing from the window is exactly the duplicates since the last
      begin, each of which cost a credit, and the credits written off. */
  lemma {:induction false} BalanceIsExact(c: Config, steps: seq<Step>)
    requires c.window > 0 && HarmlessRun(c, steps) && Exec(c, steps).Some?
    ensures var f := Exec(c, steps).value;
            f.rcv.live && !f.rcv.ended && !f.phase.BeginSent? ==>
              Spendable(f) + DataFrames(f.toReceiver) + |f.rcv.queue| + Owed(f)
              == c.window - f.duplicates - f.writtenOff
  {
    RunKeeps(c, steps);
  }

  /** A repeated begin makes good all duplicates and all write-offs before it, but for one credit whose frame
      is out while the answer is computed. */
  lemma BeginRestoresTheWindow(c: Config, steps: seq<Step>)
    requires c.window > 0 && HarmlessRun(c, steps) && Exec(c, steps).Some?
    requires var f := Exec(c, steps).value;
             f.rcv.live && !f.rcv.ended && Can(c, f, Receive) && f.toReceiver[0] == Begin
    ensures var f := Exec(c, steps).value;
            var after := Do(c, f, Receive);
            && after.phase.AnswerHeld? && after.toReceiver == []
            && Spendable(after) + |after.rcv.queue| + Owed(after)
               == c.window - (if f.rcv.pending > 0 && Owed(f) == 0 && |f.rcv.queue| < c.window then 1 else 0)
  {
    RunKeeps(c, steps);
  }

  /** Nothing is on its way, queued or owed: only the peer can go on. */
  predicate Quiet(f: Flow) {
    && f.rcv.live && !f.rcv.ended && f.phase == Open && f.toReceiver == [] && f.toPeer == []
    && f.rcv.queue == [] && Owed(f) == 0
  }

  /** Then the stream is stalled, the peer having no credit to send on, if and only if duplicates and
      write-offs have eaten the window. */
  lemma {:induction false} StallsIffWindowLost(c: Config, steps: seq<Step>)
    requires c.window > 0 && HarmlessRun(c, steps) && Exec(c, steps).Some? && Quiet(Exec(c, steps).value)
    ensures var f := Exec(c, steps).value;
            !Can(c, f, PeerData(Data(Some(f.rcv.received), [], false))) <==> f.duplicates + f.writtenOff == c.window
  {
    RunKeeps(c, steps);
  }

  // ---- particular runs

  /** A run that reaches `f` reaches `g` by these further steps. */
  ghost predicate Leads(c: Config, f: Flow, steps: seq<Step>, g: Flow) {
    forall run :: Exec(c, run) == Some(f) ==> Exec(c, run + steps) == Some(g)
  }

  lemma NoStep(c: Config, f: Flow)
    ensures Leads(c, f, [], f)
  {
    forall run | Exec(c, run) == Some(f) ensures Exec(c, run + []) == Some(f) {
      assert run + [] == run;
    }
  }

  lemma OneStep(c: Config, f: Flow, steps: seq<Step>, g: Flow, step: Step) returns (longer: seq<Step>, h: Flow)
    requires Leads(c, f, steps, g) && Can(c, g, step)
    ensures longer == steps + [step] && h == Do(c, g, step) && Leads(c, f, longer, h)
  {
    longer, h := steps + [step], Do(c, g, step);
    forall run | Exec(c, run) == Some(f) ensures Exec(c, run + longer) == Some(h) {
      assert run + longer == run + steps + [step];
      assert (run + longer)[..|run + longer| - 1] == run + steps;
    }
  }

  lemma LeadsOn(c: Config, f: Flow, steps: seq<Step>, g: Flow, later: seq<Step>, h: Flow)
    requires Leads(c, f, steps, g) && Leads(c, g, later, h)
    ensures Leads(c, f, steps + later, h)
  {
    forall run | Exec(c, run) == Some(f) ensures Exec(c, run + (steps + later)) == Some(h) {
      assert run + (steps + later) == run + steps + later;
    }
  }

  lemma LeadsFromStart(c: Config, steps: seq<Step>, g: Flow)
    requires Leads(c, Start(c), steps, g)
    ensures Exec(c, steps) == Some(g)
  {
    assert Exec(c, []) == Some(Start(c)) && [] + steps == steps;
  }

  function Byte(offset: nat): PeerFrame {
    Data(Some(offset), [7], false)
  }

  /** A stream with a window of one that took its first byte. */
  function OneByte(queue: seq<Rcv.Item>, consumer: Rcv.Consumer): Rcv.Receiver {
    if queue != [] then Rcv.Receiver(1, None, true, 1, 0, 0, queue, false, false, consumer, [])
    else Rcv.Receiver(1, None, true, 1, 1, if consumer == Rcv.AtSend then 1 else 0, [], false, false, consumer, [7])
  }

  lemma FirstByteQueued(c: Config) returns (steps: seq<Step>, f: Flow)
    requires c == Config(1, None, 10)
    ensures Leads(c, Start(c), steps, f) && Reconnect(true) !in steps
    ensures f == Flow(OneByte([Rcv.Body([7])], Rcv.AtGet), [], [], 0, Open, false, false, 0, 0)
  {
    NoStep(c, Start(c));
    steps, f := OneStep(c, Start(c), [], Start(c), AnswerOnWire);
    steps, f := OneStep(c, Start(c), steps, f, PeerTake);
    steps, f := OneStep(c, Start(c), steps, f, PeerData(Byte(0)));
    steps, f := OneStep(c, Start(c), steps, f, Receive);
  }

  lemma FirstCreditReturned(c: Config, f: Flow) returns (steps: seq<Step>, g: Flow)
    requires c == Config(1, None, 10)
    requires f == Flow(OneByte([Rcv.Body([7])], Rcv.AtGet), [], [], 0, Open, false, false, 0, 0)
    ensures Leads(c, f, steps, g) && Reconnect(true) !in steps
    ensures g == Flow(OneByte([], Rcv.AtGet), [], [Add(1)], 0, Open, false, false, 0, 0)
  {
    NoStep(c, f);
    steps, g := OneStep(c, f, [], f, Consumer(Rcv.ConsumerGet));
    assert g.rcv.queue == [] && g.rcv.upstream == [7];
    steps, g := OneStep(c, f, steps, g, Consumer(Rcv.ConsumerResume));
    steps, g := OneStep(c, f, steps, g, CreditOnWire);
    steps, g := OneStep(c, f, steps, g, Consumer(Rcv.ConsumerWindowSent));
  }

  lemma CreditLostAndRestored(c: Config, f: Flow) returns (steps: seq<Step>, g: Flow)
    requires c == Config(1, None, 10)
    requires f == Flow(OneByte([], Rcv.AtGet), [], [Add(1)], 0, Open, false, false, 0, 0)
    ensures Leads(c, f, steps, g) && Reconnect(true) !in steps
    ensures g == Flow(OneByte([], Rcv.AtGet), [], [], 1, Open, false, false, 0, 0)
  {
    NoStep(c, f);
    steps, g := OneStep(c, f, [], f, Reconnect(false));
    steps, g := OneStep(c, f, steps, g, Receive);
    steps, g := OneStep(c, f, steps, g, AnswerOnWire);
    steps, g := OneStep(c, f, steps, g, PeerTake);
  }

  lemma FirstByteAgain(c: Config, f: Flow) returns (steps: seq<Step>, g: Flow)
    requires c == Config(1, None, 10)
    requires f == Flow(OneByte([], Rcv.AtGet), [], [], 1, Open, false, false, 0, 0)
    ensures Leads(c, f, steps, g) && Reconnect(true) !in steps
    ensures Quiet(g) && g.balance == 0 && g.duplicates == 1
  {
    NoStep(c, f);
    steps, g := OneStep(c, f, [], f, PeerData(Byte(0)));
    steps, g := OneStep(c, f, steps, g, Receive);
    steps, g := OneStep(c, f, steps, g, PeerTake);
  }

  /** The connection is lost with the returned credit, the begin is answered with one, and the peer spends it
      on sending the byte again: the stream is stalled, with nothing lost but one duplicate. */
  lemma OneDuplicateStalls(c: Config) returns (steps: seq<Step>, f: Flow)
    requires c == Config(1, None, 10)
    ensures Exec(c, steps) == Some(f) && HarmlessRun(c, steps)
    ensures Quiet(f) && f.balance == 0 && f.duplicates == 1
  {
    var first, queued := FirstByteQueued(c);
    var second, returned := FirstCreditReturned(c, queued);
    var third, restored := CreditLostAndRestored(c, returned);
    var fourth, stalled := FirstByteAgain(c, restored);
    LeadsOn(c, Start(c), first, queued, second, returned);
    LeadsOn(c, Start(c), first + second, returned, third, restored);
    LeadsOn(c, Start(c), first + second + third, restored, fourth, stalled);
    steps, f := first + second + third + fourth, stalled;
    LeadsFromStart(c, steps, f);
    NoResendIsHarmless(c, steps);
  }

  // ---- a delivered credit sent again

  lemma {:induction false} NoResendIsHarmless(c: Config, steps: seq<Step>)
    requires Reconnect(true) !in steps
    ensures HarmlessRun(c, steps)
  {
    if steps != [] { NoResendIsHarmless(c, steps[..|steps| - 1]); }
  }

  /** The later steps of a run are harmless. */
  ghost predicate HarmlessFrom(c: Config, steps: seq<Step>, later: seq<Step>)
    decreases |later|
  {
    later == [] ||
    var before := later[..|later| - 1];
    && HarmlessFrom(c, steps, before)
    && (Exec(c, steps + before).Some? ==> Harmless(Exec(c, steps + before).value, later[|later| - 1]))
  }

  lemma {:induction false} HarmlessThroughout(c: Config, steps: seq<Step>, later: seq<Step>)
    requires HarmlessRun(c, steps) && HarmlessFrom(c, steps, later)
    ensures HarmlessRun(c, steps + later)
    decreases |later|
  {
    if later == [] {
      assert steps + later == steps;
    } else {
      var before := later[..|later| - 1];
      HarmlessThroughout(c, steps, before);
      assert (steps + later)[..|steps + later| - 1] == steps + before;
    }
  }

  lemma {:induction false} NoLaterResend(c: Config, steps: seq<Step>, later: seq<Step>)
    requires Reconnect(true) !in later
    ensures HarmlessFrom(c, steps, later)
    decreases |later|
  {
    if later != [] { NoLaterResend(c, steps, later[..|later| - 1]); }
  }

  /** The begin is answered with no credits, as the queue is full. */
  lemma AnsweredWithNothing(c: Config, f: Flow) returns (next: Flow)
    requires f.rcv.window == c.window && f.rcv.live && !f.rcv.ended && !f.rcv.eofBlocked
    requires |f.rcv.queue| == c.window && f == Reconnected(f, true)
    ensures Leads(c, f, [Receive, AnswerOnWire, PeerTake], next)
    ensures next.rcv == f.rcv && next.phase == Open && next.toReceiver == [] && next.toPeer == []
    ensures next.balance == 0 && next.onWire == f.onWire
  {
    var steps;
    NoStep(c, f);
    steps, next := OneStep(c, f, [], f, Receive);
    assert next.toReceiver == [] && next.phase == AnswerHeld(0) && next.toPeer == [];
    steps, next := OneStep(c, f, steps, next, AnswerOnWire);
    steps, next := OneStep(c, f, steps, next, PeerTake);
    assert steps == [Receive, AnswerOnWire, PeerTake];
  }

  /** The credit reaches the peer again, and the peer spends it on the last frame of the body. */
  lemma SpentOnFullQueue(c: Config, f: Flow) returns (next: Flow)
    requires f.rcv.window == c.window > 0 && f.rcv.live && !f.rcv.ended && !f.rcv.eofBlocked
    requires |f.rcv.queue| == c.window && f.rcv.consumer == Rcv.AtSend && f.rcv.received <= c.maxBody
    requires f.phase == Open && f.toReceiver == [] && f.toPeer == [] && f.balance == 0 && !f.onWire
    ensures Leads(c, f, [CreditOnWire, PeerTake, PeerData(Data(Some(f.rcv.received), [], true)), Receive], next)
    ensures next.overflowed
  {
    var steps;
    NoStep(c, f);
    steps, next := OneStep(c, f, [], f, CreditOnWire);
    steps, next := OneStep(c, f, steps, next, PeerTake);
    steps, next := OneStep(c, f, steps, next, PeerData(Data(Some(f.rcv.received), [], true)));
    steps, next := OneStep(c, f, steps, next, Receive);
    assert steps == [CreditOnWire, PeerTake, PeerData(Data(Some(f.rcv.received), [], true)), Receive];
  }

  /** What happens after the credit is sent again. */
  function Overflow(received: nat): seq<Step> {
    [Receive, AnswerOnWire, PeerTake] + [CreditOnWire, PeerTake, PeerData(Data(Some(received), [], true)), Receive]
  }

  /** On a full queue a delivered credit that is sent again can overflow it: the answer to the begin is
      clamped at zero, so that the credit comes on top of the window when it goes out after the answer. */
  lemma FullQueueOverflows(c: Config, f: Flow) returns (over: Flow)
    requires Inv(c, f) && f.onWire && f.rcv.live && !f.rcv.ended && |f.rcv.queue| == c.window
    requires !f.phase.AnswerHeld?
    ensures Leads(c, f, [Reconnect(true)] + Overflow(f.rcv.received), over) && over.overflowed
  {
    NoStep(c, f);
    var one, again := OneStep(c, f, [], f, Reconnect(true));
    var answered := AnsweredWithNothing(c, again);
    over := SpentOnFullQueue(c, answered);
    LeadsOn(c, again, [Receive, AnswerOnWire, PeerTake], answered,
            [CreditOnWire, PeerTake, PeerData(Data(Some(f.rcv.received), [], true)), Receive], over);
    LeadsOn(c, f, one, again, Overflow(f.rcv.received), over);
    assert one == [Reconnect(true)];
  }

  lemma {:induction false} PrefixRuns(c: Config, steps: seq<Step>, later: seq<Step>)
    requires Exec(c, steps + later).Some?
    ensures Exec(c, steps).Some?
    decreases |later|
  {
    if later == [] {
      assert steps + later == steps;
    } else {
      var before := later[..|later| - 1];
      assert (steps + later)[..|steps + later| - 1] == steps + before;
      PrefixRuns(c, steps, before);
    }
  }

  /** The exact condition, in every configuration and every state of an unfinished stream that a run reaches:
      when the connection breaks over a delivered credit, sending it again can cut off a peer that keeps the
      rules if and only if the queue is full at that moment and the receive loop is not sending the answer to a
      begin; in that answer the client would be stuck and send nothing again. */
  lemma ResendOverflowsIffQueueFull(c: Config, steps: seq<Step>)
    requires c.window > 0 && HarmlessRun(c, steps) && Exec(c, steps).Some?
    requires var f := Exec(c, steps).value; f.onWire && f.rcv.live && !f.rcv.ended
    ensures var resent := steps + [Reconnect(true)];
            (exists later :: HarmlessFrom(c, resent, later) && Exec(c, resent + later).Some?
                             && Exec(c, resent + later).value.overflowed)
            <==> |Exec(c, steps).value.rcv.queue| == c.window && !Exec(c, steps).value.phase.AnswerHeld?
  {
    RunKeeps(c, steps);
    var f := Exec(c, steps).value;
    var resent := steps + [Reconnect(true)];
    if f.phase.AnswerHeld? {
      forall later ensures Exec(c, resent + later).None? {
        if Exec(c, resent + later).Some? {
          PrefixRuns(c, resent, later);
          assert resent[..|steps|] == steps;
        }
      }
    } else if |f.rcv.queue| == c.window {
      var over := FullQueueOverflows(c, f);
      assert steps + ([Reconnect(true)] + Overflow(f.rcv.received)) == resent + Overflow(f.rcv.received);
      NoLaterResend(c, resent, Overflow(f.rcv.received));
    } else {
      assert HarmlessRun(c, resent) by { assert resent[..|steps|] == steps; }
      forall later | HarmlessFrom(c, resent, later) && Exec(c, resent + later).Some?
        ensures !Exec(c, resent + later).value.overflowed
      {
        HarmlessThroughout(c, resent, later);
        RunKeeps(c, resent + later);
      }
    }
  }

  // ---- and it can happen with every window

  function Chunks(n: nat): seq<Rcv.Item> {
    seq(n, _ => Rcv.Body([]))
  }

  /** The stream with `n` chunks queued and nothing on its way. */
  function Queued(c: Config, n: nat, consumer: Rcv.Consumer, balance: nat): Flow {
    Flow(Rcv.Fresh(c.window, c.contentLength).(queue := Chunks(n), consumer := consumer,
                                               pending := if consumer == Rcv.AtSend then 1 else 0),
         [], [], balance, Open, consumer == Rcv.AtSend, false, 0, 0)
  }

  /** One more credit is spent. */
  function MoreQueued(): seq<Step> {
    [PeerData(Data(Some(0), [], false)), Receive]
  }

  lemma OneMoreQueued(c: Config, n: nat, consumer: Rcv.Consumer, balance: nat)
    requires 0 < n <= c.window
    ensures Leads(c, Queued(c, n - 1, consumer, balance + 1), MoreQueued(), Queued(c, n, consumer, balance))
  {
    var f := Queued(c, n - 1, consumer, balance + 1);
    NoStep(c, f);
    var steps, next := OneStep(c, f, [], f, PeerData(Data(Some(0), [], false)));
    assert next.toReceiver == [Data(Some(0), [], false)];
    steps, next := OneStep(c, f, steps, next, Receive);
    assert Chunks(n - 1) + [Rcv.Body([])] == Chunks(n);
    assert next.toReceiver == [] && next.rcv == Queued(c, n, consumer, balance).rcv;
    assert steps == MoreQueued();
  }

  /** A run that fills the queue up to `n` chunks and sends no credit again. */
  ghost predicate FillsUpTo(c: Config, steps: seq<Step>, n: nat, balance: nat) {
    Leads(c, Start(c), steps, Queued(c, n, Rcv.AtGet, balance)) && Reconnect(true) !in steps
  }

  lemma WindowGranted(c: Config, n: nat, balance: nat)
    requires n == 0 && balance == c.window
    ensures FillsUpTo(c, [AnswerOnWire, PeerTake], n, balance)
  {
    var f := Start(c);
    NoStep(c, f);
    var steps, next := OneStep(c, f, [], f, AnswerOnWire);
    assert next.toPeer == [Replace(c.window)];
    steps, next := OneStep(c, f, steps, next, PeerTake);
    assert next.toPeer == [] && Chunks(0) == [];
    assert next.rcv == Queued(c, 0, Rcv.AtGet, c.window).rcv;
    assert steps == [AnswerOnWire, PeerTake];
  }

  lemma NoneInEither(steps: seq<Step>, later: seq<Step>)
    requires Reconnect(true) !in steps && Reconnect(true) !in later
    ensures Reconnect(true) !in steps + later
  {}

  lemma OneMoreFills(c: Config, steps: seq<Step>, n: nat, balance: nat)
    requires 0 < n <= c.window && FillsUpTo(c, steps, n - 1, balance + 1)
    ensures FillsUpTo(c, steps + MoreQueued(), n, balance)
  {
    OneMoreQueued(c, n, Rcv.AtGet, balance);
    LeadsOn(c, Start(c), steps, Queued(c, n - 1, Rcv.AtGet, balance + 1), MoreQueued(),
            Queued(c, n, Rcv.AtGet, balance));
    NoneInEither(steps, MoreQueued());
  }

  lemma {:induction false} QueueFills(c: Config, n: nat, balance: nat) returns (steps: seq<Step>)
    requires n + balance == c.window
    ensures FillsUpTo(c, steps, n, balance)
    decreases n
  {
    if n == 0 {
      WindowGranted(c, n, balance);
      steps := [AnswerOnWire, PeerTake];
    } else {
      var shorter := QueueFills(c, n - 1, balance + 1);
      OneMoreFills(c, shorter, n, balance);
      steps := shorter + MoreQueued();
    }
  }

  /** One chunk is consumed, and the credit for it reaches the peer while its sender waits for the send to
      return. */
  function ConsumedOne(): seq<Step> {
    [Consumer(Rcv.ConsumerGet), Consumer(Rcv.ConsumerResume), CreditOnWire, PeerTake]
  }

  lemma OneConsumed(c: Config)
    requires c.window > 0
    ensures Leads(c, Queued(c, c.window, Rcv.AtGet, 0), ConsumedOne(), Queued(c, c.window - 1, Rcv.AtSend, 0 + 1))
  {
    var f := Queued(c, c.window, Rcv.AtGet, 0);
    NoStep(c, f);
    var steps, next := OneStep(c, f, [], f, Consumer(Rcv.ConsumerGet));
    assert next.rcv.queue == Chunks(c.window - 1) && next.rcv.upstream == [];
    steps, next := OneStep(c, f, steps, next, Consumer(Rcv.ConsumerResume));
    assert next.rcv == Queued(c, c.window - 1, Rcv.AtSend, 1).rcv;
    steps, next := OneStep(c, f, steps, next, CreditOnWire);
    assert next.toPeer == [Add(1)];
    steps, next := OneStep(c, f, steps, next, PeerTake);
    assert next.toPeer == [];
    assert steps == ConsumedOne();
  }

  /** The queue is full again, the credit that made it so still being sent. */
  lemma FullWhileSending(c: Config) returns (steps: seq<Step>)
    requires c.window > 0
    ensures Leads(c, Start(c), steps, Queued(c, c.window, Rcv.AtSend, 0)) && Reconnect(true) !in steps
  {
    var filling := QueueFills(c, c.window, 0);
    var full := Queued(c, c.window, Rcv.AtGet, 0);
    OneConsumed(c);
    OneMoreQueued(c, c.window, Rcv.AtSend, 0);
    LeadsOn(c, full, ConsumedOne(), Queued(c, c.window - 1, Rcv.AtSend, 0 + 1), MoreQueued(),
            Queued(c, c.window, Rcv.AtSend, 0));
    LeadsOn(c, Start(c), filling, full, ConsumedOne() + MoreQueued(), Queued(c, c.window, Rcv.AtSend, 0));
    steps := filling + (ConsumedOne() + MoreQueued());
    NoneInEither(filling, ConsumedOne() + MoreQueued());
  }

  /** Every window, however large, has a run in which the peer keeps the rules and is cut off. */
  lemma EveryWindowCanOverflow(c: Config) returns (steps: seq<Step>)
    requires c.window > 0
    ensures Exec(c, steps).Some? && Exec(c, steps).value.overflowed
  {
    var full := FullWhileSending(c);
    LeadsFromStart(c, full, Queued(c, c.window, Rcv.AtSend, 0));
    NoResendIsHarmless(c, full);
    RunKeeps(c, full);
    var over := FullQueueOverflows(c, Queued(c, c.window, Rcv.AtSend, 0));
    steps := full + ([Reconnect(true)] + Overflow(0));
  }

  // ---- a stream that is gone

  /** What every run keeps, whatever overflows. */
  ghost predicate Sound(f: Flow) {
    Rcv.Inv(f.rcv) && (f.onWire ==> f.rcv.consumer == Rcv.AtSend)
  }

  lemma ReceiveIsSound(c: Config, f: Flow)
    requires Sound(f) && Can(c, f, Receive)
    ensures Sound(Do(c, f, Receive))
  {
    match f.toReceiver[0] {
      case Data(offset, payload, endOfBody) =>
        Rcv.DataKeepsInv(f.rcv, offset, payload, endOfBody, c.maxBody, true);
      case End => if f.rcv.live && !f.rcv.ended { Rcv.WithEndKeepsInv(f.rcv); }
      case Begin =>
    }
  }

  lemma SoundStep(c: Config, f: Flow, step: Step)
    requires Sound(f) && Can(c, f, step)
    ensures Sound(Do(c, f, step))
  {
    match step {
      case Receive => ReceiveIsSound(c, f);
      case Consumer(event) =>
        Rcv.ApplyKeepsInv(f.rcv, event, c.maxBody);
        ConsumerFacts(f.rcv, event, c.maxBody);
      case _ =>
    }
  }

  lemma {:induction false} RunIsSound(c: Config, steps: seq<Step>)
    ensures Exec(c, steps).Some? ==> Sound(Exec(c, steps).value)
  {
    if steps != [] {
      var last := |steps| - 1;
      RunIsSound(c, steps[..last]);
      if Exec(c, steps).Some? { SoundStep(c, Exec(c, steps[..last]).value, steps[last]); }
    }
  }

  /** Frames that the peer still sends on credits it holds, after the stream was cut off or cancelled, are
      taken off the connection and change nothing: the connection is kept. */
  lemma GoneStreamAbsorbs(c: Config, steps: seq<Step>)
    requires Exec(c, steps).Some?
    requires var f := Exec(c, steps).value; !f.rcv.live && Can(c, f, Receive) && !f.toReceiver[0].Begin?
    ensures var f := Exec(c, steps).value;
            Do(c, f, Receive) == f.(toReceiver := f.toReceiver[1..])
  {
    RunIsSound(c, steps);
  }
}
