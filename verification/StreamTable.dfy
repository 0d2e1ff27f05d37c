/**
 The table of streamed requests and the memory of those that ended: which frames are for a stream, which are
 absorbed because their stream ended recently, and which are refused.

 The clock is the time that comes with each event.
 */
module StreamTables {
  import opened Bytes
  import Rcv = RequestStreams
  import Mem = ReplyCaches

  datatype Table = Table(streams: map<string, Rcv.Receiver>, terminated: seq<Mem.Entry>)

  /** Begin: a new stream is entered.  TaskEnds: the task of a stream ends, and takes it out.  PeerError: the
      peer's error frame takes it out.  Consumer: its body generator takes a step. */
  datatype Event =
    | Begin(id: string, window: nat, contentLength: Option<nat>)
    | Data(id: string, offset: Option<nat>, payload: Bytes, endOfBody: bool)
    | End(id: string)
    | Consumer(id: string, step: Rcv.Event)
    | TaskEnds(id: string)
    | PeerError(id: string)

  datatype Timed = Timed(event: Event, now: real)

  function Start(): Table {
    Table(map[], [])
  }

  /** What the handlers see under an id: the entry of the table, or a stream that is gone. */
  function Entry(t: Table, id: string): Rcv.Receiver {
    if id in t.streams then t.streams[id] else Rcv.Dropped(Rcv.Fresh(0, None))
  }

  /** The stream is taken out of the table, and its id remembered. */
  function TakenOut(t: Table, id: string, now: real): Table {
    Table(t.streams - {id}, Mem.Remember(t.terminated, id, now))
  }

  /** The stream after a frame, which may have ended it. */
  function Updated(t: Table, id: string, after: Rcv.Receiver, now: real): Table {
    if id !in t.streams then t
    else if after.live then t.(streams := t.streams[id := after])
    else TakenOut(t, id, now)
  }

  function OnData(t: Table, id: string, offset: Option<nat>, payload: Bytes, endOfBody: bool, maxBody: nat, now: real)
    : (Table, Rcv.Outcome)
  {
    var (after, outcome) := Rcv.OnData(Entry(t, id), offset, payload, endOfBody, maxBody,
                                       Mem.IsTerminated(t.terminated, id, now));
    (Updated(t, id, after, now), outcome)
  }

  function OnEnd(t: Table, id: string, now: real): (Table, Rcv.Outcome) {
    var (after, outcome) := Rcv.OnEnd(Entry(t, id), Mem.IsTerminated(t.terminated, id, now));
    (Updated(t, id, after, now), outcome)
  }

  predicate Can(t: Table, event: Event) {
    match event
    case Begin(id, _, _) => id !in t.streams
    case Data(id, _, _, _) => !Entry(t, id).eofBlocked
    case End(id) => !Entry(t, id).eofBlocked
    case Consumer(id, step) =>
      id in t.streams && !step.Envelope? && !step.EndFrame? && !step.Cancel? && Rcv.Enabled(t.streams[id], step)
    case _ => true
  }

  function Do(t: Table, event: Event, maxBody: nat, now: real): Table
    requires Can(t, event)
  {
    match event
    case Begin(id, window, contentLength) => t.(streams := t.streams[id := Rcv.Fresh(window, contentLength)])
    case Data(id, offset, payload, endOfBody) => OnData(t, id, offset, payload, endOfBody, maxBody, now).0
    case End(id) => OnEnd(t, id, now).0
    case Consumer(id, step) => t.(streams := t.streams[id := Rcv.Apply(t.streams[id], step, maxBody)])
    case TaskEnds(id) => TakenOut(t, id, now)
    case PeerError(id) => if id in t.streams then TakenOut(t, id, now) else t
  }

  function Exec(events: seq<Timed>, maxBody: nat): Option<Table> {
    if events == [] then Some(Start()) else
      var last := |events| - 1;
      var before := Exec(events[..last], maxBody);
      if before.Some? && Can(before.value, events[last].event)
      then Some(Do(before.value, events[last].event, maxBody, events[last].now))
      else None
  }

  // ---- the memory is what the history says

  /** The ids taken out, each with its time, in order. */
  function TakenOuts(events: seq<Timed>, maxBody: nat): seq<Mem.Call>
    requires Exec(events, maxBody).Some?
  {
    if events == [] then [] else
      var last := |events| - 1;
      var before := Exec(events[..last], maxBody).value;
      TakenOuts(events[..last], maxBody) + TakenOutBy(before, events[last].event, maxBody, events[last].now)
  }

  /** The id that an event takes out: of its task when that ends, else of a stream that is no longer there. */
  function TakenOutBy(t: Table, event: Event, maxBody: nat, now: real): seq<Mem.Call>
    requires Can(t, event)
  {
    var id := if event.Consumer? then "" else event.id;
    if event.TaskEnds? || (!event.Consumer? && id in t.streams && id !in Do(t, event, maxBody, now).streams)
    then [Mem.Call(id, now)]
    else []
  }

  lemma {:induction false} RememberOneMore(entries: seq<Mem.Entry>, calls: seq<Mem.Call>, call: Mem.Call)
    ensures Mem.RememberAll(entries, calls + [call]) == Mem.Remember(Mem.RememberAll(entries, calls), call.id, call.now)
    decreases |calls|
  {
    if calls == [] {
      assert [] + [call] == [call] && [call][1..] == [];
    } else {
      assert (calls + [call])[1..] == calls[1..] + [call];
      RememberOneMore(Mem.Remember(entries, calls[0].id, calls[0].now), calls[1..], call);
    }
  }

  lemma MemoryStep(t: Table, event: Event, maxBody: nat, now: real)
    requires Can(t, event)
    ensures var taken := TakenOutBy(t, event, maxBody, now);
            Do(t, event, maxBody, now).terminated
            == if taken == [] then t.terminated else Mem.Remember(t.terminated, taken[0].id, taken[0].now)
    ensures |TakenOutBy(t, event, maxBody, now)| <= 1
  {}

  lemma {:induction false} MemoryIsTold(events: seq<Timed>, maxBody: nat)
    requires Exec(events, maxBody).Some?
    ensures Exec(events, maxBody).value.terminated == Mem.RememberAll([], TakenOuts(events, maxBody))
  {
    if events != [] {
      var last := |events| - 1;
      MemoryIsTold(events[..last], maxBody);
      var before := Exec(events[..last], maxBody).value;
      var event, now := events[last].event, events[last].now;
      MemoryStep(before, event, maxBody, now);
      var taken := TakenOutBy(before, event, maxBody, now);
      var calls := TakenOuts(events[..last], maxBody);
      if taken == [] { assert calls + taken == calls; } else { RememberOneMore([], calls, taken[0]); }
    }
  }

  ghost predicate AllLive(t: Table) {
    forall id :: id in t.streams ==> t.streams[id].live
  }

  lemma LiveStep(t: Table, event: Event, maxBody: nat, now: real)
    requires AllLive(t) && Can(t, event)
    ensures AllLive(Do(t, event, maxBody, now))
  {
    if event.Consumer? { ConsumerKeepsLive(t.streams[event.id], event.step, maxBody); }
  }

  lemma ConsumerKeepsLive(r: Rcv.Receiver, step: Rcv.Event, maxBody: nat)
    requires !step.Envelope? && !step.EndFrame? && !step.Cancel?
    ensures Rcv.Apply(r, step, maxBody).live == r.live
  {}

  /** The table holds live streams only. */
  lemma {:induction false} RunKeepsLive(events: seq<Timed>, maxBody: nat)
    requires Exec(events, maxBody).Some?
    ensures AllLive(Exec(events, maxBody).value)
  {
    if events != [] {
      var last := |events| - 1;
      RunKeepsLive(events[..last], maxBody);
      LiveStep(Exec(events[..last], maxBody).value, events[last].event, maxBody, events[last].now);
    }
  }

  // ---- frames without a stream

  /** A frame for a stream that is not in the table changes nothing; it is absorbed or, as a violation, ends the
      connection. */
  lemma StrayFrame(t: Table, id: string, offset: Option<nat>, payload: Bytes, endOfBody: bool, maxBody: nat, now: real)
    requires id !in t.streams
    ensures OnData(t, id, offset, payload, endOfBody, maxBody, now).0 == t && OnEnd(t, id, now).0 == t
    ensures var data, end := OnData(t, id, offset, payload, endOfBody, maxBody, now).1, OnEnd(t, id, now).1;
            && data == end
            && data == if Mem.IsTerminated(t.terminated, id, now) then Rcv.Absorbed
                       else Rcv.Violates(Rcv.UnknownStream)
  {}

  lemma {:induction false} NeverRemembered(entries: seq<Mem.Entry>, calls: seq<Mem.Call>, id: string)
    requires !Mem.Has(entries, id) && forall i :: 0 <= i < |calls| ==> calls[i].id != id
    ensures !Mem.Has(Mem.RememberAll(entries, calls), id)
  {
    Mem.GoneStaysGone(entries, id, calls);
  }

  /** Over every run: a frame for an id that was never taken out of the table, and is not in it, is refused. */
  lemma UnknownIsRefused(events: seq<Timed>, id: string, offset: Option<nat>, payload: Bytes, endOfBody: bool,
                         maxBody: nat, now: real)
    requires Exec(events, maxBody).Some? && id !in Exec(events, maxBody).value.streams
    requires forall i :: 0 <= i < |TakenOuts(events, maxBody)| ==> TakenOuts(events, maxBody)[i].id != id
    ensures var t := Exec(events, maxBody).value;
            && OnData(t, id, offset, payload, endOfBody, maxBody, now) == (t, Rcv.Violates(Rcv.UnknownStream))
            && OnEnd(t, id, now) == (t, Rcv.Violates(Rcv.UnknownStream))
  {
    MemoryIsTold(events, maxBody);
    NeverRemembered([], TakenOuts(events, maxBody), id);
    StrayFrame(Exec(events, maxBody).value, id, offset, payload, endOfBody, maxBody, now);
  }

  lemma {:induction false} AllDistinct(entries: seq<Mem.Entry>, calls: seq<Mem.Call>)
    requires Mem.DistinctIds(entries)
    ensures Mem.DistinctIds(Mem.RememberAll(entries, calls))
    decreases |calls|
  {
    if calls != [] {
      Mem.RememberKeepsDistinct(entries, calls[0].id, calls[0].now);
      AllDistinct(Mem.Remember(entries, calls[0].id, calls[0].now), calls[1..]);
    }
  }

  lemma {:induction false} RememberInTwoParts(entries: seq<Mem.Entry>, first: seq<Mem.Call>, later: seq<Mem.Call>)
    ensures Mem.RememberAll(entries, first + later) == Mem.RememberAll(Mem.RememberAll(entries, first), later)
    decreases |first|
  {
    if first == [] {
      assert first + later == later;
    } else {
      assert (first + later)[1..] == first[1..] + later;
      RememberInTwoParts(Mem.Remember(entries, first[0].id, first[0].now), first[1..], later);
    }
  }

  /** Over every run: a frame for a stream that was taken out is absorbed if and only if the time to live since it
      was last taken out is not over and the streams that ended since did not crowd its id out; it is refused,
      and ends the connection, otherwise. */
  lemma EndedIsAbsorbedIff(events: seq<Timed>, id: string, offset: Option<nat>, payload: Bytes, endOfBody: bool,
                           maxBody: nat, now: real, before: seq<Mem.Call>, when: real, later: seq<Mem.Call>)
    requires Exec(events, maxBody).Some? && id !in Exec(events, maxBody).value.streams
    requires TakenOuts(events, maxBody) == before + [Mem.Call(id, when)] + later
    requires forall i :: 0 <= i < |later| ==> later[i].id != id && later[i].now <= now
    ensures var t := Exec(events, maxBody).value;
            var remembered := Mem.Remember(Mem.RememberAll([], before), id, when);
            var outcome := if now - when <= Mem.TTL && Mem.NeverCrowded(remembered, id, when, later)
                           then Rcv.Absorbed else Rcv.Violates(Rcv.UnknownStream);
            && OnData(t, id, offset, payload, endOfBody, maxBody, now) == (t, outcome)
            && OnEnd(t, id, now) == (t, outcome)
  {
    var entries := Mem.RememberAll([], before);
    MemoryIsTold(events, maxBody);
    RememberInTwoParts([], before + [Mem.Call(id, when)], later);
    RememberOneMore([], before, Mem.Call(id, when));
    AllDistinct([], before);
    Mem.RecognisedIffNeverCrowded(entries, id, when, later, now);
    StrayFrame(Exec(events, maxBody).value, id, offset, payload, endOfBody, maxBody, now);
  }

  /** A frame that ends its stream takes it out then and there, and remembers it; every other frame for a stream in
      the table leaves it there. */
  lemma FrameTakesOutIff(events: seq<Timed>, event: Event, maxBody: nat, now: real)
    requires Exec(events, maxBody).Some? && Can(Exec(events, maxBody).value, event) && (event.Data? || event.End?)
    requires event.id in Exec(events, maxBody).value.streams
    ensures var t := Exec(events, maxBody).value;
            var outcome := if event.Data?
                           then OnData(t, event.id, event.offset, event.payload, event.endOfBody, maxBody, now).1
                           else OnEnd(t, event.id, now).1;
            var after := Do(t, event, maxBody, now);
            && (event.id !in after.streams <==> outcome in {Rcv.BodyTooLarge, Rcv.WindowOverflow, Rcv.LengthMismatch})
            && (event.id !in after.streams ==> Mem.IsTerminated(after.terminated, event.id, now))
            && outcome != Rcv.Absorbed && outcome != Rcv.Violates(Rcv.UnknownStream)
            && forall other :: other != event.id ==>
                 (other in after.streams <==> other in t.streams)
                 && (other in t.streams ==> after.streams[other] == t.streams[other])
  {
    RunKeepsLive(events, maxBody);
    var t := Exec(events, maxBody).value;
    Mem.RememberIsBounded(t.terminated, event.id, now, now);
  }

  /** Who comes into the table and who leaves it: a begin enters a stream; the end of its task, the peer's error and
      a frame that ends it take it out, and its id is remembered then and there. */
  lemma EntersAndLeaves(events: seq<Timed>, event: Event, maxBody: nat, now: real, id: string)
    requires Exec(events, maxBody).Some? && Can(Exec(events, maxBody).value, event)
    ensures var t := Exec(events, maxBody).value;
            var after := Do(t, event, maxBody, now);
            && (id !in t.streams ==> (id in after.streams <==> event.Begin? && event.id == id))
            && (id in t.streams && event in {TaskEnds(id), PeerError(id)} ==> id !in after.streams)
            && (id in t.streams && (event.id != id || event.Begin? || event.Consumer?) ==> id in after.streams)
            && (id in t.streams && id !in after.streams ==> Mem.IsTerminated(after.terminated, id, now))
  {
    Mem.RememberIsBounded(Exec(events, maxBody).value.terminated, event.id, now, now);
  }

  // ---- streams do not disturb each other

  /** What an event is for the stream of an id. */
  function For(event: Event, id: string): seq<Rcv.Event> {
    if event.id != id then [] else
    match event
    case Data(_, offset, payload, endOfBody) => [Rcv.Envelope(offset, payload, endOfBody)]
    case End(_) => [Rcv.EndFrame]
    case Consumer(_, step) => [step]
    case _ => []
  }

  function AllFor(events: seq<Timed>, id: string): seq<Rcv.Event> {
    if events == [] then [] else AllFor(events[..|events| - 1], id) + For(events[|events| - 1].event, id)
  }

  lemma {:induction false} RunOneMore(r: Rcv.Receiver, steps: seq<Rcv.Event>, last: Rcv.Event, maxBody: nat)
    ensures Rcv.Run(r, steps + [last], maxBody) == Rcv.Apply(Rcv.Run(r, steps, maxBody), last, maxBody)
    decreases |steps|
  {
    if steps == [] {
      assert [] + [last] == [last] && [last][1..] == [];
    } else {
      assert (steps + [last])[1..] == steps[1..] + [last];
      RunOneMore(Rcv.Apply(r, steps[0], maxBody), steps[1..], last, maxBody);
    }
  }

  lemma StreamStep(t: Table, event: Event, maxBody: nat, now: real, id: string)
    requires AllLive(t) && Can(t, event) && id in t.streams && id in Do(t, event, maxBody, now).streams
    ensures Do(t, event, maxBody, now).streams[id] == Rcv.Run(t.streams[id], For(event, id), maxBody)
  {
    if For(event, id) != [] { RunOneMore(t.streams[id], [], For(event, id)[0], maxBody); }
  }

  /** Over every run each stream in the table is what its own frames and its own consumer, since it was entered, have
      made of it, whatever happened to the other streams. */
  lemma {:induction false} StreamsRunAlone(events: seq<Timed>, maxBody: nat, id: string) returns (begun: nat)
    requires Exec(events, maxBody).Some? && id in Exec(events, maxBody).value.streams
    ensures begun < |events| && events[begun].event.Begin? && events[begun].event.id == id
    ensures var Begin(_, window, contentLength) := events[begun].event;
            Exec(events, maxBody).value.streams[id]
            == Rcv.Run(Rcv.Fresh(window, contentLength), AllFor(events[begun + 1..], id), maxBody)
  {
    var last := |events| - 1;
    var t := Exec(events[..last], maxBody).value;
    RunKeepsLive(events[..last], maxBody);
    if id in t.streams {
      begun := StreamsRunAlone(events[..last], maxBody, id);
      StreamStep(t, events[last].event, maxBody, events[last].now, id);
      var before, since := events[..last][begun + 1..], events[begun + 1..];
      assert since[..|since| - 1] == before;
      var own := For(events[last].event, id);
      if own == [] {
        assert AllFor(before, id) + own == AllFor(before, id);
      } else {
        var Begin(_, window, contentLength) := events[begun].event;
        assert own == [own[0]];
        RunOneMore(Rcv.Fresh(window, contentLength), AllFor(before, id), own[0], maxBody);
        RunOneMore(t.streams[id], [], own[0], maxBody);
      }
    } else {
      begun := last;
      assert events[last + 1..] == [];
    }
  }

  // ---- forgetting an expired id

  /** `is_terminated` forgets an id that it finds expired. No later answer depends on that. */
  lemma {:induction false} ForgettingIsUnobservable(
    entries: seq<Mem.Entry>, k: nat, now: real, calls: seq<Mem.Call>, id: string, later: real)
    requires Mem.DistinctIds(entries) && k < |entries| && Mem.Expired(entries[k], now) && now <= later
    requires forall i :: 0 <= i < |calls| ==> now <= calls[i].now
    ensures Mem.IsTerminated(Mem.RememberAll(Mem.Without(entries, k), calls), id, later)
       <==> Mem.IsTerminated(Mem.RememberAll(entries, calls), id, later)
  {
    if calls != [] {
      ExpiredGoesAnyway(entries, k, calls[0].now);
      var fewer := Mem.Without(entries, k);
      assert Mem.Remember(fewer, calls[0].id, calls[0].now) == Mem.Remember(entries, calls[0].id, calls[0].now);
    } else {
      WithoutOther(entries, k, id, later);
    }
  }

  lemma {:induction false} ExpiredGoesAnyway(entries: seq<Mem.Entry>, k: nat, now: real)
    requires k < |entries| && Mem.Expired(entries[k], now)
    ensures Mem.Unexpired(Mem.Without(entries, k), now) == Mem.Unexpired(entries, now)
  {
    if k == 0 {
      assert Mem.Without(entries, 0) == entries[1..];
    } else {
      assert Mem.Without(entries, k)[1..] == Mem.Without(entries[1..], k - 1);
      ExpiredGoesAnyway(entries[1..], k - 1, now);
    }
  }

  lemma WithoutOther(entries: seq<Mem.Entry>, k: nat, id: string, later: real)
    requires Mem.DistinctIds(entries) && k < |entries| && Mem.Expired(entries[k], later)
    ensures Mem.IsTerminated(Mem.Without(entries, k), id, later) <==> Mem.IsTerminated(entries, id, later)
  {
    var fewer := Mem.Without(entries, k);
    var i, j := Mem.FirstWithId(entries, id), Mem.FirstWithId(fewer, id);
    if i < |entries| && i != k { assert fewer[if i < k then i else i - 1] == entries[i]; }
    if j < |fewer| { assert entries[if j < k then j else j + 1] == fewer[j]; }
  }
}
