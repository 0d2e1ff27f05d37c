/**
 How repeated `http_req` frames are answered without a second upstream fetch: the table of fetches in
 flight, the cached replies, and the streamed responses that the peer has not confirmed yet.

 A fetch is one run of `build_http_resp_frame`, known by its index in `fetches`.
 */
module FetchOnce {
  import opened Bytes
  import opened ReplyCaches

  /** Running: no response yet.  Streaming: its streamed response was registered.  Cancelling: a
      cancellation was asked for.  Finished: done, its callback not yet run; the reply frame is cached by
      the callback, and there is none after a streamed response.  Cancelled: likewise, by cancellation.
      Over: the callback has run. */
  datatype Phase = Running | Streaming | Cancelling | Finished(replyBytes: Option<nat>) | Cancelled | Over

  datatype Fetch = Fetch(id: string, phase: Phase)

  datatype State = State(
    inflight: map<string, nat>,
    completed: seq<Entry>,
    responding: set<string>,
    fetches: seq<Fetch>)

  /** How an `http_req` frame is answered. */
  datatype Answer = Refused | BeginFrame | CachedReply | Nothing | NewFetch(fetch: nat)

  datatype Event =
    | HttpReq(id: string, now: real, atLimit: bool)
    | StreamBegins(fetch: nat)
    | FetchEnds(fetch: nat, replyBytes: Option<nat>)
    | CancelLands(fetch: nat)
    | Callback(fetch: nat, now: real)
    | CompleteFrame(id: string)
    | ErrorFrame(id: string, streamedRequest: bool)
    | OtherResponse(id: string)

  function Start(): State {
    State(map[], [], {}, [])
  }

  function SetPhase(s: State, fetch: nat, phase: Phase): State
    requires fetch < |s.fetches|
  {
    s.(fetches := s.fetches[fetch := s.fetches[fetch].(phase := phase)])
  }

  /** An `http_req` frame. The limit is checked before the cache is swept. */
  function OnHttpReq(s: State, id: string, now: real, atLimit: bool): (State, Answer) {
    if !(id in s.inflight || Has(s.completed, id)) && atLimit then (s, Refused) else
    var swept := s.(completed := Sweep(s.completed, now));
    if id != "" && id in swept.responding then (swept, BeginFrame)
    else if id != "" && Has(swept.completed, id) then (swept, CachedReply)
    else if id != "" && id in swept.inflight then (swept, Nothing)
    else
      var fetch := |s.fetches|;
      var started := swept.(fetches := swept.fetches + [Fetch(id, Running)]);
      (if id != "" then started.(inflight := started.inflight[id := fetch]) else started, NewFetch(fetch))
  }

  /** The cache as the sweep of an event finds it. */
  function BeforeSweep(s: State, event: Event): seq<Entry> {
    match event
    case Callback(fetch, now) =>
      if fetch < |s.fetches| && s.fetches[fetch].phase.Finished? && s.fetches[fetch].phase.replyBytes.Some?
      then Put(s.completed, Entry(s.fetches[fetch].id, s.fetches[fetch].phase.replyBytes.value, now))
      else s.completed
    case _ => s.completed
  }

  function OnCallback(s: State, fetch: nat, now: real): State
    requires fetch < |s.fetches|
  {
    var id := s.fetches[fetch].id;
    var phase := s.fetches[fetch].phase;
    var popped := SetPhase(s, fetch, Over).(inflight := s.inflight - {id});
    if phase.Finished? && phase.replyBytes.Some?
    then popped.(completed := Sweep(BeforeSweep(s, Callback(fetch, now)), now))
    else popped
  }

  predicate Can(s: State, event: Event) {
    match event
    case StreamBegins(fetch) => fetch < |s.fetches| && s.fetches[fetch].phase == Running
    case FetchEnds(fetch, replyBytes) =>
      && fetch < |s.fetches|
      && (s.fetches[fetch].phase == Streaming || (s.fetches[fetch].phase == Running && replyBytes.Some?))
    case CancelLands(fetch) => fetch < |s.fetches| && s.fetches[fetch].phase == Cancelling
    case Callback(fetch, _) =>
      && fetch < |s.fetches| && s.fetches[fetch].id != ""
      && (s.fetches[fetch].phase.Finished? || s.fetches[fetch].phase == Cancelled)
    case _ => true
  }

  function Do(s: State, event: Event): State
    requires Can(s, event)
  {
    match event
    case HttpReq(id, now, atLimit) => OnHttpReq(s, id, now, atLimit).0
    case StreamBegins(fetch) =>
      SetPhase(s, fetch, Streaming).(responding := s.responding + {s.fetches[fetch].id})
    case FetchEnds(fetch, replyBytes) => SetPhase(s, fetch, Finished(replyBytes))
    case CancelLands(fetch) => SetPhase(s, fetch, Cancelled)
    case Callback(fetch, now) => OnCallback(s, fetch, now)
    case CompleteFrame(id) => s.(responding := s.responding - {id})
    case ErrorFrame(id, streamedRequest) =>
      var dropped := s.(responding := s.responding - {id});
      if !streamedRequest && id in s.inflight && s.inflight[id] < |s.fetches|
         && s.fetches[s.inflight[id]].phase in {Running, Streaming}
      then SetPhase(dropped, s.inflight[id], Cancelling)
      else dropped
    case OtherResponse(id) => s.(responding := s.responding + {id})
  }

  function Exec(events: seq<Event>): Option<State> {
    if events == [] then Some(Start()) else
      var before := Exec(events[..|events| - 1]);
      if before.Some? && Can(before.value, events[|events| - 1])
      then Some(Do(before.value, events[|events| - 1]))
      else None
  }

  // ---- never two fetches at once

  ghost predicate Live(s: State, fetch: nat) {
    fetch < |s.fetches| && s.fetches[fetch].phase != Over
  }

  ghost predicate Inv(s: State) {
    && (forall f: nat :: Live(s, f) && s.fetches[f].id != "" ==>
          s.fetches[f].id in s.inflight && s.inflight[s.fetches[f].id] == f)
    && (forall id :: id in s.inflight ==> Live(s, s.inflight[id]) && s.fetches[s.inflight[id]].id == id)
  }

  lemma StepKeeps(s: State, event: Event)
    requires Inv(s) && Can(s, event)
    ensures Inv(Do(s, event))
  {
    var after := Do(s, event);
    forall f: nat | Live(after, f) && after.fetches[f].id != ""
      ensures after.fetches[f].id in after.inflight && after.inflight[after.fetches[f].id] == f
    {
      if f < |s.fetches| { assert Live(s, f) && s.fetches[f].id == after.fetches[f].id; }
    }
    forall id | id in after.inflight
      ensures Live(after, after.inflight[id]) && after.fetches[after.inflight[id]].id == id
    {
      if id in s.inflight { assert Live(s, s.inflight[id]); }
    }
  }

  lemma {:induction false} RunKeeps(events: seq<Event>)
    ensures Exec(events).Some? ==> Inv(Exec(events).value)
  {
    if events != [] {
      var prefix := events[..|events| - 1];
      RunKeeps(prefix);
      if Exec(events).Some? {
        StepKeeps(Exec(prefix).value, events[|events| - 1]);
      }
    }
  }

  /** Two fetches for one id are never live together. */
  lemma {:induction false} NeverTwoLive(events: seq<Event>, f: nat, g: nat)
    requires Exec(events).Some?
    requires var s := Exec(events).value;
             Live(s, f) && Live(s, g) && s.fetches[f].id == s.fetches[g].id != ""
    ensures f == g
  {
    RunKeeps(events);
  }

  // ---- what has to happen between two fetches

  /** Event number `i` starts a fetch for `id`. */
  ghost predicate StartsAt(events: seq<Event>, i: nat, id: string) {
    && i < |events| && events[i].HttpReq? && events[i].id == id
    && Exec(events[..i]).Some?
    && OnHttpReq(Exec(events[..i]).value, id, events[i].now, events[i].atLimit).1.NewFetch?
  }

  /** Event number `k` gives up what is known about `id`: the peer says that it has the whole response,
      or reports an error (which also cancels the fetch), or the cached reply is swept away. */
  ghost predicate GivesUpAt(events: seq<Event>, k: nat, id: string) {
    && k < |events| && Exec(events[..k]).Some?
    && var s := Exec(events[..k]).value;
       var event := events[k];
       || event == CompleteFrame(id)
       || (event.ErrorFrame? && event.id == id)
       || (Can(s, event) && Has(BeforeSweep(s, event), id) && !Has(Do(s, event).completed, id))
  }

  /** The fetch table still answers for `id`, so that a repeated request will not start a fetch. */
  ghost predicate Covered(s: State, id: string) {
    || id in s.responding
    || Has(s.completed, id)
    || (id in s.inflight && s.inflight[id] < |s.fetches|
        && var phase := s.fetches[s.inflight[id]].phase;
           phase == Running || (phase.Finished? && phase.replyBytes.Some?))
  }

  lemma {:induction false} PutHas(entries: seq<Entry>, entry: Entry, id: string)
    ensures Has(Put(entries, entry), id) <==> Has(entries, id) || id == entry.id
  {
    var after := Put(entries, entry);
    var k := FirstWithId(entries, id);
    if k < |entries| {
      assert after[k].id == id;
    }
    if id == entry.id {
      assert after[FirstWithId(entries, entry.id)].id == id;
    }
    var m := FirstWithId(after, id);
    if m < |after| && id != entry.id {
      assert entries[m].id == id;
    }
  }

  lemma CallbackStaysCovered(s: State, fetch: nat, now: real, id: string)
    requires Inv(s) && Can(s, Callback(fetch, now)) && id != "" && Covered(s, id)
    requires !(Has(BeforeSweep(s, Callback(fetch, now)), id) && !Has(Do(s, Callback(fetch, now)).completed, id))
    ensures Covered(Do(s, Callback(fetch, now)), id)
  {
    var phase := s.fetches[fetch].phase;
    if phase.Finished? && phase.replyBytes.Some? {
      PutHas(s.completed, Entry(s.fetches[fetch].id, phase.replyBytes.value, now), id);
    }
  }

  lemma RequestStaysCovered(s: State, event: Event, id: string)
    requires Inv(s) && event.HttpReq? && id != "" && Covered(s, id)
    requires !(Has(s.completed, id) && !Has(Do(s, event).completed, id))
    ensures Covered(Do(s, event), id)
  {}

  lemma PhaseStaysCovered(s: State, event: Event, id: string)
    requires Inv(s) && Can(s, event) && (event.StreamBegins? || event.FetchEnds? || event.CancelLands?)
    requires id != "" && Covered(s, id)
    ensures Covered(Do(s, event), id)
  {}

  lemma FrameStaysCovered(s: State, event: Event, id: string)
    requires Inv(s) && (event.CompleteFrame? || event.ErrorFrame? || event.OtherResponse?)
    requires id != "" && Covered(s, id) && event != CompleteFrame(id) && !(event.ErrorFrame? && event.id == id)
    ensures Covered(Do(s, event), id)
  {}

  lemma {:induction false} StaysCovered(s: State, event: Event, id: string)
    requires Inv(s) && Can(s, event) && id != "" && Covered(s, id)
    requires event != CompleteFrame(id) && !(event.ErrorFrame? && event.id == id)
    requires !(Has(BeforeSweep(s, event), id) && !Has(Do(s, event).completed, id))
    ensures Covered(Do(s, event), id)
  {
    match event {
      case HttpReq(_, _, _) => RequestStaysCovered(s, event, id);
      case Callback(fetch, now) => CallbackStaysCovered(s, fetch, now, id);
      case StreamBegins(_) => PhaseStaysCovered(s, event, id);
      case FetchEnds(_, _) => PhaseStaysCovered(s, event, id);
      case CancelLands(_) => PhaseStaysCovered(s, event, id);
      case _ => FrameStaysCovered(s, event, id);
    }
  }

  lemma StartCovers(s: State, id: string, now: real, atLimit: bool)
    requires id != "" && OnHttpReq(s, id, now, atLimit).1.NewFetch?
    ensures Covered(OnHttpReq(s, id, now, atLimit).0, id)
    ensures id !in s.responding && id !in s.inflight && !Has(Sweep(s.completed, now), id)
  {}

  lemma {:induction false} CoveredUntilGivenUp(events: seq<Event>, i: nat, j: nat, id: string)
    requires id != "" && StartsAt(events, i, id) && i < j <= |events| && Exec(events[..j]).Some?
    requires forall k :: i < k < j ==> !GivesUpAt(events, k, id)
    ensures Covered(Exec(events[..j]).value, id)
    decreases j
  {
    var last := j - 1;
    assert events[..j][..last] == events[..last];
    var s := Exec(events[..last]).value;
    RunKeeps(events[..last]);
    if last == i {
      StartCovers(s, id, events[i].now, events[i].atLimit);
    } else {
      CoveredUntilGivenUp(events, i, last, id);
      assert !GivesUpAt(events, last, id);
      StaysCovered(s, events[last], id);
    }
  }

  /** At most once, over every run and every reconnect: a second fetch for an id starts only if after the
      first start the peer gave the response up (`complete` or `error`), or the cached reply expired or
      was evicted, at the latest in the sweep that the second request itself begins with. */
  lemma {:induction false} AtMostOnce(events: seq<Event>, i: nat, j: nat, id: string)
    requires id != "" && i < j && StartsAt(events, i, id) && StartsAt(events, j, id)
    ensures exists k :: i < k <= j && GivesUpAt(events, k, id)
  {
    if !exists k :: i < k < j && GivesUpAt(events, k, id) {
      CoveredUntilGivenUp(events, i, j, id);
      var s := Exec(events[..j]).value;
      StartCovers(s, id, events[j].now, events[j].atLimit);
      assert GivesUpAt(events, j, id);
    }
  }

  /** The tables know only ids that a frame has named. */
  lemma {:induction false} UnknownUntilNamed(events: seq<Event>, id: string)
    requires Exec(events).Some?
    requires forall i :: 0 <= i < |events| ==>
               !(events[i].HttpReq? && events[i].id == id) && events[i] != OtherResponse(id)
    ensures var s := Exec(events).value;
            && id !in s.inflight && id !in s.responding && !Has(s.completed, id)
            && forall f :: 0 <= f < |s.fetches| ==> s.fetches[f].id != id
    decreases |events|
  {
    if events != [] {
      var prefix := events[..|events| - 1];
      UnknownUntilNamed(prefix, id);
      StaysUnknown(Exec(prefix).value, events[|events| - 1], id);
    }
  }

  ghost predicate Unknown(s: State, id: string) {
    && id !in s.inflight && id !in s.responding && !Has(s.completed, id)
    && forall f :: 0 <= f < |s.fetches| ==> s.fetches[f].id != id
  }

  lemma SweepAddsNoId(entries: seq<Entry>, now: real, id: string)
    requires !Has(entries, id)
    ensures !Has(Sweep(entries, now), id)
  {
    SweepIsExact(entries, now);
    HasIffMember(entries, id);
    HasIffMember(Sweep(entries, now), id);
  }

  lemma StaysUnknown(s: State, event: Event, id: string)
    requires Unknown(s, id) && Can(s, event)
    requires !(event.HttpReq? && event.id == id) && event != OtherResponse(id)
    ensures Unknown(Do(s, event), id)
  {
    match event {
      case HttpReq(_, now, _) => SweepAddsNoId(s.completed, now, id);
      case Callback(fetch, now) =>
        var phase := s.fetches[fetch].phase;
        if phase.Finished? && phase.replyBytes.Some? {
          PutHas(s.completed, Entry(s.fetches[fetch].id, phase.replyBytes.value, now), id);
          SweepAddsNoId(BeforeSweep(s, event), now, id);
        }
      case _ =>
    }
  }

  /** And at least once: the first request for an id is fetched unless the limit refuses it. */
  lemma {:induction false} FirstRequestIsFetched(events: seq<Event>, id: string, now: real, atLimit: bool)
    requires Exec(events).Some?
    requires forall i :: 0 <= i < |events| ==>
               !(events[i].HttpReq? && events[i].id == id) && events[i] != OtherResponse(id)
    ensures OnHttpReq(Exec(events).value, id, now, atLimit).1
         == if atLimit then Refused else NewFetch(|Exec(events).value.fetches|)
  {
    UnknownUntilNamed(events, id);
    SweepAddsNoId(Exec(events).value.completed, now, id);
  }

  // ---- how a repeated request is answered, told from the history

  /** Event number `i` registers a streamed response for `id`. */
  ghost predicate RegistersAt(events: seq<Event>, i: nat, id: string) {
    && i < |events|
    && (events[i] == OtherResponse(id)
        || (events[i].StreamBegins? && Exec(events[..i]).Some?
            && var s := Exec(events[..i]).value;
               events[i].fetch < |s.fetches| && s.fetches[events[i].fetch].id == id))
  }

  /** The peer says that it has the response, or reports an error for it. */
  predicate Settles(event: Event, id: string) {
    event == CompleteFrame(id) || (event.ErrorFrame? && event.id == id)
  }

  /** A streamed response was registered for `id`, and the peer has not settled it since. */
  ghost predicate Registered(events: seq<Event>, id: string) {
    events != [] &&
    var last := |events| - 1;
    RegistersAt(events, last, id) || (Registered(events[..last], id) && !Settles(events[last], id))
  }

  /** Event number `i` is the callback of a fetch for `id` that ended with a reply. */
  ghost predicate RepliesAt(events: seq<Event>, i: nat, id: string) {
    && i < |events| && events[i].Callback? && Exec(events[..i]).Some?
    && var s := Exec(events[..i]).value;
       && events[i].fetch < |s.fetches| && s.fetches[events[i].fetch].id == id
       && s.fetches[events[i].fetch].phase.Finished? && s.fetches[events[i].fetch].phase.replyBytes.Some?
  }

  /** The sweep of event number `k` takes the reply for `id` away. */
  ghost predicate SweptAt(events: seq<Event>, k: nat, id: string) {
    && k < |events| && Exec(events[..k]).Some?
    && var s := Exec(events[..k]).value;
       Can(s, events[k]) && Has(BeforeSweep(s, events[k]), id) && !Has(Do(s, events[k]).completed, id)
  }

  /** A reply for `id` was stored, and no sweep since has taken it away. */
  ghost predicate Cached(events: seq<Event>, id: string) {
    events != [] &&
    var last := |events| - 1;
    (RepliesAt(events, last, id) || Cached(events[..last], id)) && !SweptAt(events, last, id)
  }

  /** The responses that the table holds are the registered ones. */
  lemma {:induction false} RespondingIsTold(events: seq<Event>, id: string)
    requires Exec(events).Some?
    ensures id in Exec(events).value.responding <==> Registered(events, id)
  {
    if events == [] {
    } else {
      var last := |events| - 1;
      RespondingIsTold(events[..last], id);
      RespondingStep(Exec(events[..last]).value, events[last], id);
    }
  }

  lemma RespondingStep(s: State, event: Event, id: string)
    requires Can(s, event)
    ensures id in Do(s, event).responding
       <==> || event == OtherResponse(id)
            || (event.StreamBegins? && s.fetches[event.fetch].id == id)
            || (id in s.responding && !Settles(event, id))
  {}

  /** The replies that the cache holds are those stored and not swept away since. */
  lemma {:induction false} CacheIsTold(events: seq<Event>, id: string)
    requires Exec(events).Some?
    ensures Has(Exec(events).value.completed, id) <==> Cached(events, id)
  {
    if events == [] {
    } else {
      var last := |events| - 1;
      CacheIsTold(events[..last], id);
      CacheStep(Exec(events[..last]).value, events[last], id);
    }
  }

  ghost predicate Replies(s: State, event: Event, id: string) {
    && event.Callback? && event.fetch < |s.fetches| && s.fetches[event.fetch].id == id
    && s.fetches[event.fetch].phase.Finished? && s.fetches[event.fetch].phase.replyBytes.Some?
  }

  lemma CacheStep(s: State, event: Event, id: string)
    requires Can(s, event)
    ensures Has(Do(s, event).completed, id)
       <==> (Replies(s, event, id) || Has(s.completed, id))
            && !(Has(BeforeSweep(s, event), id) && !Has(Do(s, event).completed, id))
  {
    match event {
      case HttpReq(_, now, _) => SweepKeepsAbsent(s.completed, now, id);
      case Callback(fetch, now) =>
        var phase := s.fetches[fetch].phase;
        if phase.Finished? && phase.replyBytes.Some? {
          PutHas(s.completed, Entry(s.fetches[fetch].id, phase.replyBytes.value, now), id);
          SweepKeepsAbsent(BeforeSweep(s, event), now, id);
        }
      case _ =>
    }
  }

  lemma SweepKeepsAbsent(entries: seq<Entry>, now: real, id: string)
    ensures Has(Sweep(entries, now), id) ==> Has(entries, id)
  {
    if !Has(entries, id) { SweepAddsNoId(entries, now, id); }
  }

  /** A reply stays as it was stored: with its size and its time. */
  lemma ReplyIsStored(s: State, event: Event, id: string)
    requires Can(s, event) && Replies(s, event, id) && Has(Do(s, event).completed, id)
    requires DistinctIds(s.completed)
    ensures Entry(id, s.fetches[event.fetch].phase.replyBytes.value, event.now) in Do(s, event).completed
  {
    var entry := Entry(id, s.fetches[event.fetch].phase.replyBytes.value, event.now);
    var put := Put(s.completed, entry);
    PutKeepsDistinct(s.completed, entry);
    SweepIsExact(put, event.now);
    HasIffMember(Do(s, event).completed, id);
    var e :| e in Do(s, event).completed && e.id == id;
    var i :| 0 <= i < |put| && put[i] == e;
    var k := FirstWithId(s.completed, id);
    assert put[k] == entry && put[k].id == put[i].id;
  }

  /** How a request that comes after any history is answered. Refused: only what is neither in flight nor cached,
      and at the limit.  Otherwise a registered response is begun again; failing that, a reply that was cached
      and survives this very sweep is sent; failing that, nothing is sent if and only if a fetch for the id is
      live and will answer; and failing that, a fetch starts. */
  lemma {:induction false} AnswerIsTold(events: seq<Event>, id: string, now: real, atLimit: bool)
    requires Exec(events).Some? && id != ""
    ensures var s := Exec(events).value;
            var request := HttpReq(id, now, atLimit);
            var answer := OnHttpReq(s, id, now, atLimit).1;
            var live := exists f: nat :: Live(s, f) && s.fetches[f].id == id;
            var cached := Cached(events, id);
            var kept := cached && !SweptAt(events + [request], |events|, id);
            && (answer == Refused <==> !live && !cached && atLimit)
            && (answer == BeginFrame <==> answer != Refused && Registered(events, id))
            && (answer == CachedReply <==> !Registered(events, id) && kept)
            && (answer == Nothing <==> !Registered(events, id) && !kept && live)
            && (answer.NewFetch? <==> answer != Refused && !Registered(events, id) && !kept && !live)
  {
    RunKeeps(events);
    RespondingIsTold(events, id);
    CacheIsTold(events, id);
    var s := Exec(events).value;
    LiveIsInflight(s, id);
    var longer := events + [HttpReq(id, now, atLimit)];
    assert longer[..|events|] == events;
    SweepKeepsAbsent(s.completed, now, id);
  }

  lemma LiveIsInflight(s: State, id: string)
    requires Inv(s) && id != ""
    ensures id in s.inflight <==> exists f: nat :: Live(s, f) && s.fetches[f].id == id
  {
    if id in s.inflight { assert Live(s, s.inflight[id]); }
  }

  /** So whoever is answered with nothing has a fetch that is still live. */
  lemma NothingMeansLive(events: seq<Event>, id: string, now: real, atLimit: bool)
    requires Exec(events).Some? && OnHttpReq(Exec(events).value, id, now, atLimit).1 == Nothing
    ensures exists f: nat :: Live(Exec(events).value, f) && Exec(events).value.fetches[f].id == id
  {
    RunKeeps(events);
    LiveIsInflight(Exec(events).value, id);
  }

  // ---- how far a fetch is, told from the history

  ghost predicate Ended(events: seq<Event>, f: nat) {
    exists reply :: FetchEnds(f, reply) in events
  }

  ghost predicate CalledBack(events: seq<Event>, f: nat) {
    exists now :: Callback(f, now) in events
  }

  /** An error frame for `id` came while fetch `f` was started and not yet at its end. */
  ghost predicate CancelAsked(events: seq<Event>, f: nat, id: string) {
    events != [] &&
    var before := events[..|events| - 1];
    || CancelAsked(before, f, id)
    || (events[|before|] == ErrorFrame(id, false) && Exec(before).Some? && f < |Exec(before).value.fetches|
        && !Ended(before, f))
  }

  /** What has happened to a fetch. */
  datatype Past = Past(began: bool, ended: bool, endedPlainly: bool, asked: bool, landed: bool, calledBack: bool)

  ghost function PastOf(events: seq<Event>, f: nat, id: string): Past {
    Past(StreamBegins(f) in events, Ended(events, f), FetchEnds(f, None) in events, CancelAsked(events, f, id),
         CancelLands(f) in events, CalledBack(events, f))
  }

  /** An error frame that comes before the end of the fetch cancels it, so that it never ends with a reply; nothing
      else does; and a fetch without a streamed response ends with a reply. */
  predicate Agrees(phase: Phase, past: Past) {
    && (phase == Over <==> past.calledBack)
    && (phase.Finished? <==> past.ended && !past.calledBack)
    && (phase == Cancelled <==> past.landed && !past.calledBack)
    && (phase == Cancelling <==> past.asked && !past.landed)
    && (phase == Streaming <==> past.began && !past.ended && !past.asked)
    && (phase == Running <==> !past.began && !past.ended && !past.asked)
    && !(past.asked && past.ended)
    && (past.landed ==> past.asked)
    && (past.endedPlainly ==> past.ended && past.began)
  }

  /** Over every run, for every fetch with an id: its phase is what has happened to it. */
  lemma {:induction false} PhaseIsTold(events: seq<Event>, f: nat)
    requires Exec(events).Some? && f < |Exec(events).value.fetches| && Exec(events).value.fetches[f].id != ""
    ensures var fetch := Exec(events).value.fetches[f]; Agrees(fetch.phase, PastOf(events, f, fetch.id))
  {
    var before, event := events[..|events| - 1], events[|events| - 1];
    var s := Exec(before).value;
    assert events == before + [event];
    RunKeeps(before);
    NextPast(before, event, f, Exec(events).value.fetches[f].id);
    IdsStay(s, event, f);
    if f < |s.fetches| {
      PhaseIsTold(before, f);
      PhaseStep(s, event, f, PastOf(before, f, s.fetches[f].id));
    } else {
      NotYetStarted(before, f, Exec(events).value.fetches[f].id);
    }
  }

  lemma IdsStay(s: State, event: Event, f: nat)
    requires Can(s, event) && f < |Do(s, event).fetches|
    ensures f < |s.fetches| ==> Do(s, event).fetches[f].id == s.fetches[f].id
    ensures f >= |s.fetches| ==> event.HttpReq? && Do(s, event).fetches[f] == Fetch(event.id, Running)
  {}

  /** And a reply that waits for its callback is the one with which the fetch ended. */
  lemma {:induction false} ReplyIsTheEnding(events: seq<Event>, f: nat)
    requires Exec(events).Some? && f < |Exec(events).value.fetches|
    requires Exec(events).value.fetches[f].phase.Finished?
    ensures FetchEnds(f, Exec(events).value.fetches[f].phase.replyBytes) in events
  {
    var before, event := events[..|events| - 1], events[|events| - 1];
    assert events == before + [event];
    var s := Exec(before).value;
    if f < |s.fetches| && s.fetches[f].phase.Finished? {
      ReplyIsTheEnding(before, f);
    }
  }

  function Next(past: Past, event: Event, f: nat, id: string, started: bool): Past {
    Past(past.began || event == StreamBegins(f),
         past.ended || (event.FetchEnds? && event.fetch == f),
         past.endedPlainly || event == FetchEnds(f, None),
         past.asked || (event == ErrorFrame(id, false) && started && !past.ended),
         past.landed || event == CancelLands(f),
         past.calledBack || (event.Callback? && event.fetch == f))
  }

  lemma NextPast(before: seq<Event>, event: Event, f: nat, id: string)
    requires Exec(before).Some?
    ensures PastOf(before + [event], f, id)
         == Next(PastOf(before, f, id), event, f, id, f < |Exec(before).value.fetches|)
  {
    assert (before + [event])[..|before|] == before;
    InHistory(before, event, f);
  }

  lemma PhaseStep(s: State, event: Event, f: nat, past: Past)
    requires Inv(s) && Can(s, event) && f < |s.fetches| && s.fetches[f].id != ""
    requires Agrees(s.fetches[f].phase, past)
    ensures Agrees(Do(s, event).fetches[f].phase, Next(past, event, f, s.fetches[f].id, true))
  {
    if s.fetches[f].phase != Over { assert Live(s, f); }
  }

  lemma InHistory(before: seq<Event>, event: Event, f: nat)
    ensures Ended(before + [event], f) <==> Ended(before, f) || (event.FetchEnds? && event.fetch == f)
    ensures CalledBack(before + [event], f) <==> CalledBack(before, f) || (event.Callback? && event.fetch == f)
  {
    if event.FetchEnds? && event.fetch == f { assert FetchEnds(f, event.replyBytes) in before + [event]; }
    if event.Callback? && event.fetch == f { assert Callback(f, event.now) in before + [event]; }
    if Ended(before, f) {
      var reply :| FetchEnds(f, reply) in before;
      assert FetchEnds(f, reply) in before + [event];
    }
    if CalledBack(before, f) {
      var now :| Callback(f, now) in before;
      assert Callback(f, now) in before + [event];
    }
  }

  lemma {:induction false} NotYetStarted(events: seq<Event>, f: nat, id: string)
    requires Exec(events).Some? && |Exec(events).value.fetches| <= f
    ensures PastOf(events, f, id) == Past(false, false, false, false, false, false)
  {
    if events != [] {
      var before, event := events[..|events| - 1], events[|events| - 1];
      assert events == before + [event];
      NextPast(before, event, f, id);
      NotYetStarted(before, f, id);
    }
  }

  /** No fetch is stuck: whatever happened before, it can still come to its callback, and it can do so by way of
      a streamed response if there was none yet. */
  lemma EveryFetchCanFinish(events: seq<Event>, f: nat, now: real)
    requires Exec(events).Some? && Live(Exec(events).value, f) && Exec(events).value.fetches[f].id != ""
    ensures var phase := Exec(events).value.fetches[f].phase;
            && (phase == Running ==> Exec(events + [StreamBegins(f)]).Some?
                                     && Exec(events + [FetchEnds(f, Some(0)), Callback(f, now)]).Some?)
            && (phase == Streaming ==> Exec(events + [FetchEnds(f, None), Callback(f, now)]).Some?)
            && (phase == Cancelling ==> Exec(events + [CancelLands(f), Callback(f, now)]).Some?)
            && (phase.Finished? || phase == Cancelled ==> Exec(events + [Callback(f, now)]).Some?)
  {
    OneMore(events, StreamBegins(f));
    OneMore(events, Callback(f, now));
    TwoMore(events, FetchEnds(f, Some(0)), Callback(f, now));
    TwoMore(events, FetchEnds(f, None), Callback(f, now));
    TwoMore(events, CancelLands(f), Callback(f, now));
  }

  lemma OneMore(events: seq<Event>, event: Event)
    requires Exec(events).Some?
    ensures Exec(events + [event])
         == if Can(Exec(events).value, event) then Some(Do(Exec(events).value, event)) else None
  {
    assert (events + [event])[..|events|] == events;
  }

  lemma TwoMore(events: seq<Event>, first: Event, second: Event)
    requires Exec(events).Some?
    ensures Exec(events + [first, second]).Some?
       <==> Can(Exec(events).value, first) && Can(Do(Exec(events).value, first), second)
  {
    OneMore(events, first);
    if Can(Exec(events).value, first) { OneMore(events + [first], second); }
    assert events + [first] + [second] == events + [first, second];
  }

  // ---- requests without an id

  lemma {:induction false} NoIdIsNeverKept(events: seq<Event>)
    requires Exec(events).Some?
    ensures "" !in Exec(events).value.inflight && !Has(Exec(events).value.completed, "")
  {
    if events != [] {
      var before, event := events[..|events| - 1], events[|events| - 1];
      NoIdIsNeverKept(before);
      CacheStep(Exec(before).value, event, "");
    }
  }

  /** A request without an id is never taken for a repeated one, and leaves no trace but its fetch. */
  lemma NoIdIsAlwaysFetched(events: seq<Event>, now: real, atLimit: bool)
    requires Exec(events).Some?
    ensures var s := Exec(events).value;
            var (after, answer) := OnHttpReq(s, "", now, atLimit);
            && answer == (if atLimit then Refused else NewFetch(|s.fetches|))
            && after.inflight == s.inflight && after.responding == s.responding
            && (!atLimit ==> after.fetches == s.fetches + [Fetch("", Running)])
  {
    NoIdIsNeverKept(events);
  }

  /** The dictionaries of the tunnel client that these handlers update. */
  class FetchTable {
    const cache: ReplyCache
    var inflight: map<string, nat>
    var responding: set<string>
    var fetches: seq<Fetch>

    ghost function View(): State
      reads this, cache
    {
      State(inflight, cache.completed, responding, fetches)
    }

    constructor ()
      ensures View() == Start() && fresh(cache)
    {
      cache := new ReplyCache();
      inflight, responding, fetches := map[], {}, [];
    }

    method HandleHttpReq(id: string, now: real, atLimit: bool) returns (answer: Answer)
      modifies this, cache
      ensures (View(), answer) == OnHttpReq(old(View()), id, now, atLimit)
    {
      var existing := id in inflight || FirstWithId(cache.completed, id) < |cache.completed|;
      if !existing && atLimit { return Refused; }
      cache.CleanupCompleted(now);
      if id != "" && id in responding { return BeginFrame; }
      if id != "" && FirstWithId(cache.completed, id) < |cache.completed| { return CachedReply; }
      if id != "" && id in inflight { return Nothing; }
      var fetch := |fetches|;
      fetches := fetches + [Fetch(id, Running)];
      if id != "" { inflight := inflight[id := fetch]; }
      return NewFetch(fetch);
    }

    method DoneCallback(fetch: nat, now: real)
      requires Can(View(), Callback(fetch, now))
      modifies this, cache
      ensures View() == OnCallback(old(View()), fetch, now)
    {
      var Fetch(id, phase) := fetches[fetch];
      inflight := inflight - {id};
      fetches := fetches[fetch := Fetch(id, Over)];
      if phase.Finished? && phase.replyBytes.Some? {
        cache.StoreReply(id, phase.replyBytes.value, now);
        cache.CleanupCompleted(now);
      }
    }

    method HandleErrorFrame(id: string, streamedRequest: bool)
      requires Inv(View())
      modifies this
      ensures View() == Do(old(View()), ErrorFrame(id, streamedRequest))
    {
      responding := responding - {id};
      if streamedRequest { return; }
      if id in inflight {
        var fetch := inflight[id];
        if fetches[fetch].phase in {Running, Streaming} {
          fetches := fetches[fetch := fetches[fetch].(phase := Cancelling)];
        }
      }
    }
  }
}
