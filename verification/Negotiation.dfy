/** Limits: what an endpoint offers in its hello frame and what both ends use after the exchange. */
module Negotiation {
  import opened Bytes

  const PROTOCOL_VERSION := 2
  const MIN_STREAM_CHUNK := 1024
  const OUTBOUND_QUEUE_FRAMES := 512
  const OUTBOUND_CONTROL_RESERVE := 32

  /** What an endpoint is configured with. */
  datatype Offer = Offer(version: nat, chunk: nat, inflight: nat, window: nat, body: nat, wsMessage: nat)

  /** A field of a received frame; anything that is not an integer is `Other`. */
  datatype Field = Missing | Number(value: int) | Other

  datatype Hello = Hello(version: Field, chunk: Field, inflight: Field, window: Field, body: Field,
                         wsMessage: Field, resume: bool)

  datatype Limits = Limits(version: nat, chunk: nat, inflight: nat, window: nat, body: nat, wsMessage: nat)

  predicate ValidOffer(o: Offer) {
    o.version > 0 && o.chunk >= MIN_STREAM_CHUNK && o.inflight > 0 && o.window > 0 && o.body > 0 && o.wsMessage > 0
  }

  function HelloFrame(o: Offer): Hello {
    Hello(Number(o.version), Number(o.chunk), Number(o.inflight), Number(o.window), Number(o.body),
          Number(o.wsMessage), true)
  }

  /** Before any hello: version 1 and the endpoint's own limits. */
  function Initial(own: Offer): Limits {
    Limits(1, own.chunk, own.inflight, own.window, own.body, own.wsMessage)
  }

  predicate AtLeast(field: Field, least: int) {
    field.Number? && field.value >= least
  }

  function WithDefault(field: Field, default: nat): Field {
    if field.Missing? then Number(default) else field
  }

  predicate Acceptable(own: Offer, hello: Hello) {
    && own.version >= PROTOCOL_VERSION
    && AtLeast(hello.version, PROTOCOL_VERSION)
    && AtLeast(hello.chunk, MIN_STREAM_CHUNK)
    && AtLeast(hello.inflight, 1)
    && AtLeast(hello.window, 1)
    && AtLeast(WithDefault(hello.body, own.body), 1)
    && AtLeast(WithDefault(hello.wsMessage, own.wsMessage), 1)
    && hello.resume
  }

  /** What a hello frame makes of the limits in force. */
  function OnHello(own: Offer, limits: Limits, hello: Hello): Limits {
    if limits.version >= PROTOCOL_VERSION || !Acceptable(own, hello) then limits else
    var inflight := Min(own.inflight, hello.inflight.value);
    var share := if inflight > 0 then (OUTBOUND_QUEUE_FRAMES - OUTBOUND_CONTROL_RESERVE) / inflight else 0;
    Limits(PROTOCOL_VERSION,
           Min(own.chunk, hello.chunk.value),
           inflight,
           Min(Min(own.window, hello.window.value), Max(1, share)),
           Min(own.body, WithDefault(hello.body, own.body).value),
           Min(own.wsMessage, WithDefault(hello.wsMessage, own.wsMessage).value))
  }

  /** Both ends, each applying the rule to the other's hello, reach the same limits, none above either
      offer, all usable, as soon as both speak version 2. */
  lemma BothEndsAgree(a: Offer, b: Offer)
    requires ValidOffer(a) && ValidOffer(b) && a.version >= PROTOCOL_VERSION && b.version >= PROTOCOL_VERSION
    ensures var limits := OnHello(a, Initial(a), HelloFrame(b));
            && limits == OnHello(b, Initial(b), HelloFrame(a))
            && MIN_STREAM_CHUNK <= limits.chunk <= a.chunk && limits.chunk <= b.chunk
            && 0 < limits.inflight <= a.inflight && limits.inflight <= b.inflight
            && 0 < limits.window <= a.window && limits.window <= b.window
            && 0 < limits.body <= a.body && limits.body <= b.body
            && 0 < limits.wsMessage <= a.wsMessage && limits.wsMessage <= b.wsMessage
            && limits.chunk in {a.chunk, b.chunk} && limits.inflight in {a.inflight, b.inflight}
            && limits.body in {a.body, b.body} && limits.wsMessage in {a.wsMessage, b.wsMessage}
  {
  }

  lemma QuotientFits(total: nat, share: nat)
    requires share > 0
    ensures (total / share) * share <= total
    ensures total < (total / share + 1) * share
    ensures total / share >= 1 <==> total >= share
  {
    assert total == (total / share) * share + total % share;
  }

  lemma ProductOrder(x: nat, y: nat, z: nat)
    requires x <= y
    ensures x * z <= y * z
  {}

  /** A full window on every stream in flight, and the frames reserved for control, fit the outbound
      queue whenever at most 480 streams are in flight, and no larger window that both ends offer would;
      beyond 480 the window is one frame. */
  lemma WindowsFitOutboundQueue(own: Offer, hello: Hello)
    requires ValidOffer(own) && Acceptable(own, hello)
    ensures var limits := OnHello(own, Initial(own), hello);
            && (limits.inflight <= 480 ==>
                  limits.window * limits.inflight + OUTBOUND_CONTROL_RESERVE <= OUTBOUND_QUEUE_FRAMES)
            && (limits.window < own.window && limits.window < hello.window.value ==>
                  (limits.window + 1) * limits.inflight + OUTBOUND_CONTROL_RESERVE > OUTBOUND_QUEUE_FRAMES)
            && (limits.inflight > 480 ==> limits.window == 1)
  {
    var limits := OnHello(own, Initial(own), hello);
    var share := 480 / limits.inflight;
    QuotientFits(480, limits.inflight);
    if limits.inflight <= 480 {
      assert limits.window <= share;
      ProductOrder(limits.window, share, limits.inflight);
    }
  }

  /** Two endpoints speak version 2 if and only if both offer it; otherwise nothing about the connection changes. */
  lemma BothMustSpeakTwo(a: Offer, b: Offer)
    requires ValidOffer(a) && ValidOffer(b)
    ensures OnHello(a, Initial(a), HelloFrame(b)).version
            == if a.version >= PROTOCOL_VERSION && b.version >= PROTOCOL_VERSION then PROTOCOL_VERSION else 1
    ensures a.version < PROTOCOL_VERSION || b.version < PROTOCOL_VERSION ==>
              OnHello(a, Initial(a), HelloFrame(b)) == Initial(a)
  {
  }

  /** A peer that says nothing of the body or of the message limit is taken to offer one's own; one that cannot
      resume, or sends a field that is no integer, or leaves out another one, changes nothing. */
  lemma WhatThePeerLeavesOut(own: Offer, peer: Offer, hello: Hello)
    requires ValidOffer(own) && ValidOffer(peer)
    ensures OnHello(own, Initial(own), HelloFrame(peer).(body := Missing, wsMessage := Missing))
            == OnHello(own, Initial(own), HelloFrame(peer.(body := own.body, wsMessage := own.wsMessage)))
    ensures OnHello(own, Initial(own), hello) != Initial(own) ==>
              && hello.resume
              && Missing !in {hello.version, hello.chunk, hello.inflight, hello.window}
              && Other !in {hello.version, hello.chunk, hello.inflight, hello.window, hello.body, hello.wsMessage}
  {
  }

  function AfterHellos(own: Offer, limits: Limits, hellos: seq<Hello>): Limits
    decreases |hellos|
  {
    if hellos == [] then limits else AfterHellos(own, OnHello(own, limits, hellos[0]), hellos[1..])
  }

  /** On one connection the first acceptable hello settles the limits; frames that come before it or
      after it, acceptable or not, change nothing. */
  lemma {:induction false} FirstAcceptableHelloSettles(own: Offer, before: seq<Hello>, hello: Hello, later: seq<Hello>)
    requires Acceptable(own, hello) && forall i :: 0 <= i < |before| ==> !Acceptable(own, before[i])
    ensures AfterHellos(own, Initial(own), before + [hello] + later) == OnHello(own, Initial(own), hello)
    decreases |before|
  {
    if before == [] {
      assert (before + [hello] + later)[1..] == later;
      Settled(own, OnHello(own, Initial(own), hello), later);
    } else {
      assert (before + [hello] + later)[1..] == before[1..] + [hello] + later;
      FirstAcceptableHelloSettles(own, before[1..], hello, later);
    }
  }

  /** Until then an endpoint speaks version 1 and keeps to its own limits. */
  lemma {:induction false} UntilThenItsOwn(own: Offer, hellos: seq<Hello>)
    requires forall i :: 0 <= i < |hellos| ==> !Acceptable(own, hellos[i])
    ensures var limits := AfterHellos(own, Initial(own), hellos);
            && limits.version == 1 && limits.chunk == own.chunk && limits.inflight == own.inflight
            && limits.window == own.window && limits.body == own.body && limits.wsMessage == own.wsMessage
    decreases |hellos|
  {
    if hellos != [] { UntilThenItsOwn(own, hellos[1..]); }
  }

  lemma {:induction false} Settled(own: Offer, limits: Limits, hellos: seq<Hello>)
    requires limits.version >= PROTOCOL_VERSION
    ensures AfterHellos(own, limits, hellos) == limits
    decreases |hellos|
  {
    if hellos != [] { Settled(own, limits, hellos[1..]); }
  }

  /** The limits of one connection, as its receive loop updates them. */
  class Connection {
    const own: Offer
    var version: nat
    var chunk: nat
    var inflight: nat
    var window: nat
    var body: nat
    var wsMessage: nat

    function View(): Limits
      reads this
    {
      Limits(version, chunk, inflight, window, body, wsMessage)
    }

    constructor (own: Offer)
      ensures this.own == own && View() == Initial(own)
    {
      this.own := own;
      version, chunk, inflight := 1, own.chunk, own.inflight;
      window, body, wsMessage := own.window, own.body, own.wsMessage;
    }

    method HandleHello(hello: Hello)
      requires ValidOffer(own)
      modifies this
      ensures View() == OnHello(own, old(View()), hello)
    {
      if version >= PROTOCOL_VERSION { return; }
      var peerBody := if hello.body.Missing? then Number(own.body) else hello.body;
      var peerWsMessage := if hello.wsMessage.Missing? then Number(own.wsMessage) else hello.wsMessage;
      if own.version >= PROTOCOL_VERSION && AtLeast(hello.version, PROTOCOL_VERSION)
         && AtLeast(hello.chunk, MIN_STREAM_CHUNK) && AtLeast(hello.inflight, 1) && AtLeast(hello.window, 1)
         && AtLeast(peerBody, 1) && AtLeast(peerWsMessage, 1) && hello.resume
      {
        version := PROTOCOL_VERSION;
        chunk := Min(own.chunk, hello.chunk.value);
        inflight := Min(own.inflight, hello.inflight.value);
        window := Min(own.window, hello.window.value);
        var share := (OUTBOUND_QUEUE_FRAMES - OUTBOUND_CONTROL_RESERVE) / inflight;
        window := Min(window, if share > 1 then share else 1);
        body := Min(own.body, peerBody.value);
        wsMessage := Min(own.wsMessage, peerWsMessage.value);
      }
    }
  }
}
