/**
 Binary WebSocket messages on the tunnel: `from_upstream` cuts a message into chunks, the receive loop
 puts the frames into the bounded queue of their channel, `from_sandbox` puts them together again.
 */
module WebSocketFragments {
  import opened Bytes
  import Division

  datatype Fragment = Fragment(payload: Bytes, endOfBody: bool)

  /** The slices of a message, `chunk` bytes each, the last one possibly shorter; none for an empty message. */
  function Slices(message: Bytes, chunk: nat): seq<Bytes>
    requires chunk > 0
    decreases |message|
  {
    if message == [] then []
    else [message[..Min(chunk, |message|)]] + Slices(message[Min(chunk, |message|)..], chunk)
  }

  function ChunkCount(length: nat, chunk: nat): nat
    requires chunk > 0
  {
    if (length + chunk - 1) / chunk > 1 then (length + chunk - 1) / chunk else 1
  }

  /** The number of frames that a channel's queue holds. */
  function ChannelLimit(maxMessage: nat, chunk: nat): nat
    requires chunk > 0
  {
    (maxMessage + chunk - 1) / chunk + 2
  }

  /** The sending loop; None when the message is over the limit, which ends the channel. */
  method SendMessage(message: Bytes, chunk: nat, maxMessage: nat) returns (sent: Option<seq<Fragment>>)
    requires chunk > 0
    ensures sent.None? <==> |message| > maxMessage
    ensures sent.Some? ==> sent.value == Fragments(message, chunk)
  {
    if |message| > maxMessage { return None; }
    var chunks: seq<Bytes> := [[]];
    if message != [] { chunks := CutMessage(message, chunk); }
    var chunkCount := (|message| + chunk - 1) / chunk;
    if chunkCount < 1 { chunkCount := 1; }
    SliceCount(message, chunk);
    var frames: seq<Fragment> := [];
    for index := 0 to |chunks|
      invariant |frames| == index
      invariant forall i :: 0 <= i < index ==> frames[i] == Fragment(chunks[i], i + 1 == |chunks|)
    {
      frames := frames + [Fragment(chunks[index], index + 1 == chunkCount)];
    }
    return Some(frames);
  }

  method CutMessage(message: Bytes, chunk: nat) returns (chunks: seq<Bytes>)
    requires chunk > 0
    ensures chunks == Slices(message, chunk)
  {
    chunks := [];
    var offset := 0;
    while offset < |message|
      invariant 0 <= offset
      invariant offset <= |message| ==> chunks + Slices(message[offset..], chunk) == Slices(message, chunk)
      invariant offset > |message| ==> chunks == Slices(message, chunk)
      decreases |message| - offset
    {
      var end := Min(offset + chunk, |message|);
      assert message[offset..][..Min(chunk, |message[offset..]|)] == message[offset..end];
      assert message[offset..][Min(chunk, |message[offset..]|)..] == message[end..];
      chunks := chunks + [message[offset..end]];
      if offset + chunk >= |message| { assert Slices(message[end..], chunk) == []; }
      offset := offset + chunk;
    }
  }

  /** The frames of one message: its slices, or one empty frame, only the last one marked. */
  function Fragments(message: Bytes, chunk: nat): seq<Fragment>
    requires chunk > 0
  {
    var chunks := if message == [] then [[]] else Slices(message, chunk);
    seq(|chunks|, i requires 0 <= i < |chunks| => Fragment(chunks[i], i + 1 == |chunks|))
  }

  function FragmentsOfAll(messages: seq<Bytes>, chunk: nat): seq<Fragment>
    requires chunk > 0
  {
    if messages == [] then [] else Fragments(messages[0], chunk) + FragmentsOfAll(messages[1..], chunk)
  }

  /** `first`, then the rest, if there is a rest. */
  function After(first: seq<Bytes>, rest: Option<seq<Bytes>>): Option<seq<Bytes>> {
    if rest.Some? then Some(first + rest.value) else None
  }

  /** Putting frames together: the finished messages, and None once a message exceeds the limit. */
  function Assemble(buffer: Bytes, frames: seq<Fragment>, maxMessage: nat): Option<seq<Bytes>>
    decreases |frames|
  {
    if frames == [] then Some([])
    else if |buffer| + |frames[0].payload| > maxMessage then None
    else
      var extended := buffer + frames[0].payload;
      var rest := Assemble(if frames[0].endOfBody then [] else extended, frames[1..], maxMessage);
      if frames[0].endOfBody then After([extended], rest) else rest
  }

  lemma NothingFirst(rest: Option<seq<Bytes>>)
    ensures After([], rest) == rest
  {
    if rest.Some? { assert [] + rest.value == rest.value; }
  }

  lemma AfterTwice(first: seq<Bytes>, second: seq<Bytes>, rest: Option<seq<Bytes>>)
    ensures After(first, After(second, rest)) == After(first + second, rest)
  {
    if rest.Some? { assert first + (second + rest.value) == first + second + rest.value; }
  }

  /** The receiving loop. */
  method ReceiveMessages(frames: seq<Fragment>, maxMessage: nat) returns (messages: Option<seq<Bytes>>)
    ensures messages == Assemble([], frames, maxMessage)
  {
    var incoming: Bytes := [];
    var delivered: seq<Bytes> := [];
    var i := 0;
    assert frames[0..] == frames;
    assert After([], Assemble([], frames, maxMessage)) == Assemble([], frames, maxMessage) by {
      NothingFirst(Assemble([], frames, maxMessage));
    }
    while i < |frames|
      invariant 0 <= i <= |frames|
      invariant Assemble([], frames, maxMessage) == After(delivered, Assemble(incoming, frames[i..], maxMessage))
    {
      assert frames[i..][1..] == frames[i + 1..];
      if |incoming| + |frames[i].payload| > maxMessage { return None; }
      incoming := incoming + frames[i].payload;
      if frames[i].endOfBody {
        AfterTwice(delivered, [incoming], Assemble([], frames[i + 1..], maxMessage));
        delivered := delivered + [incoming];
        incoming := [];
      }
      i := i + 1;
    }
    assert frames[i..] == [] && delivered + [] == delivered;
    return Some(delivered);
  }

  lemma {:induction false} SliceCount(message: Bytes, chunk: nat)
    requires chunk > 0
    ensures |Slices(message, chunk)| == (|message| + chunk - 1) / chunk
    decreases |message|
  {
    if message == [] {
      Division.QuotientIsUnique(chunk - 1, 0, chunk - 1, chunk);
    } else if |message| <= chunk {
      assert message[|message|..] == [];
      OneChunk(|message|, chunk);
    } else {
      SliceCount(message[chunk..], chunk);
      OneChunkMore(|message|, chunk);
      assert |Slices(message, chunk)| == 1 + |Slices(message[chunk..], chunk)|;
    }
  }

  lemma OneChunk(length: nat, chunk: nat)
    requires 0 < length <= chunk
    ensures (length + chunk - 1) / chunk == 1
  {
    Division.QuotientIsUnique(length + chunk - 1, 1, length - 1, chunk);
  }

  lemma OneChunkMore(length: nat, chunk: nat)
    requires length > chunk > 0
    ensures (length + chunk - 1) / chunk == (length - chunk + chunk - 1) / chunk + 1
  {
    Division.OneMore(length - 1, chunk);
  }

  lemma {:induction false} SlicesAreWhole(message: Bytes, chunk: nat)
    requires chunk > 0
    ensures Concat(Slices(message, chunk)) == message
    ensures forall i :: 0 <= i < |Slices(message, chunk)| ==> 0 < |Slices(message, chunk)[i]| <= chunk
    decreases |message|
  {
    if message != [] {
      var n := Min(chunk, |message|);
      SlicesAreWhole(message[n..], chunk);
      assert Slices(message, chunk)[1..] == Slices(message[n..], chunk);
      assert message[..n] + message[n..] == message;
      assert forall i :: 1 <= i < |Slices(message, chunk)| ==>
        Slices(message, chunk)[i] == Slices(message[n..], chunk)[i - 1];
    }
  }

  /** A message never needs more frames than its channel's queue has room for next to two others, and the longest
      one needs as many; each carries at most a chunk, and only the last one carries the end mark. */
  lemma MessageFitsChannel(message: Bytes, chunk: nat, maxMessage: nat)
    requires chunk > 0 && maxMessage > 0 && |message| <= maxMessage
    ensures var frames := Fragments(message, chunk);
            && 0 < |frames| <= ChannelLimit(maxMessage, chunk) - 2
            && (|message| == maxMessage ==> |frames| == ChannelLimit(maxMessage, chunk) - 2)
            && |frames| == ChunkCount(|message|, chunk)
            && (forall i :: 0 <= i < |frames| ==> |frames[i].payload| <= chunk)
            && (forall i :: 0 <= i < |frames| ==> (frames[i].endOfBody <==> i == |frames| - 1))
  {
    SliceCount(message, chunk);
    SlicesAreWhole(message, chunk);
    Division.Monotone(|message| + chunk - 1, maxMessage + chunk - 1, chunk);
    OneOrMore(maxMessage, chunk);
    if message != [] { OneOrMore(|message|, chunk); }
  }

  lemma OneOrMore(length: nat, chunk: nat)
    requires chunk > 0 && length > 0
    ensures (length + chunk - 1) / chunk >= 1
  {
    Division.Monotone(chunk, length + chunk - 1, chunk);
  }

  function Payloads(frames: seq<Fragment>): Bytes {
    if frames == [] then [] else frames[0].payload + Payloads(frames[1..])
  }

  /** Frames of one message, the last one marked, in front of others. */
  lemma {:induction false} AssembleOne(buffer: Bytes, frames: seq<Fragment>, later: seq<Fragment>, maxMessage: nat)
    requires frames != [] && |buffer| + |Payloads(frames)| <= maxMessage
    requires forall i :: 0 <= i < |frames| ==> (frames[i].endOfBody <==> i == |frames| - 1)
    ensures Assemble(buffer, frames + later, maxMessage)
         == After([buffer + Payloads(frames)], Assemble([], later, maxMessage))
    decreases |frames|
  {
    assert (frames + later)[1..] == frames[1..] + later;
    if |frames| == 1 {
      assert frames[1..] + later == later;
      assert Payloads(frames) == frames[0].payload;
    } else {
      AssembleOne(buffer + frames[0].payload, frames[1..], later, maxMessage);
      assert buffer + frames[0].payload + Payloads(frames[1..]) == buffer + Payloads(frames);
    }
  }

  lemma {:induction false} PayloadsOf(frames: seq<Fragment>, chunks: seq<Bytes>)
    requires |frames| == |chunks| && forall i :: 0 <= i < |chunks| ==> frames[i].payload == chunks[i]
    ensures Payloads(frames) == Concat(chunks)
  {
    if chunks != [] { PayloadsOf(frames[1..], chunks[1..]); }
  }

  /** Round trip: whatever messages within the limit are sent, one after the other and with any chunk
      size, the other side delivers the same list. */
  lemma {:induction false} RoundTrip(messages: seq<Bytes>, chunk: nat, maxMessage: nat)
    requires chunk > 0 && forall i :: 0 <= i < |messages| ==> |messages[i]| <= maxMessage
    ensures Assemble([], FragmentsOfAll(messages, chunk), maxMessage) == Some(messages)
    decreases |messages|
  {
    if messages != [] {
      var message := messages[0];
      var chunks := if message == [] then [[]] else Slices(message, chunk);
      var frames := Fragments(message, chunk);
      SlicesAreWhole(message, chunk);
      PayloadsOf(frames, chunks);
      RoundTrip(messages[1..], chunk, maxMessage);
      AssembleOne([], frames, FragmentsOfAll(messages[1..], chunk), maxMessage);
      assert Concat([[]]) == [] + Concat([]);
      assert [] + Payloads(frames) == message;
      assert [message] + messages[1..] == messages;
    }
  }

  /** A stream of frames whose next message is over the limit is refused, not cut. */
  lemma OversizedIsRefused(message: Bytes, later: seq<Fragment>, chunk: nat, maxMessage: nat)
    requires chunk > 0 && |message| > maxMessage
    ensures Assemble([], Fragments(message, chunk) + later, maxMessage).None?
  {
    SlicesAreWhole(message, chunk);
    PayloadsOf(Fragments(message, chunk), Slices(message, chunk));
    RefuseOver([], Fragments(message, chunk), later, maxMessage);
  }

  lemma {:induction false} RefuseOver(buffer: Bytes, frames: seq<Fragment>, later: seq<Fragment>, maxMessage: nat)
    requires frames != [] && |buffer| + |Payloads(frames)| > maxMessage
    requires forall i :: 0 <= i < |frames| - 1 ==> !frames[i].endOfBody
    ensures Assemble(buffer, frames + later, maxMessage).None?
    decreases |frames|
  {
    assert (frames + later)[1..] == frames[1..] + later;
    if |frames| > 1 {
      RefuseOver(buffer + frames[0].payload, frames[1..], later, maxMessage);
    }
  }
}
