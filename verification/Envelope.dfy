/** The binary envelope: encoding, decoding with every way of refusing a frame, and that they are inverse. */
module Envelopes {
  import opened Bytes
  import opened Uuids

  datatype Kind = HttpRequestData | HttpResponseData | WsBinaryData

  datatype Envelope = Envelope(requestId: string, kind: Kind, payload: Bytes, endOfBody: bool, offset: Option<int>)

  datatype Error =
    | PayloadTooLong | BadId | NegativeOffset | NumberTooLarge
    | ShorterThanHeader | BadMagic | BadVersion | BadIdLength | UnknownKind | UnknownFlags
    | LengthMismatch | OffsetTooShort

  datatype Result<+T> = Ok(value: T) | Err(error: Error)

  const MAGIC: Bytes := [0x59, 0x44]
  const VERSION: Byte := 1
  const UUID_BYTES := 16
  const HEADER_BYTES := 26

  function KindCode(kind: Kind): Byte {
    match kind case HttpRequestData => 1 case HttpResponseData => 2 case WsBinaryData => 3
  }

  function KindOf(code: Byte): Option<Kind> {
    if code == 1 then Some(HttpRequestData)
    else if code == 2 then Some(HttpResponseData)
    else if code == 3 then Some(WsBinaryData)
    else None
  }

  // ---- big-endian numbers

  function Power(k: nat): nat {
    if k == 0 then 1 else 256 * Power(k - 1)
  }

  function ToBytes(n: nat, k: nat): (bytes: Bytes)
    ensures |bytes| == k
  {
    if k == 0 then [] else ToBytes(n / 256, k - 1) + [n % 256]
  }

  function FromBytes(bytes: Bytes): nat {
    if bytes == [] then 0 else FromBytes(bytes[..|bytes| - 1]) * 256 + bytes[|bytes| - 1]
  }

  lemma {:induction false} FromTo(n: nat, k: nat)
    requires n < Power(k)
    ensures FromBytes(ToBytes(n, k)) == n
  {
    if k > 0 {
      FromTo(n / 256, k - 1);
      assert ToBytes(n, k)[..k - 1] == ToBytes(n / 256, k - 1);
    }
  }

  lemma {:induction false} ToFrom(bytes: Bytes)
    ensures ToBytes(FromBytes(bytes), |bytes|) == bytes && FromBytes(bytes) < Power(|bytes|)
  {
    if bytes != [] {
      var front := bytes[..|bytes| - 1];
      var last := bytes[|bytes| - 1];
      ToFrom(front);
      assert (FromBytes(front) * 256 + last) / 256 == FromBytes(front);
      assert front + [last] == bytes;
    }
  }

  // ---- encoding

  function Flags(e: Envelope): Byte {
    (if e.endOfBody then 1 else 0) + (if e.offset.Some? then 2 else 0)
  }

  function Header(kind: Byte, id: Bytes, flags: Byte, length: nat): (header: Bytes)
    requires |id| == UUID_BYTES
    ensures |header| == HEADER_BYTES
  {
    MAGIC + [VERSION, kind, UUID_BYTES] + id + [flags] + ToBytes(length, 4)
  }

  /** The payload as it is sent, behind its offset if it has one. */
  function Wire(e: Envelope): Bytes
    requires e.offset.Some? ==> e.offset.value >= 0
  {
    (if e.offset.Some? then ToBytes(e.offset.value, 8) else []) + e.payload
  }

  /** `struct` refuses numbers that do not fit their field: eight bytes of offset, four of length. */
  function Encode(e: Envelope, maxPayload: nat): Result<Bytes> {
    if |e.payload| > maxPayload then Err(PayloadTooLong) else
    var id := Parse(e.requestId);
    if id.None? then Err(BadId)
    else if e.offset.Some? && e.offset.value < 0 then Err(NegativeOffset)
    else if e.offset.Some? && e.offset.value >= Power(8) then Err(NumberTooLarge)
    else
      if |Wire(e)| >= Power(4) then Err(NumberTooLarge)
      else Ok(Header(KindCode(e.kind), id.value, Flags(e), |Wire(e)|) + Wire(e))
  }

  // ---- decoding

  function Decode(raw: Bytes, maxPayload: nat): Result<Envelope> {
    if |raw| < HEADER_BYTES then Err(ShorterThanHeader)
    else if raw[..2] != MAGIC then Err(BadMagic)
    else if raw[2] != VERSION then Err(BadVersion)
    else if raw[4] != UUID_BYTES then Err(BadIdLength)
    else if KindOf(raw[3]).None? then Err(UnknownKind)
    else if raw[21] > 3 then Err(UnknownFlags)
    else
      var hasOffset := raw[21] >= 2;
      var length := FromBytes(raw[22..26]);
      var wire := raw[26..];
      if length > maxPayload + (if hasOffset then 8 else 0) then Err(PayloadTooLong)
      else if |wire| != length then Err(LengthMismatch)
      else if hasOffset && |wire| < 8 then Err(OffsetTooShort)
      else
        var payload := if hasOffset then wire[8..] else wire;
        if |payload| > maxPayload then Err(PayloadTooLong)
        else Ok(Envelope(Format(raw[5..21]), KindOf(raw[3]).value, payload, raw[21] % 2 == 1,
                         if hasOffset then Some(FromBytes(wire[..8])) else None))
  }

  lemma HeaderParts(kind: Byte, id: Bytes, flags: Byte, length: nat, wire: Bytes)
    requires |id| == UUID_BYTES
    ensures var raw := Header(kind, id, flags, length) + wire;
            && raw[..2] == MAGIC && raw[2] == VERSION && raw[3] == kind && raw[4] == UUID_BYTES
            && raw[5..21] == id && raw[21] == flags && raw[22..26] == ToBytes(length, 4) && raw[26..] == wire
  {}

  /** What is sent is what is received: for every envelope that can be encoded, under the same payload
      limit, decoding gives it back, its id in canonical form. */
  lemma {:induction false} DecodeEncode(e: Envelope, maxPayload: nat)
    requires Encode(e, maxPayload).Ok?
    ensures Parse(e.requestId).Some?
    ensures Decode(Encode(e, maxPayload).value, maxPayload)
         == Ok(e.(requestId := Format(Parse(e.requestId).value)))
  {
    var id := Parse(e.requestId).value;
    var raw := Encode(e, maxPayload).value;
    HeaderParts(KindCode(e.kind), id, Flags(e), |Wire(e)|, Wire(e));
    FromTo(|Wire(e)|, 4);
    WireParts(e);
    FlagsTell(e);
    DecodeOfParts(raw, id, e, maxPayload);
  }

  lemma FlagsTell(e: Envelope)
    ensures Flags(e) <= 3 && (Flags(e) >= 2 <==> e.offset.Some?) && (Flags(e) % 2 == 1 <==> e.endOfBody)
    ensures KindOf(KindCode(e.kind)) == Some(e.kind)
  {}

  lemma DecodeOfParts(raw: Bytes, id: Bytes, e: Envelope, maxPayload: nat)
    requires |raw| >= HEADER_BYTES && |id| == UUID_BYTES && |e.payload| <= maxPayload
    requires raw[..2] == MAGIC && raw[2] == VERSION && KindOf(raw[3]) == Some(e.kind) && raw[4] == UUID_BYTES
    requires raw[5..21] == id
    requires raw[21] <= 3 && (raw[21] >= 2 <==> e.offset.Some?) && (raw[21] % 2 == 1 <==> e.endOfBody)
    requires FromBytes(raw[22..26]) == |raw[26..]|
    requires e.offset.Some? ==> |raw[26..]| == 8 + |e.payload| && FromBytes(raw[26..][..8]) == e.offset.value
                                && raw[26..][8..] == e.payload
    requires e.offset.None? ==> raw[26..] == e.payload
    ensures Decode(raw, maxPayload) == Ok(e.(requestId := Format(id)))
  {}

  lemma WireParts(e: Envelope)
    requires e.offset.Some? ==> 0 <= e.offset.value < Power(8)
    ensures e.offset.Some? ==> |Wire(e)| == 8 + |e.payload| && FromBytes(Wire(e)[..8]) == e.offset.value
                               && Wire(e)[8..] == e.payload
    ensures e.offset.None? ==> Wire(e) == e.payload
  {
    if e.offset.Some? {
      FromTo(e.offset.value, 8);
      assert Wire(e)[..8] == ToBytes(e.offset.value, 8);
    }
  }

  /** An accepted byte string is the header that its envelope gets, and the wire payload. */
  lemma RawParts(raw: Bytes, length: nat)
    requires |raw| >= HEADER_BYTES && raw[..2] == MAGIC && raw[2] == VERSION && raw[4] == UUID_BYTES
    requires ToBytes(length, 4) == raw[22..26]
    ensures raw == Header(raw[3], raw[5..21], raw[21], length) + raw[26..]
  {}

  lemma OffsetAndPayload(wire: Bytes)
    requires |wire| >= 8
    ensures FromBytes(wire[..8]) < Power(8) && ToBytes(FromBytes(wire[..8]), 8) + wire[8..] == wire
  {
    ToFrom(wire[..8]);
  }

  lemma DecodedHeader(raw: Bytes, maxPayload: nat)
    requires Decode(raw, maxPayload).Ok?
    ensures var e := Decode(raw, maxPayload).value;
            && |raw| >= HEADER_BYTES && raw[..2] == MAGIC && raw[2] == VERSION && raw[4] == UUID_BYTES
            && KindCode(e.kind) == raw[3] && e.requestId == Format(raw[5..21]) && Flags(e) == raw[21]
            && FromBytes(raw[22..26]) == |raw[26..]|
  {}

  lemma DecodedPayload(raw: Bytes, maxPayload: nat)
    requires Decode(raw, maxPayload).Ok?
    ensures var e := Decode(raw, maxPayload).value;
            && |e.payload| <= maxPayload
            && (e.offset.Some? ==> 0 <= e.offset.value < Power(8))
            && Wire(e) == raw[26..]
  {
    if raw[21] >= 2 { OffsetAndPayload(raw[26..]); } else { assert [] + raw[26..] == raw[26..]; }
  }

  lemma EncodedAs(e: Envelope, maxPayload: nat, id: Bytes)
    requires |e.payload| <= maxPayload && Parse(e.requestId) == Some(id) && |id| == UUID_BYTES
    requires e.offset.Some? ==> 0 <= e.offset.value < Power(8)
    requires |Wire(e)| < Power(4)
    ensures Encode(e, maxPayload) == Ok(Header(KindCode(e.kind), id, Flags(e), |Wire(e)|) + Wire(e))
  {}

  /** Every accepted byte string is the encoding of what it was decoded to: decoding loses nothing. */
  lemma {:induction false} EncodeDecode(raw: Bytes, maxPayload: nat)
    requires Decode(raw, maxPayload).Ok?
    ensures Encode(Decode(raw, maxPayload).value, maxPayload) == Ok(raw)
    ensures Canonical(Decode(raw, maxPayload).value.requestId)
  {
    DecodedHeader(raw, maxPayload);
    DecodedPayload(raw, maxPayload);
    ToFrom(raw[22..26]);
    ParseFormat(raw[5..21]);
    FormatIsCanonical(raw[5..21]);
    RawParts(raw, |raw[26..]|);
    EncodedAs(Decode(raw, maxPayload).value, maxPayload, raw[5..21]);
  }

  /** An envelope can be sent exactly when its id is a UUID, its payload within the limit and its numbers
      fit their fields. */
  predicate Sendable(e: Envelope, maxPayload: nat) {
    && Parse(e.requestId).Some?
    && |e.payload| <= maxPayload
    && (e.offset.Some? ==> 0 <= e.offset.value < 0x1_0000_0000_0000_0000)
    && |e.payload| + (if e.offset.Some? then 8 else 0) < 0x1_0000_0000
  }

  lemma PowersOfTwo()
    ensures Power(4) == 0x1_0000_0000 && Power(8) == 0x1_0000_0000_0000_0000
  {
    assert Power(1) == 256;
    assert Power(2) == 256 * Power(1);
    assert Power(3) == 256 * Power(2);
    assert Power(4) == 256 * Power(3);
    assert Power(5) == 256 * Power(4);
    assert Power(6) == 256 * Power(5);
    assert Power(7) == 256 * Power(6);
    assert Power(8) == 256 * Power(7);
  }

  /** An envelope in the form in which it comes out of a frame. */
  function WithCanonicalId(e: Envelope): Envelope
    requires Parse(e.requestId).Some?
  {
    e.(requestId := Format(Parse(e.requestId).value))
  }

  lemma EncodableIff(e: Envelope, maxPayload: nat)
    ensures Encode(e, maxPayload).Ok? <==> Sendable(e, maxPayload)
  {
    PowersOfTwo();
  }

  /** The frame of an envelope does not depend on how its id is spelled. */
  lemma SpellingDoesNotMatter(e: Envelope, maxPayload: nat)
    requires Parse(e.requestId).Some?
    ensures Encode(WithCanonicalId(e), maxPayload) == Encode(e, maxPayload)
  {
    ParseFormat(Parse(e.requestId).value);
  }

  /** For every envelope, byte string and payload limit: the envelope can be sent exactly when its id can be
      read, its payload is within the limit and its numbers fit their fields; and the byte string is its frame
      exactly when it is accepted and decodes to it, the id in canonical form. Encoding and decoding are thus
      inverse bijections between the accepted byte strings and the sendable envelopes with canonical ids. */
  lemma Bijection(e: Envelope, raw: Bytes, maxPayload: nat)
    ensures Encode(e, maxPayload).Ok? <==> Sendable(e, maxPayload)
    ensures Encode(e, maxPayload) == Ok(raw) <==>
              Parse(e.requestId).Some? && Decode(raw, maxPayload) == Ok(WithCanonicalId(e))
    ensures Canonical(e.requestId) ==> Parse(e.requestId).Some? && WithCanonicalId(e) == e
  {
    EncodableIff(e, maxPayload);
    if Canonical(e.requestId) { CanonicalIsParsed(e.requestId); }
    if Parse(e.requestId).Some? {
      CanonicalComesBack(e.requestId);
      SpellingDoesNotMatter(e, maxPayload);
      if Encode(e, maxPayload) == Ok(raw) { DecodeEncode(e, maxPayload); }
      if Decode(raw, maxPayload) == Ok(WithCanonicalId(e)) { EncodeDecode(raw, maxPayload); }
    }
  }

  // ---- the layout, byte by byte

  /** The frame of an envelope as other implementations see it: two bytes of magic, the version, the kind, the
      length of the id, the id, the flags, four bytes of length with the most significant first, the offset in
      eight bytes if there is one, and the payload. */
  ghost predicate LaidOut(raw: Bytes, e: Envelope) {
    && |raw| >= 26
    && raw[0] == 0x59 && raw[1] == 0x44 && raw[2] == 1
    && raw[3] == (match e.kind case HttpRequestData => 1 case HttpResponseData => 2 case WsBinaryData => 3)
    && raw[4] == 16 && e.requestId == Format(raw[5..21])
    && raw[21] == (match (e.endOfBody, e.offset.Some?)
                   case (false, false) => 0
                   case (true, false) => 1
                   case (false, true) => 2
                   case (true, true) => 3)
    && Word(raw[22..26]) == |raw| - 26
    && if e.offset.Some?
       then |raw| >= 34 && e.payload == raw[34..]
            && e.offset.value == 0x1_0000_0000 * Word(raw[26..30]) + Word(raw[30..34])
       else e.payload == raw[26..]
  }

  function Word(bytes: Bytes): nat
    requires |bytes| == 4
  {
    var a: int, b: int, c: int, d: int := bytes[0], bytes[1], bytes[2], bytes[3];
    0x100_0000 * a + 0x1_0000 * b + 0x100 * c + d
  }

  lemma FourBytes(bytes: Bytes)
    requires |bytes| == 4
    ensures FromBytes(bytes) == Word(bytes)
  {
    var a: int, b: int, c: int := bytes[0], bytes[1], bytes[2];
    assert bytes[..3][..2] == bytes[..2] && bytes[..2][..1] == [bytes[0]] && [bytes[0]][..0] == [];
    assert FromBytes([bytes[0]]) == a;
    assert FromBytes(bytes[..2]) == 0x100 * a + b;
    assert FromBytes(bytes[..3]) == 0x1_0000 * a + 0x100 * b + c;
  }

  lemma {:induction false} FromBytesAppend(high: Bytes, low: Bytes)
    ensures FromBytes(high + low) == FromBytes(high) * Power(|low|) + FromBytes(low)
    decreases |low|
  {
    if low == [] {
      assert high + low == high;
    } else {
      var front := low[..|low| - 1];
      FromBytesAppend(high, front);
      assert (high + low)[..|high + low| - 1] == high + front;
      Distribute(FromBytes(high), Power(|front|), FromBytes(front), low[|low| - 1]);
    }
  }

  lemma Distribute(high: nat, power: nat, front: nat, last: nat)
    ensures (high * power + front) * 256 + last == high * (256 * power) + (front * 256 + last)
  {}

  lemma EightBytes(bytes: Bytes)
    requires |bytes| == 8
    ensures FromBytes(bytes) == 0x1_0000_0000 * Word(bytes[..4]) + Word(bytes[4..])
  {
    assert bytes[..4] + bytes[4..] == bytes;
    FromBytesAppend(bytes[..4], bytes[4..]);
    FourBytes(bytes[..4]);
    FourBytes(bytes[4..]);
    PowersOfTwo();
  }

  /** A byte string is accepted, and as what, exactly as its bytes say: it is laid out as the envelope's frame and
      the payload is within the limit. */
  lemma DecodedIffLaidOut(raw: Bytes, e: Envelope, maxPayload: nat)
    ensures Decode(raw, maxPayload) == Ok(e) <==> LaidOut(raw, e) && |e.payload| <= maxPayload
  {
    if |raw| >= 26 {
      FourBytes(raw[22..26]);
      if |raw| >= 34 {
        EightBytes(raw[26..][..8]);
        assert raw[26..][..8][..4] == raw[26..30] && raw[26..][..8][4..] == raw[30..34] && raw[26..][8..] == raw[34..];
      }
    }
  }

  /** What a frame can be refused for. */
  predicate Faulty(raw: Bytes, maxPayload: nat, error: Error) {
    if error.ShorterThanHeader? then |raw| < 26 else
    && |raw| >= 26
    && match error
       case BadMagic => raw[0] != 0x59 || raw[1] != 0x44
       case BadVersion => raw[2] != 1
       case BadIdLength => raw[4] != 16
       case UnknownKind => raw[3] !in {1, 2, 3}
       case UnknownFlags => raw[21] !in {0, 1, 2, 3}
       case PayloadTooLong => Word(raw[22..26]) > maxPayload + (if raw[21] in {2, 3} then 8 else 0)
       case LengthMismatch => Word(raw[22..26]) != |raw| - 26
       case OffsetTooShort => raw[21] in {2, 3} && |raw| < 34
       case _ => false
  }

  /** What an envelope can be refused for. */
  predicate Unsendable(e: Envelope, maxPayload: nat, error: Error) {
    match error
    case PayloadTooLong => |e.payload| > maxPayload
    case BadId => Parse(e.requestId).None?
    case NegativeOffset => e.offset.Some? && e.offset.value < 0
    case NumberTooLarge =>
      || (e.offset.Some? && e.offset.value >= 0x1_0000_0000_0000_0000)
      || |e.payload| + (if e.offset.Some? then 8 else 0) >= 0x1_0000_0000
    case _ => false
  }

  /** Which complaint comes first when there are several: those of the header before those of the payload. */
  function Precedence(error: Error): nat {
    match error
    case ShorterThanHeader => 0 case BadMagic => 1 case BadVersion => 2 case BadIdLength => 3
    case UnknownKind => 4 case UnknownFlags => 5
    case PayloadTooLong => 6 case LengthMismatch => 7 case OffsetTooShort => 8
    case BadId => 9 case NegativeOffset => 10 case NumberTooLarge => 11
  }

  /** An envelope is refused if and only if something is wrong with it, and for the first fault in that order. */
  lemma EncodeRefusesIff(e: Envelope, maxPayload: nat, error: Error)
    ensures Encode(e, maxPayload) == Err(error) <==>
              && Unsendable(e, maxPayload, error)
              && forall other :: Unsendable(e, maxPayload, other) ==> Precedence(error) <= Precedence(other)
  {
    PowersOfTwo();
    var result := Encode(e, maxPayload);
    if result.Err? {
      assert Unsendable(e, maxPayload, result.error);
    }
  }

  /** So is a byte string. */
  lemma DecodeRefusesIff(raw: Bytes, maxPayload: nat, error: Error)
    ensures Decode(raw, maxPayload) == Err(error) <==>
              && Faulty(raw, maxPayload, error)
              && forall other :: Faulty(raw, maxPayload, other) ==> Precedence(error) <= Precedence(other)
  {
    if |raw| >= 26 {
      FourBytes(raw[22..26]);
    }
    var result := Decode(raw, maxPayload);
    if result.Err? {
      assert Faulty(raw, maxPayload, result.error);
    }
  }
}
