/** Files through action calls: a file is written and read in pieces of at most one mebibyte. */
module RpcFiles {
  import opened Bytes

  const CHUNK := 1024 * 1024

  /** What the remote side makes of a piece: offset zero empties the file, a gap is filled with zeros. */
  function RemoteWrite(data: Bytes, offset: nat, piece: Bytes): Bytes {
    var base := if offset == 0 then [] else data;
    var padded := if |base| < offset then base + seq(offset - |base|, _ => 0) else base;
    padded[..offset] + piece + (if offset + |piece| < |padded| then padded[offset + |piece|..] else [])
  }

  function RemoteRead(data: Bytes, offset: nat, limit: nat): Bytes {
    if offset >= |data| then [] else data[offset..Min(offset + limit, |data|)]
  }

  /** What goes wrong with a call: nothing, an error answer to a call that was done or not, or an answer
      with a wrong byte count, a write having stopped after `written` bytes. */
  datatype Fault = NoFault | ErrorAnswer(done: bool) | WrongCount(written: nat)

  /** The faults that the calls of one operation meet, by call number. */
  type Faults = nat -> Fault

  /** The part of a piece that a write takes. */
  function Accepted(piece: Bytes, fault: Fault): (part: Bytes)
    ensures part <= piece
    ensures !fault.WrongCount? ==> part == piece
  {
    if fault.WrongCount? then piece[..Min(fault.written, |piece|)] else piece
  }

  /** What a write call makes of the remote file. */
  function Applied(data: Bytes, offset: nat, piece: Bytes, fault: Fault): Bytes {
    if fault == ErrorAnswer(false) then data else RemoteWrite(data, offset, Accepted(piece, fault))
  }

  class RemoteFile {
    var data: Bytes
    ghost var largest: nat  // the largest piece written by one call

    constructor (data: Bytes)
      ensures this.data == data && largest == 0
    {
      this.data, largest := data, 0;
    }

    method WriteChunk(offset: nat, piece: Bytes, fault: Fault)
      modifies this
      ensures data == Applied(old(data), offset, piece, fault)
      ensures largest == Max(old(largest), |piece|)
    {
      if fault != ErrorAnswer(false) { data := RemoteWrite(data, offset, Accepted(piece, fault)); }
      largest := Max(largest, |piece|);
    }
  }

  lemma WriteAtEnd(data: Bytes, piece: Bytes)
    requires data != []
    ensures RemoteWrite(data, |data|, piece) == data + piece
  {}

  lemma WriteAtStart(data: Bytes, piece: Bytes)
    ensures RemoteWrite(data, 0, piece) == piece
  {}

  /** What the remote file may be while `whole` is being written: untouched, or a prefix of it. */
  ghost predicate Underway(data: Bytes, before: Bytes, whole: Bytes) {
    data == before || data <= whole
  }

  lemma {:induction false} ConcatPrefix(chunks: seq<Bytes>, n: nat)
    requires n < |chunks|
    ensures Concat(chunks[..n]) + chunks[n] <= Concat(chunks)
    ensures Concat(chunks[..n + 1]) == Concat(chunks[..n]) + chunks[n]
  {
    ConcatAppend(chunks[..n], chunks[n]);
    assert chunks[..n + 1] == chunks[..n] + [chunks[n]];
    ConcatSplit(chunks[..n + 1], chunks[n + 1..]);
    assert chunks == chunks[..n + 1] + chunks[n + 1..];
  }

  lemma {:induction false} ConcatSplit(a: seq<Bytes>, b: seq<Bytes>)
    ensures Concat(a + b) == Concat(a) + Concat(b)
  {
    if a == [] {
      assert a + b == b;
    } else {
      assert (a + b)[1..] == a[1..] + b;
      ConcatSplit(a[1..], b);
    }
  }

  lemma WritePiece(data: Bytes, written: Bytes, piece: Bytes, started: bool)
    requires if started then data == written && written != [] else written == []
    ensures RemoteWrite(data, |written|, piece) == written + piece
  {
    if started { WriteAtEnd(data, piece); } else { WriteAtStart(data, piece); }
  }

  /** One call with the piece from `start` to `end` of a chunk, `sent` being what went before it. */
  lemma OnePieceMore(data: Bytes, written: Bytes, chunk: Bytes, start: nat, end: nat, started: bool, fault: Fault)
    requires start <= end <= |chunk|
    requires var sent := written + chunk[..start]; if started then data == sent && sent != [] else sent == []
    ensures var after := Applied(data, |written| + start, chunk[start..end], fault);
            && (fault.NoFault? ==> after == written + chunk[..end])
            && (after == data || after <= written + chunk)
            && (started ==> after <= written + chunk)
  {
    var sent, piece := written + chunk[..start], chunk[start..end];
    WritePiece(data, sent, Accepted(piece, fault), started);
    assert sent + piece == written + chunk[..end] <= written + chunk;
    assert sent + Accepted(piece, fault) <= sent + piece;
  }

  /** Calls number `from` up to `to` are made, and the first fault ends them: success is that there is none. */
  ghost predicate EndsAtFault(faults: Faults, from: nat, to: nat, ok: bool) {
    && from <= to
    && (ok <==> forall n: nat :: from <= n < to ==> faults(n).NoFault?)
    && (forall n: nat :: from <= n && n + 1 < to ==> faults(n).NoFault?)
  }

  /** The pieces of one source chunk. `written` is what was sent before it. */
  method WriteSourceChunk(remote: RemoteFile, chunk: Bytes, ghost written: Bytes, offset: nat, started: bool,
                          calls: nat, faults: Faults)
    returns (ok: bool, newOffset: nat, newStarted: bool, newCalls: nat)
    requires offset == |written|
    requires if started then remote.data == written && written != [] else written == []
    modifies remote
    ensures ok ==> newOffset == offset + |chunk| && (newStarted <==> started || chunk != [])
    ensures ok ==> remote.data == if newStarted then written + chunk else old(remote.data)
    ensures !ok ==> Underway(remote.data, old(remote.data), written + chunk)
    ensures EndsAtFault(faults, calls, newCalls, ok) && (newCalls == calls <==> chunk == [])
    ensures remote.largest <= Max(old(remote.largest), CHUNK)
  {
    newOffset, newStarted, newCalls := offset, started, calls;
    var start := 0;
    while start < |chunk|
      invariant 0 <= start <= |chunk| && newOffset == offset + start
      invariant newStarted <==> started || start > 0
      invariant EndsAtFault(faults, calls, newCalls, true) && (newCalls == calls <==> start == 0)
      invariant if newStarted then remote.data == written + chunk[..start] && remote.data != []
                else written == [] && start == 0 && remote.data == old(remote.data)
      invariant remote.largest <= Max(old(remote.largest), CHUNK)
    {
      var end := Min(start + CHUNK, |chunk|);
      var fault := faults(newCalls);
      OnePieceMore(remote.data, written, chunk, start, end, newStarted, fault);
      remote.WriteChunk(newOffset, chunk[start..end], fault);
      newCalls := newCalls + 1;
      if !fault.NoFault? { return false, newOffset, newStarted, newCalls; }
      newOffset := newOffset + (end - start);
      newStarted := true;
      start := end;
    }
    assert chunk[..|chunk|] == chunk;
    return true, newOffset, newStarted, newCalls;
  }

  /** A successful write leaves the remote file equal to the concatenation of the source chunks, empty
      input included; no call carries more than a mebibyte; and a failed one leaves either the old file
      or a prefix of the new one. The first fault makes it fail, and nothing else does; the count that the one
      call of an empty write reports is not looked at. */
  method WriteRpcChunks(remote: RemoteFile, chunks: seq<Bytes>, faults: Faults) returns (ok: bool, calls: nat)
    modifies remote
    ensures ok ==> remote.data == Concat(chunks)
    ensures !ok ==> Underway(remote.data, old(remote.data), Concat(chunks))
    ensures if Concat(chunks) == [] then calls == 1 && (ok <==> !faults(0).ErrorAnswer?)
            else EndsAtFault(faults, 0, calls, ok)
    ensures remote.largest <= Max(old(remote.largest), CHUNK)
  {
    var offset, wroteChunk := 0, false;
    calls := 0;
    for n := 0 to |chunks|
      invariant offset == |Concat(chunks[..n])|
      invariant if wroteChunk then remote.data == Concat(chunks[..n]) && Concat(chunks[..n]) != []
                else remote.data == old(remote.data) && Concat(chunks[..n]) == [] && calls == 0
      invariant EndsAtFault(faults, 0, calls, true)
      invariant remote.largest <= Max(old(remote.largest), CHUNK)
    {
      ghost var written := Concat(chunks[..n]);
      ConcatPrefix(chunks, n);
      ok, offset, wroteChunk, calls :=
        WriteSourceChunk(remote, chunks[n], written, offset, wroteChunk, calls, faults);
      if !ok { return; }
    }
    assert chunks[..|chunks|] == chunks;
    if !wroteChunk {
      WriteAtStart(remote.data, []);
      remote.WriteChunk(0, [], faults(calls));
      return !faults(calls).ErrorAnswer?, calls + 1;
    }
    return true, calls;
  }

  /** A successful read yields the remote bytes in nonempty pieces of at most a mebibyte; a failed one
      has yielded a prefix of them. It ends after finitely many calls; the first fault makes it fail, and nothing
      else does. */
  method ReadRpcChunks(remote: RemoteFile, faults: Faults) returns (ok: bool, yielded: seq<Bytes>, calls: nat)
    ensures ok ==> Concat(yielded) == remote.data
    ensures Concat(yielded) <= remote.data
    ensures forall i :: 0 <= i < |yielded| ==> 0 < |yielded[i]| <= CHUNK
    ensures calls > 0 && EndsAtFault(faults, 0, calls, ok)
  {
    yielded, calls := [], 0;
    var offset := 0;
    while true
      invariant offset == |Concat(yielded)| && Concat(yielded) <= remote.data
      invariant forall i :: 0 <= i < |yielded| ==> 0 < |yielded[i]| <= CHUNK
      invariant EndsAtFault(faults, 0, calls, true)
      decreases |remote.data| - offset
    {
      var piece := RemoteRead(remote.data, offset, CHUNK);
      var eof := offset + |piece| >= |remote.data|;
      calls := calls + 1;
      if !faults(calls - 1).NoFault? { return false, yielded, calls; }
      if piece != [] {
        ConcatAppend(yielded, piece);
        assert remote.data[..offset] + piece == remote.data[..offset + |piece|];
        yielded := yielded + [piece];
        offset := offset + |piece|;
      }
      if eof {
        assert remote.data[..offset] == remote.data;
        return true, yielded, calls;
      }
      if piece == [] { return false, yielded, calls; }
    }
  }

  /** Round trip: what a successful write is given, a successful read of the same file gives back. */
  method WriteThenRead(remote: RemoteFile, chunks: seq<Bytes>, writeFaults: Faults, readFaults: Faults)
    returns (ok: bool, yielded: seq<Bytes>)
    modifies remote
    ensures ok ==> Concat(yielded) == Concat(chunks)
    ensures (forall n: nat :: writeFaults(n).NoFault?) && (forall n: nat :: readFaults(n).NoFault?) ==> ok
  {
    yielded := [];
    var calls;
    ok, calls := WriteRpcChunks(remote, chunks, writeFaults);
    if ok { ok, yielded, calls := ReadRpcChunks(remote, readFaults); }
  }
}
