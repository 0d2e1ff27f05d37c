/**
 Resumable download: a `.part` file that is appended to or started again until the whole remote file is
 in it, and then takes the place of the local file.
 */
module Downloads {
  import opened Bytes

  /** A request fails to connect, is answered with an error status, or streams bytes until it breaks or ends. */
  datatype Reply = ConnectFailed | Refused(status: nat) | Stream(status: nat, delivered: Bytes, broken: bool)

  /** What the server does with request number `n` for the bytes from an offset on. */
  type Server = (nat, nat) -> Reply

  datatype Ending = Done | ErrorStatus(status: nat) | TooManyFailures

  /** `part` and `local` are the files, None when absent. */
  datatype Files = Files(part: Option<Bytes>, local: Option<Bytes>)

  datatype Result = Result(files: Files, requests: nat, ending: Ending)

  function Contents(file: Option<Bytes>): Bytes {
    if file.Some? then file.value else []
  }

  /** Appending is only for a partial answer to a request for the rest; any other answer starts again. */
  function Written(part: Bytes, status: nat, delivered: Bytes): Bytes {
    if |part| > 0 && status == 206 then part + delivered else delivered
  }

  /** The requests from number `n` on. */
  function From(files: Files, server: Server, n: nat, failures: nat, maxRetries: int): Result
    decreases Max(0, maxRetries + 1 - failures)
  {
    var part := Contents(files.part);
    match server(n, |part|)
    case Refused(status) => Result(files, n + 1, ErrorStatus(status))
    case ConnectFailed =>
      if failures + 1 > maxRetries then Result(files, n + 1, TooManyFailures)
      else From(files, server, n + 1, failures + 1, maxRetries)
    case Stream(status, delivered, broken) =>
      var after := files.(part := Some(Written(part, status, delivered)));
      if !broken then Result(Files(None, after.part), n + 1, Done)
      else if failures + 1 > maxRetries then Result(after, n + 1, TooManyFailures)
      else From(after, server, n + 1, failures + 1, maxRetries)
  }

  predicate Prefix(part: Bytes, whole: Bytes) {
    |part| <= |whole| && part == whole[..|part|]
  }

  /** Answers as sections 14.2 and 15.3.7 of RFC 9110 have them: a stream with status 206 carries the requested
      range from its start, one with another status the whole file from its start, as far as it gets, and all of
      it when it ends by itself. */
  ghost predicate Honest(reply: Reply, remote: Bytes, offset: nat) {
    reply.Stream? ==>
      if offset > 0 && reply.status == 206
      then SliceAt(remote, offset, reply.delivered)
           && (!reply.broken ==> offset + |reply.delivered| == |remote|)
      else Prefix(reply.delivered, remote) && (!reply.broken ==> reply.delivered == remote)
  }

  ghost predicate HonestServer(server: Server, remote: Bytes) {
    forall n: nat, offset: nat :: Honest(server(n, offset), remote, offset)
  }

  lemma WrittenIsPrefix(part: Bytes, reply: Reply, remote: Bytes)
    requires Prefix(part, remote) && reply.Stream? && Honest(reply, remote, |part|)
    ensures Prefix(Written(part, reply.status, reply.delivered), remote)
    ensures !reply.broken ==> Written(part, reply.status, reply.delivered) == remote
  {}

  lemma {:induction false} RequestsAreBounded(files: Files, server: Server, n: nat, failures: nat, maxRetries: int)
    ensures n < From(files, server, n, failures, maxRetries).requests <= n + 1 + Max(0, maxRetries - failures)
    decreases Max(0, maxRetries + 1 - failures)
  {
    var part := Contents(files.part);
    var reply := server(n, |part|);
    if failures + 1 <= maxRetries {
      match reply {
        case ConnectFailed => RequestsAreBounded(files, server, n + 1, failures + 1, maxRetries);
        case Stream(status, delivered, true) =>
          RequestsAreBounded(files.(part := Some(Written(part, status, delivered))), server, n + 1, failures + 1,
                             maxRetries);
        case _ =>
      }
    }
  }

  /** Through every broken stream and every restart the part file stays a prefix of the remote file; at
      most one request more than the retries is made; the local file changes only on a normal return,
      and then it is the remote file. */
  lemma {:induction false} DownloadIsExact(files: Files, server: Server, n: nat, failures: nat, maxRetries: int,
                                           remote: Bytes)
    requires HonestServer(server, remote) && Prefix(Contents(files.part), remote)
    ensures var result := From(files, server, n, failures, maxRetries);
            && Prefix(Contents(result.files.part), remote)
            && n < result.requests <= n + 1 + Max(0, maxRetries - failures)
            && (result.ending == Done ==> result.files == Files(None, Some(remote)))
            && (result.ending != Done ==> result.files.local == files.local)
    decreases Max(0, maxRetries + 1 - failures)
  {
    var part := Contents(files.part);
    var reply := server(n, |part|);
    assert Honest(reply, remote, |part|);
    if reply.Stream? {
      WrittenIsPrefix(part, reply, remote);
      var after := files.(part := Some(Written(part, reply.status, reply.delivered)));
      if reply.broken && failures + 1 <= maxRetries {
        DownloadIsExact(after, server, n + 1, failures + 1, maxRetries, remote);
      }
    } else if reply.ConnectFailed? && failures + 1 <= maxRetries {
      DownloadIsExact(files, server, n + 1, failures + 1, maxRetries, remote);
    }
  }

  /** An error status ends the download at once, as it came; failures end it when there is one more of them than
      retries, and not before. */
  lemma {:induction false} EndingIsTheLastReply(files: Files, server: Server, n: nat, failures: nat, maxRetries: int)
    requires failures <= Max(0, maxRetries)
    ensures var result := From(files, server, n, failures, maxRetries);
            && result.requests > n
            && (forall status :: result.ending == ErrorStatus(status) ==>
                  server(result.requests - 1, |Contents(result.files.part)|) == Refused(status))
            && (result.ending == TooManyFailures ==> result.requests - n == Max(0, maxRetries) + 1 - failures)
    decreases Max(0, maxRetries + 1 - failures)
  {
    var part := Contents(files.part);
    var reply := server(n, |part|);
    if failures + 1 <= maxRetries && reply.ConnectFailed? {
      EndingIsTheLastReply(files, server, n + 1, failures + 1, maxRetries);
    } else if failures + 1 <= maxRetries && reply.Stream? && reply.broken {
      EndingIsTheLastReply(files.(part := Some(Written(part, reply.status, reply.delivered))), server, n + 1,
                           failures + 1, maxRetries);
    }
  }

  // ---- when the download succeeds

  /** What goes wrong with a request: the connection fails, or the stream breaks after so many bytes. */
  datatype Fault = NoConnection | Break(after: nat)

  /** The part file holds every byte of a file that has bytes. */
  predicate Whole(length: nat, total: nat) {
    0 < length && total <= length
  }

  /** A stream of the rest of the file: the range from the offset on, or all of it again when the server
      takes no ranges. */
  function Reply200Or206(remote: Bytes, ranges: bool, offset: nat, fault: Option<Fault>): Reply {
    var partial := ranges && 0 < offset < |remote|;
    var rest := if partial then remote[offset..] else remote;
    var status := if partial then 206 else 200;
    match fault
    case None => Stream(status, rest, false)
    case Some(NoConnection) => ConnectFailed
    case Some(Break(after)) => Stream(status, rest[..Min(after, |rest|)], true)
  }

  /** A server that meets one fault after the other and then none. A request for what follows the last byte
      is answered with status 416 (section 15.5.17 of RFC 9110). */
  function Faulty(remote: Bytes, ranges: bool, faults: seq<Fault>): Server {
    (n: nat, offset: nat) =>
      var fault := if n < |faults| then Some(faults[n]) else None;
      if fault != Some(NoConnection) && ranges && Whole(offset, |remote|) then Refused(416)
      else Reply200Or206(remote, ranges, offset, fault)
  }

  /** The length of the part file after a fault. */
  function LengthAfter(length: nat, fault: Fault, ranges: bool, total: nat): nat {
    match fault
    case NoConnection => length
    case Break(after) =>
      if ranges && 0 < length < total then length + Min(after, total - length) else Min(after, total)
  }

  /** At none of the requests, one for each fault and one more, is the part file whole already. */
  predicate NeverWhole(length: nat, faults: seq<Fault>, ranges: bool, total: nat)
    decreases |faults|
  {
    && !Whole(length, total)
    && (faults != [] ==> NeverWhole(LengthAfter(length, faults[0], ranges, total), faults[1..], ranges, total))
  }

  lemma ReplyIsHonest(remote: Bytes, ranges: bool, offset: nat, fault: Option<Fault>)
    ensures Honest(Reply200Or206(remote, ranges, offset, fault), remote, offset)
  {}

  lemma FaultyIsHonest(remote: Bytes, ranges: bool, faults: seq<Fault>)
    ensures HonestServer(Faulty(remote, ranges, faults), remote)
  {
    var server := Faulty(remote, ranges, faults);
    forall n: nat, offset: nat ensures Honest(server(n, offset), remote, offset) {
      ReplyIsHonest(remote, ranges, offset, if n < |faults| then Some(faults[n]) else None);
    }
  }

  lemma AfterTheFaults(remote: Bytes, ranges: bool, faults: seq<Fault>, offset: nat)
    ensures Faulty(remote, ranges, faults)(|faults|, offset)
         == if ranges && Whole(offset, |remote|) then Refused(416) else Reply200Or206(remote, ranges, offset, None)
  {}

  /** One faulty request on a part file that is not refused. */
  lemma FaultWrites(part: Bytes, remote: Bytes, ranges: bool, fault: Fault)
    requires Prefix(part, remote) && !(ranges && Whole(|part|, |remote|))
    ensures match Reply200Or206(remote, ranges, |part|, Some(fault))
            case ConnectFailed => LengthAfter(|part|, fault, ranges, |remote|) == |part|
            case Refused(_) => false
            case Stream(status, delivered, broken) =>
              && broken
              && Prefix(Written(part, status, delivered), remote)
              && |Written(part, status, delivered)| == LengthAfter(|part|, fault, ranges, |remote|)
  {}

  /** The download succeeds if and only if there are no more faults than retries, the part file is not whole at
      the start, and no stream breaks after its last byte: a whole part file asks for what follows it and is
      refused for good. A server that takes no ranges sends everything again instead. */
  lemma {:induction false} SucceedsIffNeverWhole(files: Files, n: nat, maxRetries: int, remote: Bytes, ranges: bool,
                                                 faults: seq<Fault>)
    requires Prefix(Contents(files.part), remote) && n <= |faults|
    ensures var result := From(files, Faulty(remote, ranges, faults), n, n, maxRetries);
            result.ending == Done <==>
              && (n == |faults| || |faults| <= maxRetries)
              && (ranges ==> NeverWhole(|Contents(files.part)|, faults[n..], ranges, |remote|))
    decreases |faults| - n
  {
    var part := Contents(files.part);
    var reply := Faulty(remote, ranges, faults)(n, |part|);
    if n == |faults| {
      assert faults[n..] == [];
      AfterTheFaults(remote, ranges, faults, |part|);
    } else if reply.Refused? {
      assert !NeverWhole(|part|, faults[n..], ranges, |remote|);
    } else {
      assert faults[n..][0] == faults[n] && faults[n..][1..] == faults[n + 1..];
      if !(ranges && Whole(|part|, |remote|)) { FaultWrites(part, remote, ranges, faults[n]); }
      var after := if reply.Stream? then files.(part := Some(Written(part, reply.status, reply.delivered))) else files;
      if n + 1 <= maxRetries { SucceedsIffNeverWhole(after, n + 1, maxRetries, remote, ranges, faults); }
    }
  }

  /** One byte, received and not yet renamed: every later run asks for what follows it and is refused. */
  lemma CompletePartIsRefused(local: Option<Bytes>, maxRetries: int)
    ensures var files := Files(Some([7]), local);
            From(files, Faulty([7], true, []), 0, 0, maxRetries) == Result(files, 1, ErrorStatus(416))
  {
    AfterTheFaults([7], true, [], 1);
  }

  /** A stream that breaks after its last byte: the one byte of the file is there, and the retry is refused
      although three retries are left. */
  lemma BreakAfterLastByteIsRefused(local: Option<Bytes>)
    ensures From(Files(None, local), Faulty([7], true, [Break(1)]), 0, 0, 3)
         == Result(Files(Some([7]), local), 2, ErrorStatus(416))
  {
    var remote: Bytes := [7];
    var server := Faulty(remote, true, [Break(1)]);
    assert remote[..1] == remote;
    assert server(0, 0) == Reply200Or206(remote, true, 0, Some(Break(1))) == Stream(200, remote, true);
    assert server(1, 1) == Refused(416);
    var after := Files(Some([7]), local);
    assert From(after, server, 1, 1, 3) == Result(after, 2, ErrorStatus(416));
  }

  class Downloader {
    var part: Option<Bytes>
    var local: Option<Bytes>

    function View(): Files
      reads this
    {
      Files(part, local)
    }

    method WriteStream(delivered: Bytes, append: bool)
      modifies this`part
      ensures part == Some(if append then Contents(old(part)) + delivered else delivered)
    {
      if !append || part.None? { part := Some([]); }
      part := Some(part.value + delivered);
      assert [] + delivered == delivered;
    }

    method Download(server: Server, maxRetries: int) returns (ending: Ending, requests: nat)
      modifies this
      ensures Result(View(), requests, ending) == From(old(View()), server, 0, 0, maxRetries)
      ensures requests <= 1 + Max(0, maxRetries)
      ensures forall remote :: HonestServer(server, remote) && Prefix(Contents(old(part)), remote) ==>
                if ending == Done then local == Some(remote) && part == None
                else local == old(local) && Prefix(Contents(part), remote)
    {
      RequestsAreBounded(View(), server, 0, 0, maxRetries);
      forall remote | HonestServer(server, remote) && Prefix(Contents(part), remote)
        ensures var result := From(View(), server, 0, 0, maxRetries);
                if result.ending == Done then result.files == Files(None, Some(remote))
                else result.files.local == local && Prefix(Contents(result.files.part), remote)
      {
        DownloadIsExact(View(), server, 0, 0, maxRetries, remote);
      }
      requests := 0;
      var attempts := 0;
      while true
        invariant attempts == requests
        invariant From(View(), server, requests, attempts, maxRetries) == From(old(View()), server, 0, 0, maxRetries)
        decreases Max(0, maxRetries + 1 - attempts)
      {
        var offset := if part.Some? then |part.value| else 0;
        var reply := server(requests, offset);
        requests := requests + 1;
        match reply {
          case Refused(status) => return ErrorStatus(status), requests;
          case ConnectFailed =>
          case Stream(status, delivered, broken) =>
            WriteStream(delivered, offset > 0 && status == 206);
            if !broken {
              local := part;
              part := None;
              return Done, requests;
            }
        }
        attempts := attempts + 1;
        if attempts > maxRetries { return TooManyFailures, requests; }
      }
    }
  }
}
