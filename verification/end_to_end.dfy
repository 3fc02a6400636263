/** One connection and its client, from the packets enqueued to the messages handled.

    `RunSession` drives the server's entry points and the client's loop in any order, with
    every choice the two kernels may make in between. */
module EndToEnd {
  import opened Bytes
  import opened Framing
  import opened Connections
  import opened Outgoing
  import opened Clients

  function Frames(payloads: seq<seq<byte>>): seq<seq<byte>> {
    seq(|payloads|, i requires 0 <= i < |payloads| => Encode(payloads[i]))
  }

  lemma {:induction false} FramesFlatten(payloads: seq<seq<byte>>)
    ensures Flatten(Frames(payloads)) == Stream(payloads)
  {
    if payloads != [] {
      assert Frames(payloads)[1..] == Frames(payloads[1..]);
      FramesFlatten(payloads[1..]);
    }
  }

  /** The client is a prefix behind: everything it read is accounted for by frames it took,
      which are the first ones sent, and by what its ring still holds. */
  predicate InStep(sent: seq<seq<byte>>, received: seq<byte>, framed: seq<seq<byte>>, buffered: seq<byte>,
      parses: seq<byte> -> bool)
  {
    && framed <= sent
    && received == Stream(framed) + buffered
    && |buffered| < CLIENT_BUF_SIZE
    && (Filter(framed, parses) == framed ==> !Complete(buffered))
  }

  lemma StripJoined(framed: seq<seq<byte>>, pending: seq<seq<byte>>, buffered: seq<byte>)
    requires Stream(framed) + buffered <= Stream(framed + pending)
    ensures Behind(pending, buffered)
  {
    StreamAppend(framed, pending);
    PrefixCancel(Stream(framed), buffered, Stream(pending));
  }

  lemma StripFrames(sent: seq<seq<byte>>, framed: seq<seq<byte>>, buffered: seq<byte>)
    requires framed <= sent && Stream(framed) + buffered <= Stream(sent)
    ensures Behind(sent[|framed|..], buffered)
  {
    hide Stream;
    assert framed + sent[|framed|..] == sent;
    StripJoined(framed, sent[|framed|..], buffered);
  }

  lemma {:induction false} FilterShrinks<T>(xs: seq<T>, keep: T -> bool)
    ensures |Filter(xs, keep)| <= |xs|
  {
    if xs != [] {
      FilterShrinks(xs[1..], keep);
    }
  }

  lemma FilterSplits<T>(xs: seq<T>, ys: seq<T>, keep: T -> bool)
    requires Filter(xs + ys, keep) == xs + ys
    ensures Filter(ys, keep) == ys
  {
    FilterAppend(xs, ys, keep);
    FilterShrinks(xs, keep);
    FilterShrinks(ys, keep);
    assert Filter(ys, keep) == (Filter(xs, keep) + Filter(ys, keep))[|xs|..] == (xs + ys)[|xs|..] == ys;
  }

  lemma Extend<T>(whole: seq<T>, first: seq<T>, more: seq<T>)
    requires first <= whole && more <= whole[|first|..]
    ensures first + more <= whole
  {
  }

  lemma SmallRest(payloads: seq<seq<byte>>, k: nat)
    requires Small(payloads) && k <= |payloads|
    ensures Small(payloads[k..])
  {
  }

  /** However the stream is cut, reading on keeps the client in step, and its ring never
      fills: the discard branch of receive_loop is not reached. */
  lemma ReadingKeepsStep(sent: seq<seq<byte>>, received: seq<byte>, framed: seq<seq<byte>>, buffered: seq<byte>,
      bytes: seq<byte>, parses: seq<byte> -> bool)
    requires Small(sent) && InStep(sent, received, framed, buffered, parses)
    requires received + bytes <= Stream(sent) && |buffered| + |bytes| <= CLIENT_BUF_SIZE
    ensures var d := Drain(buffered + bytes, parses);
            InStep(sent, received + bytes, framed + d.framed, d.rest, parses)
  {
    var pending, s := sent[|framed|..], buffered + bytes;
    Assoc(Stream(framed), buffered, bytes);
    StripFrames(sent, framed, s);
    SmallRest(sent, |framed|);
    DrainFollows(pending, s, parses);
    var d := Drain(s, parses);
    Extend(sent, framed, d.framed);
    StreamAppend(framed, d.framed);
    Assoc(Stream(framed), Stream(d.framed), d.rest);
    if Filter(framed + d.framed, parses) == framed + d.framed {
      FilterSplits(framed, d.framed, parses);
    }
  }

  /** Once everything sent was read and everything taken parsed, everything sent was taken. */
  lemma CaughtUp(sent: seq<seq<byte>>, received: seq<byte>, framed: seq<seq<byte>>, buffered: seq<byte>,
      parses: seq<byte> -> bool)
    requires Small(sent) && InStep(sent, received, framed, buffered, parses)
    requires received == Stream(sent) && Filter(framed, parses) == framed
    ensures framed == sent && buffered == []
  {
    WholeStream(sent);
    ReadingIsUnique(Parsed(framed, buffered));
  }

  datatype Action =
    | Send(payload: seq<byte>)
    | Broadcast(payloads: seq<seq<byte>>)
    | Writable
    | FlushTimer
    | ClientPoll
    | Disconnect

  predicate SmallAction(a: Action) {
    match a
    case Send(p) => Small([p])
    case Broadcast(ps) => Small(ps)
    case _ => true
  }

  /** The state between two actions. */
  ghost predicate Session(conn: Connection, client: Client, sent: seq<seq<byte>>)
    reads conn, conn.inBuf, client, client.inBuf, client.inBuf.buf
  {
    && conn.inBuf != client.inBuf && conn.inBuf.buf != client.inBuf.buf
    && conn.Released()
    && client.Valid()
    && Small(sent)
    && conn.enqueued == Frames(sent)
    && client.received <= conn.wire
    && InStep(sent, client.received, client.framed, client.inBuf.Contents(), client.parses)
  }

  lemma WireIsStream(conn: Connection, sent: seq<seq<byte>>)
    requires conn.Valid() && conn.enqueued == Frames(sent)
    ensures conn.wire <= Stream(sent)
    ensures conn.outgoingQueue == [] ==> conn.wire == Stream(sent)
  {
    FramesFlatten(sent);
    if conn.outgoingQueue == [] {
      assert Remainders(conn.outgoingQueue) == [];
    }
  }

  lemma FramesAppend(xs: seq<seq<byte>>, ys: seq<seq<byte>>)
    ensures Frames(xs + ys) == Frames(xs) + Frames(ys)
  {
  }

  function Events(payloads: seq<seq<byte>>): seq<BroadcastEvent> {
    seq(|payloads|, i requires 0 <= i < |payloads| => BroadcastEvent(-1, Encode(payloads[i])))
  }

  lemma {:induction false} EveryoneWants(events: seq<BroadcastEvent>, fd: int)
    requires forall i | 0 <= i < |events| :: events[i].senderFd == -1
    ensures Wanted(events, fd) == events
  {
    if events != [] {
      EveryoneWants(events[1..], fd);
    }
  }

  /** What a connection accepts of a broadcast of `payloads` is the framing of a prefix of them. */
  lemma AcceptedPrefix(payloads: seq<seq<byte>>, fd: int, queued: nat)
    ensures var k := |Accepted(Events(payloads), fd, queued)|;
            k <= |payloads| && Accepted(Events(payloads), fd, queued) == Frames(payloads[..k])
  {
    EveryoneWants(Events(payloads), fd);
  }

  method ServerSends(conn: Connection, payload: seq<byte>, ghost sent: seq<seq<byte>>) returns (more: seq<seq<byte>>)
    requires conn.Released() && conn.enqueued == Frames(sent)
    modifies conn`outgoingQueue, conn`pendingBytes, conn`isReadingPaused, conn`isWriteArmed,
      conn`currentEpollEvents, conn`kernelEvents, conn`wire, conn`writeLog, conn`enqueued
    ensures conn.Released() && old(conn.wire) <= conn.wire
    ensures more == (if conn.closed then [] else [payload]) && conn.enqueued == Frames(sent + more)
  {
    more := if conn.closed then [] else [payload];
    SendPreEncoded(conn, Encode(payload));
    FramesAppend(sent, more);
    assert Frames([payload]) == [Encode(payload)];
  }

  method ServerBroadcasts(conn: Connection, payloads: seq<seq<byte>>, ghost sent: seq<seq<byte>>)
    returns (more: seq<seq<byte>>)
    requires conn.Released() && conn.enqueued == Frames(sent)
    modifies conn`outgoingQueue, conn`pendingBytes, conn`isReadingPaused, conn`isWriteArmed,
      conn`currentEpollEvents, conn`kernelEvents, conn`wire, conn`writeLog, conn`enqueued
    ensures conn.Released() && old(conn.wire) <= conn.wire
    ensures more <= payloads && conn.enqueued == Frames(sent + more)
    ensures !conn.closed && |more| < |payloads| ==> |old(conn.outgoingQueue)| + |more| >= MAX_OUTGOING_QUEUE_SIZE
    ensures conn.closed ==> more == []
  {
    AcceptedPrefix(payloads, conn.fd, |conn.outgoingQueue|);
    AcceptedIsBounded(Events(payloads), conn.fd, |conn.outgoingQueue|);
    EveryoneWants(Events(payloads), conn.fd);
    var k := |Accepted(Events(payloads), conn.fd, |conn.outgoingQueue|)|;
    more := if conn.closed then [] else payloads[..k];
    BroadcastTo(conn, Events(payloads));
    FramesAppend(sent, more);
  }

  /** receive_loop once, on the bytes in flight. Its discard branch is not taken. */
  method ClientReads(conn: Connection, client: Client, ghost sent: seq<seq<byte>>) returns (r: Option<ReadResult>)
    requires Session(conn, client, sent)
    modifies client`handled, client`framed, client`received, client`receiving, client`readLog,
      client.inBuf`readPos, client.inBuf`writePos, client.inBuf`count, client.inBuf.buf
    ensures Session(conn, client, sent)
    ensures r.Some? && client.readLog == old(client.readLog) + [r.value]
    ensures r.value.Data? ==> r.value.bytes != [] && client.received == old(client.received) + r.value.bytes
  {
    ghost var received, framed, buffered := client.received, client.framed, client.inBuf.Contents();
    var inFlight := conn.wire[|client.received|..];
    WireIsStream(conn, sent);
    r := client.ReceiveOnce(inFlight);
    assert conn.wire == received + inFlight;
    if r.Some? && r.value.Data? {
      Extend(conn.wire, received, r.value.bytes);
      ReadingKeepsStep(sent, received, framed, buffered, r.value.bytes, client.parses);
    }
  }

  lemma StepsSurviveSends(sent: seq<seq<byte>>, more: seq<seq<byte>>, received: seq<byte>, framed: seq<seq<byte>>,
      buffered: seq<byte>, parses: seq<byte> -> bool)
    requires Small(sent) && Small(more) && InStep(sent, received, framed, buffered, parses)
    ensures Small(sent + more) && InStep(sent + more, received, framed, buffered, parses)
  {
  }

  function Offered(action: Action): seq<seq<byte>> {
    match action
    case Send(payload) => [payload]
    case Broadcast(payloads) => payloads
    case _ => []
  }

  /** `part` of what `action` offers was enqueued, on a connection open or closed before it: a
      send is enqueued if it is open, of a broadcast a first part. */
  predicate Enqueues(action: Action, open: bool, part: seq<seq<byte>>) {
    && part <= Offered(action)
    && (!open ==> part == [])
    && (open && action.Send? ==> part == Offered(action))
  }

  /** The application closes the connection, or a writev of handle_write that failed. */
  predicate Closes(action: Action, failed: bool) {
    action.Disconnect? || failed
  }

  method Act(conn: Connection, client: Client, action: Action, ghost sent: seq<seq<byte>>)
    returns (more: seq<seq<byte>>, failed: bool)
    requires Session(conn, client, sent) && SmallAction(action)
    modifies conn, client, client.inBuf, client.inBuf.buf
    ensures Session(conn, client, sent + more)
    ensures Enqueues(action, !old(conn.closed), more)
    ensures conn.closed == (old(conn.closed) || Closes(action, failed))
    // the last writev of this very action failed
    ensures failed <==> action.Writable? && conn.outgoingQueue != [] && conn.writeLog[|conn.writeLog| - 1] == WriteFailed
    ensures failed ==> old(conn.writeLog) < conn.writeLog
  {
    hide Connection.Conserved;
    hide InStep;
    hide Frames;
    more, failed := [], false;
    match action {
      case Send(payload) =>
        more := ServerSends(conn, payload, sent);
      case Broadcast(payloads) =>
        more := ServerBroadcasts(conn, payloads, sent);
      case Writable =>
        failed := HandleWrite(conn);
        if failed {
          var _ := conn.MarkClosed();
        }
      case FlushTimer =>
        FlushOne(conn);
      case ClientPoll =>
        var _ := ClientReads(conn, client, sent);
      case Disconnect =>
        var _ := conn.MarkClosed();
    }
    assert sent + [] == sent;
    StepsSurviveSends(sent, more, client.received, client.framed, client.inBuf.Contents(), client.parses);
  }

  /** Where the stream of everything sent is: in frames the client took, in its ring, in
      flight, and in the server's queue. */
  lemma WhereTheBytesAre(conn: Connection, client: Client, sent: seq<seq<byte>>)
    requires Session(conn, client, sent)
    ensures Stream(sent) == Stream(client.framed) + client.inBuf.Contents()
      + conn.wire[|client.received|..] + Unsent(conn.outgoingQueue)
  {
    FramesFlatten(sent);
    assert conn.wire == client.received + conn.wire[|client.received|..];
  }

  lemma SessionMeans(conn: Connection, client: Client, sent: seq<seq<byte>>)
    requires Session(conn, client, sent)
    ensures client.inBuf.Valid() && client.handled == Filter(client.framed, client.parses)
    ensures client.received <= conn.wire
    ensures InStep(sent, client.received, client.framed, client.inBuf.Contents(), client.parses) && Small(sent)
  {
  }

  /** What the actions so far enqueued, and which of them had a write fail. `openFor` of them
      found the connection open: up to the first that closes it. */
  predicate Followed(script: seq<Action>, parts: seq<seq<seq<byte>>>, failures: seq<bool>, openFor: nat, closed: bool) {
    && openFor <= |parts| == |failures| <= |script|
    && (forall i | 0 <= i < |parts| :: Enqueues(script[i], i < openFor, parts[i]))
    && (forall i | 0 <= i < |parts| :: failures[i] ==> script[i].Writable?)
    && (forall i | 0 <= i < openFor - 1 :: !Closes(script[i], failures[i]))
    && (if closed then openFor > 0 && Closes(script[openFor - 1], failures[openFor - 1])
        else openFor == |parts| && (openFor > 0 ==> !Closes(script[openFor - 1], failures[openFor - 1])))
  }

  lemma FollowedOn(script: seq<Action>, parts: seq<seq<seq<byte>>>, failures: seq<bool>, openFor: nat, closed: bool,
      more: seq<seq<byte>>, failed: bool)
    requires Followed(script, parts, failures, openFor, closed) && |parts| < |script|
    requires Enqueues(script[|parts|], !closed, more) && (failed ==> script[|parts|].Writable?)
    ensures Followed(script, parts + [more], failures + [failed], if closed then openFor else openFor + 1,
      closed || Closes(script[|parts|], failed))
  {
  }

  lemma NothingFollowed(script: seq<Action>)
    ensures Followed(script, [], [], 0, false)
  {
  }

  lemma StepMeans(sent: seq<seq<byte>>, received: seq<byte>, framed: seq<seq<byte>>, buffered: seq<byte>,
      parses: seq<byte> -> bool)
    requires InStep(sent, received, framed, buffered, parses)
    ensures framed <= sent && |buffered| < CLIENT_BUF_SIZE
  {
  }

  method Meet(fd: nat, parses: seq<byte> -> bool) returns (conn: Connection, client: Client)
    ensures fresh(conn) && fresh(conn.inBuf) && fresh(client) && fresh(client.inBuf) && fresh(client.inBuf.buf)
    ensures client.parses == parses && !conn.closed
    ensures Session(conn, client, [])
  {
    conn := new Connection(fd, 0);
    client := new Client(parses);
    assert Frames([]) == [];
  }

  /** A session of the given script. `parts` is what each action enqueued, `failures` whether
      its handle_write had a write fail, `openFor` how many of the actions found the connection
      open; `taken` are the frames the client took off the stream, `buffered`, `inFlight` and
      `unsent` the bytes not taken yet.

      For every script and every choice of both kernels: no byte is lost, duplicated or
      reordered on the way; the client handles, in order and unmodified, what it takes and
      can parse, which is all that was enqueued and parses but for what it has not taken. Once
      nothing is queued or in flight it has taken everything exactly if its ring is empty, and
      handled everything exactly if everything parses. */
  method RunSession(fd: nat, parses: seq<byte> -> bool, script: seq<Action>)
    returns (handled: seq<seq<byte>>, parts: seq<seq<seq<byte>>>, failures: seq<bool>, openFor: nat, closed: bool,
             ghost taken: seq<seq<byte>>, buffered: seq<byte>, inFlight: seq<byte>, unsent: seq<byte>)
    requires forall i | 0 <= i < |script| :: SmallAction(script[i])
    ensures |parts| == |script| && Followed(script, parts, failures, openFor, closed)
    ensures handled == Filter(taken, parses) && taken <= Flatten(parts)
    ensures Filter(Flatten(parts), parses) == handled + Filter(Flatten(parts)[|taken|..], parses)
    ensures Stream(Flatten(parts)) == Stream(taken) + buffered + inFlight + unsent
    ensures |buffered| < CLIENT_BUF_SIZE
    ensures inFlight == unsent == [] ==>
      && (taken == Flatten(parts) <==> buffered == [])
      && (handled == Flatten(parts) <==> Filter(Flatten(parts), parses) == Flatten(parts))
  {
    hide Session;
    hide Followed;
    hide InStep;
    var conn, client := Meet(fd, parses);
    parts, failures, openFor := [], [], 0;
    NothingFollowed(script);
    for i := 0 to |script|
      invariant fresh(conn) && fresh(conn.inBuf) && fresh(client) && fresh(client.inBuf) && fresh(client.inBuf.buf)
      invariant client.parses == parses
      invariant |parts| == i && Followed(script, parts, failures, openFor, conn.closed)
      invariant Session(conn, client, Flatten(parts))
    {
      closed := conn.closed;
      var more, failed := Act(conn, client, script[i], Flatten(parts));
      FollowedOn(script, parts, failures, openFor, closed, more, failed);
      FlattenSnoc(parts, more);
      parts, failures := parts + [more], failures + [failed];
      openFor := if closed then openFor else openFor + 1;
    }
    closed := conn.closed;
    ghost var sent := Flatten(parts);
    SessionMeans(conn, client, sent);
    WhereTheBytesAre(conn, client, sent);
    handled, taken := client.handled, client.framed;
    buffered := client.inBuf.Peek(client.inBuf.count);
    assert buffered == client.inBuf.Contents();
    inFlight, unsent := conn.wire[|client.received|..], Unsent(conn.outgoingQueue);
    StepMeans(sent, client.received, taken, buffered, parses);
    assert sent == taken + sent[|taken|..];
    FilterAppend(taken, sent[|taken|..], parses);
    if inFlight == unsent == [] {
      Settled(sent, client.received, taken, buffered, parses);
    }
  }

  /** With nothing queued or in flight: taken is all exactly if the ring is empty, and handled
      is all exactly if all parses. */
  lemma Settled(sent: seq<seq<byte>>, received: seq<byte>, taken: seq<seq<byte>>, buffered: seq<byte>,
      parses: seq<byte> -> bool)
    requires Small(sent) && InStep(sent, received, taken, buffered, parses)
    requires Stream(sent) == Stream(taken) + buffered + [] + []
    ensures taken == sent <==> buffered == []
    ensures Filter(taken, parses) == sent <==> Filter(sent, parses) == sent
  {
    if taken == sent {
      assert |Stream(sent)| == |Stream(taken)| + |buffered|;
    }
    if buffered == [] {
      assert Stream(sent) == Stream(taken);
      WholeStream(sent);
      WholeStream(taken);
    }
    if Filter(sent, parses) == sent {
      AllTaken(sent, received, taken, buffered, parses);
    }
    FilterShrinks(taken, parses);
  }

  lemma AllTaken(sent: seq<seq<byte>>, received: seq<byte>, taken: seq<seq<byte>>, buffered: seq<byte>,
      parses: seq<byte> -> bool)
    requires Small(sent) && InStep(sent, received, taken, buffered, parses)
    requires Stream(sent) == Stream(taken) + buffered + [] + [] && Filter(sent, parses) == sent
    ensures Filter(taken, parses) == sent
  {
    AllParsePrefix(taken, sent, parses);
    CaughtUp(sent, received, taken, buffered, parses);
  }

  lemma AllParsePrefix(xs: seq<seq<byte>>, whole: seq<seq<byte>>, keep: seq<byte> -> bool)
    requires xs <= whole && Filter(whole, keep) == whole
    ensures Filter(xs, keep) == xs
  {
    var ys := whole[|xs|..];
    assert whole == xs + ys;
    FilterAppend(xs, ys, keep);
    FilterShrinks(xs, keep);
    FilterShrinks(ys, keep);
    assert Filter(xs, keep) == (Filter(xs, keep) + Filter(ys, keep))[..|xs|] == (xs + ys)[..|xs|] == xs;
  }
}
