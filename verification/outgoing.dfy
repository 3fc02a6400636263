/** The outgoing half of v4/webserver.cpp: attempt_write and the entry points that call it.

    Each method is one critical section of the connection's lock. `Valid` (conservation)
    holds throughout; every entry point also gives back `Released`. */
module Outgoing {
  import opened Bytes
  import opened RingBuffers
  import opened Connections

  const IOV_LIMIT := 64
  const BATCH_FLUSH_THRESHOLD := 4096
  const MAX_OUTGOING_QUEUE_SIZE := 5000

  /** The kernel: any non-empty prefix of the request may be taken, or none at all. */
  method Writev(conn: Connection, iov: seq<seq<byte>>) returns (r: WriteResult)
    requires Flatten(iov) != []
    modifies conn`wire, conn`writeLog
    ensures conn.writeLog == old(conn.writeLog) + [r]
    ensures r.Wrote? ==> 1 <= r.n <= |Flatten(iov)| && conn.wire == old(conn.wire) + Flatten(iov)[..r.n]
    ensures !r.Wrote? ==> conn.wire == old(conn.wire)
  {
    if * {
      r := WriteBlocked;
    } else if * {
      r := WriteFailed;
    } else {
      var n: nat :| 1 <= n <= |Flatten(iov)|;
      conn.wire := conn.wire + Flatten(iov)[..n];
      r := Wrote(n);
    }
    conn.writeLog := conn.writeLog + [r];
  }

  /** The iovec array built for one writev: the first non-empty remainders of the queue, all
      of them if there are fewer than 64. */
  method Gather(queue: seq<OutgoingPacket>) returns (iov: seq<seq<byte>>)
    requires OffsetsFit(queue)
    ensures |iov| <= IOV_LIMIT
    ensures forall v <- iov :: v != []
    ensures Flatten(iov) <= Unsent(queue)
    ensures |iov| < IOV_LIMIT ==> Flatten(iov) == Unsent(queue)
  {
    iov := [];
    var i := 0;
    assert queue[..0] == [];
    while i < |queue| && |iov| < IOV_LIMIT
      invariant 0 <= i <= |queue| && |iov| <= IOV_LIMIT
      invariant forall v <- iov :: v != []
      invariant Flatten(iov) == Unsent(queue[..i])
    {
      var pkt := queue[i];
      assert queue[..i + 1] == queue[..i] + [pkt];
      UnsentSnoc(queue[..i], pkt);
      if pkt.sentOffset < |pkt.payload| {
        FlattenSnoc(iov, Remainder(pkt));
        iov := iov + [Remainder(pkt)];
      }
      i := i + 1;
    }
    assert queue == queue[..i] + queue[i..];
    UnsentAppend(queue[..i], queue[i..]);
    if |iov| < IOV_LIMIT {
      assert queue[i..] == [] && Unsent(queue[i..]) == [];
    }
  }

  /** The queue once `n` more bytes of it have been sent. */
  function Advance(queue: seq<OutgoingPacket>, n: nat): (q: seq<OutgoingPacket>)
    requires OffsetsFit(queue)
    ensures OffsetsFit(q)
  {
    if n == 0 || queue == [] then queue
    else
      var left := |queue[0].payload| - queue[0].sentOffset;
      if n >= left then Advance(queue[1..], n - left)
      else [queue[0].(sentOffset := queue[0].sentOffset + n)] + queue[1..]
  }

  lemma DropAcross(first: seq<byte>, more: seq<byte>, n: nat)
    requires n <= |first + more|
    ensures (first + more)[n..] == if n >= |first| then more[n - |first|..] else first[n..] + more
  {
  }

  /** Exactly the first n bytes owed go, empty packets included on the way. */
  lemma {:induction false} AdvanceDropsExactly(queue: seq<OutgoingPacket>, n: nat)
    requires OffsetsFit(queue) && n <= |Unsent(queue)|
    ensures Unsent(Advance(queue, n)) == Unsent(queue)[n..]
    decreases |queue|
  {
    hide Unsent;
    if queue == [] {
      NothingQueued();
    } else if n != 0 {
      var head, rest := queue[0], queue[1..];
      var left := |head.payload| - head.sentOffset;
      UnsentHead(queue);
      DropAcross(Remainder(head), Unsent(rest), n);
      if n >= left {
        AdvanceDropsExactly(rest, n - left);
      } else {
        var moved := head.(sentOffset := head.sentOffset + n);
        assert Remainder(moved) == Remainder(head)[n..];
        UnsentHead([moved] + rest);
        assert ([moved] + rest)[1..] == rest;
      }
    }
  }

  /** The inner loop of attempt_write. */
  method DropSent(conn: Connection, n: nat)
    requires OffsetsFit(conn.outgoingQueue)
    modifies conn`outgoingQueue
    ensures conn.outgoingQueue == Advance(old(conn.outgoingQueue), n)
  {
    var bytesLeft := n;
    while bytesLeft > 0 && conn.outgoingQueue != []
      invariant 0 <= bytesLeft && OffsetsFit(conn.outgoingQueue)
      invariant Advance(conn.outgoingQueue, bytesLeft) == Advance(old(conn.outgoingQueue), n)
      decreases |conn.outgoingQueue|
    {
      var pkt := conn.outgoingQueue[0];
      var remainingInPkt := |pkt.payload| - pkt.sentOffset;
      if bytesLeft >= remainingInPkt {
        bytesLeft := bytesLeft - remainingInPkt;
        conn.outgoingQueue := conn.outgoingQueue[1..];
      } else {
        conn.outgoingQueue := [pkt.(sentOffset := pkt.sentOffset + bytesLeft)] + conn.outgoingQueue[1..];
        bytesLeft := 0;
        break;
      }
    }
  }

  /** The counter after n bytes are sent, with the source's clamp. */
  function Deducted(pendingBytes: nat, n: nat): nat {
    if n <= pendingBytes then pendingBytes - n else 0
  }

  lemma MoveToWire(wire: seq<byte>, unsent: seq<byte>, request: seq<byte>, n: nat)
    requires request <= unsent && n <= |request|
    ensures wire + request[..n] + unsent[n..] == wire + unsent
  {
    assert unsent == request[..n] + unsent[n..];
    assert wire + request[..n] + unsent[n..] == wire + (request[..n] + unsent[n..]);
  }

  /** One turn of the outer loop of attempt_write on a non-empty queue. It reports zero bytes
      when nothing was owed and an empty packet was dropped instead of calling writev. */
  method WriteRound(conn: Connection) returns (r: WriteResult)
    requires conn.Valid() && conn.outgoingQueue != []
    modifies conn`outgoingQueue, conn`pendingBytes, conn`wire, conn`writeLog
    ensures conn.Valid()
    ensures old(conn.wire) <= conn.wire
    ensures |conn.wire| == |old(conn.wire)| + if r.Wrote? then r.n else 0
    ensures conn.writeLog == old(conn.writeLog) + if r == Wrote(0) then [] else [r]
    ensures conn.pendingBytes <= old(conn.pendingBytes)
    ensures !r.Wrote? ==> conn.outgoingQueue == old(conn.outgoingQueue)
    ensures r.Wrote? ==>
      || |Unsent(conn.outgoingQueue)| < |old(Unsent(conn.outgoingQueue))|
      || (|Unsent(conn.outgoingQueue)| == |old(Unsent(conn.outgoingQueue))|
          && |conn.outgoingQueue| < |old(conn.outgoingQueue)|)
  {
    ghost var queue, wire, log := conn.outgoingQueue, conn.wire, conn.writeLog;
    var iov := Gather(conn.outgoingQueue);
    if iov == [] {
      UnsentHead(queue);
      conn.outgoingQueue := conn.outgoingQueue[1..];
      return Wrote(0);
    }
    assert iov[0] in iov && Flatten(iov) == iov[0] + Flatten(iov[1..]);
    r := Writev(conn, iov);
    TakenSnoc(log, r);
    if r.Wrote? {
      // the clamp to zero never fires
      assert r.n <= conn.pendingBytes;
      conn.pendingBytes := Deducted(conn.pendingBytes, r.n);
      AdvanceDropsExactly(queue, r.n);
      DropSent(conn, r.n);
      MoveToWire(wire, Unsent(queue), Flatten(iov), r.n);
    }
  }

  /** attempt_write: write until nothing is queued or the socket refuses. The result says
      whether it refused with a fatal error. Reading resumes only if the queue was drained to
      the end: a would-block return skips the low-water check. */
  method AttemptWrite(conn: Connection) returns (fatal: bool)
    requires conn.Valid()
    modifies conn`outgoingQueue, conn`pendingBytes, conn`isReadingPaused, conn`wire, conn`writeLog
    ensures conn.Valid()
    ensures old(conn.wire) <= conn.wire
    ensures old(conn.writeLog) <= conn.writeLog
    ensures conn.outgoingQueue == [] ==> !fatal
    ensures conn.outgoingQueue != [] ==>
      |old(conn.writeLog)| < |conn.writeLog| && conn.writeLog[|conn.writeLog| - 1] == if fatal then WriteFailed else WriteBlocked
    ensures old(conn.outgoingQueue) == [] ==> conn.outgoingQueue == []
    ensures conn.pendingBytes <= old(conn.pendingBytes)
    ensures conn.outgoingQueue == [] ==> conn.pendingBytes == 0
    ensures conn.isReadingPaused ==
      (old(conn.isReadingPaused) && (conn.outgoingQueue != [] || old(conn.outgoingQueue) == []))
  {
    NothingQueued();
    if conn.outgoingQueue == [] {
      return false;
    }
    while conn.outgoingQueue != []
      invariant conn.Valid() && conn.pendingBytes <= old(conn.pendingBytes)
      invariant old(conn.wire) <= conn.wire && old(conn.writeLog) <= conn.writeLog
      invariant conn.isReadingPaused == old(conn.isReadingPaused)
      decreases |Unsent(conn.outgoingQueue)|, |conn.outgoingQueue|
    {
      var r := WriteRound(conn);
      match r {
        case Wrote(_) =>
        case WriteBlocked => return false;
        case WriteFailed => return true;
      }
    }
    if conn.isReadingPaused && conn.pendingBytes <= LOW_WATER_MARK {
      conn.isReadingPaused := false;
    }
    return false;
  }

  /** What is still queued was refused by a writev of this very call. */
  twostate predicate JustRefused(conn: Connection)
    reads conn
  {
    && old(conn.writeLog) <= conn.writeLog
    && (conn.outgoingQueue != [] ==> |old(conn.writeLog)| < |conn.writeLog| && conn.Refused())
  }

  /** update_epoll_events with mod_fd_epoll: the kernel follows while the fd is registered. */
  method UpdateEpollEvents(conn: Connection, newEvents: EpollMask)
    modifies conn`currentEpollEvents, conn`kernelEvents
    ensures conn.currentEpollEvents == newEvents
    ensures conn.kernelEvents.Some? == old(conn.kernelEvents.Some?)
    ensures old(conn.kernelEvents.Some? ==> conn.kernelEvents.value == conn.currentEpollEvents)
      ==> (conn.kernelEvents.Some? ==> conn.kernelEvents.value == newEvents)
  {
    if conn.currentEpollEvents == newEvents {
      return;
    }
    if conn.kernelEvents.Some? {
      conn.kernelEvents := Some(newEvents);
    }
    conn.currentEpollEvents := newEvents;
  }

  ghost predicate KernelFollows(conn: Connection)
    reads conn
  {
    conn.kernelEvents.Some? ==> conn.kernelEvents.value == conn.currentEpollEvents
  }

  /** The tail of flush_all_queues and of the broadcast tasks. */
  method ArmIfQueued(conn: Connection)
    requires KernelFollows(conn)
    modifies conn`currentEpollEvents, conn`kernelEvents, conn`isWriteArmed
    ensures KernelFollows(conn) && conn.kernelEvents.Some? == old(conn.kernelEvents.Some?)
    ensures conn.isWriteArmed == (old(conn.isWriteArmed) || conn.outgoingQueue != [])
    ensures conn.currentEpollEvents ==
      if conn.outgoingQueue != [] && !old(conn.isWriteArmed)
      then old(conn.currentEpollEvents).(epollout := true) else old(conn.currentEpollEvents)
  {
    if conn.outgoingQueue != [] && !conn.isWriteArmed {
      UpdateEpollEvents(conn, conn.currentEpollEvents.(epollout := true));
      conn.isWriteArmed := true;
    }
  }

  /** The flush branch of SendPreEncoded after its attempt_write. */
  method ToggleWriteInterest(conn: Connection)
    requires KernelFollows(conn)
    modifies conn`currentEpollEvents, conn`kernelEvents, conn`isWriteArmed
    ensures KernelFollows(conn) && conn.kernelEvents.Some? == old(conn.kernelEvents.Some?)
    ensures conn.isWriteArmed <==> conn.outgoingQueue != []
    // the bit flips with the flag and no other bit does
    ensures conn.currentEpollEvents ==
      if conn.isWriteArmed == old(conn.isWriteArmed) then old(conn.currentEpollEvents)
      else old(conn.currentEpollEvents).(epollout := conn.isWriteArmed)
  {
    var events := conn.currentEpollEvents;
    if conn.outgoingQueue != [] {
      if !conn.isWriteArmed {
        events := events.(epollout := true);
        conn.isWriteArmed := true;
      }
    } else {
      if conn.isWriteArmed {
        events := events.(epollout := false);
        conn.isWriteArmed := false;
      }
    }
    UpdateEpollEvents(conn, events);
  }

  /** The end of SendPreEncoded: the mask is recomputed from scratch. */
  method Rearm(conn: Connection)
    requires KernelFollows(conn)
    modifies conn`currentEpollEvents, conn`kernelEvents, conn`isWriteArmed
    ensures KernelFollows(conn) && conn.kernelEvents.Some? == old(conn.kernelEvents.Some?)
    ensures conn.isWriteArmed <==> conn.outgoingQueue != []
    ensures conn.isWriteArmed == conn.currentEpollEvents.epollout
    ensures conn.currentEpollEvents.epollin <==> !conn.isReadingPaused && !conn.inBuf.Full()
  {
    var events := NOTHING;
    if conn.outgoingQueue != [] {
      events := events.(epollout := true);
      conn.isWriteArmed := true;
    } else {
      conn.isWriteArmed := false;
    }
    if !conn.isReadingPaused && !conn.inBuf.Full() {
      events := events.(epollin := true);
    }
    UpdateEpollEvents(conn, events);
  }

  /** emplace at the back of the outgoing queue, with the counter and the ghost history. */
  method PushPacket(conn: Connection, packet: seq<byte>)
    requires conn.Valid()
    modifies conn`outgoingQueue, conn`pendingBytes, conn`enqueued
    ensures conn.Valid()
    ensures conn.outgoingQueue == old(conn.outgoingQueue) + [Packet(packet, 0)]
    ensures conn.pendingBytes == old(conn.pendingBytes) + |packet|
    ensures conn.enqueued == old(conn.enqueued) + [packet]
  {
    UnsentSnoc(conn.outgoingQueue, Packet(packet, 0));
    FlattenSnoc(conn.enqueued, packet);
    conn.outgoingQueue := conn.outgoingQueue + [Packet(packet, 0)];
    conn.pendingBytes := conn.pendingBytes + |packet|;
    conn.enqueued := conn.enqueued + [packet];
  }

  /** The watermark check of SendPreEncoded and of the broadcast tasks. */
  method CheckHighWater(conn: Connection)
    requires conn.Valid()
    modifies conn`isReadingPaused
    ensures conn.Valid()
    ensures conn.isReadingPaused == (old(conn.isReadingPaused) || conn.pendingBytes >= HIGH_WATER_MARK)
  {
    if !conn.isReadingPaused && conn.pendingBytes >= HIGH_WATER_MARK {
      conn.isReadingPaused := true;
    }
  }

  /** The pause flag after an enqueueing that left `pendingBytes` owed and the write that
      follows it: the high-water mark sets it, and only an empty queue clears it. */
  predicate PausedAfter(paused: bool, pendingBytes: nat, queue: seq<OutgoingPacket>) {
    (paused || pendingBytes >= HIGH_WATER_MARK) && queue != []
  }

  predicate FlushDue(pendingBytes: nat, armed: bool, wasEmpty: bool) {
    pendingBytes > BATCH_FLUSH_THRESHOLD || armed || wasEmpty
  }

  /** The batching decision of SendPreEncoded and the write it guards. */
  method FlushIfDue(conn: Connection, wasEmpty: bool)
    requires conn.Valid() && KernelFollows(conn)
    modifies conn`outgoingQueue, conn`pendingBytes, conn`isReadingPaused, conn`wire, conn`writeLog,
      conn`currentEpollEvents, conn`kernelEvents, conn`isWriteArmed
    ensures conn.Valid() && KernelFollows(conn)
    ensures conn.kernelEvents.Some? == old(conn.kernelEvents.Some?)
    ensures old(conn.wire) <= conn.wire
    ensures old(FlushDue(conn.pendingBytes, conn.isWriteArmed, wasEmpty)) ==> JustRefused(conn)
    ensures conn.pendingBytes <= old(conn.pendingBytes)
    ensures old(conn.outgoingQueue) != [] && conn.outgoingQueue == [] ==> conn.pendingBytes == 0
    ensures old(FlushDue(conn.pendingBytes, conn.isWriteArmed, wasEmpty) && conn.outgoingQueue != [])
      ==> conn.isReadingPaused == (old(conn.isReadingPaused) && conn.outgoingQueue != [])
  {
    if FlushDue(conn.pendingBytes, conn.isWriteArmed, wasEmpty) {
      var _ := AttemptWrite(conn);
      ToggleWriteInterest(conn);
    }
  }

  /** SendPreEncoded. */
  method SendPreEncoded(conn: Connection, packet: seq<byte>)
    requires conn.Released()
    modifies conn`outgoingQueue, conn`pendingBytes, conn`isReadingPaused, conn`isWriteArmed,
      conn`currentEpollEvents, conn`kernelEvents, conn`wire, conn`writeLog, conn`enqueued
    ensures conn.Released()
    ensures conn.enqueued == old(conn.enqueued) + if conn.closed then [] else [packet]
    ensures old(conn.wire) <= conn.wire
    ensures conn.kernelEvents.Some? == old(conn.kernelEvents.Some?)
    ensures !conn.closed ==> JustRefused(conn)
    ensures conn.isReadingPaused == if conn.closed then old(conn.isReadingPaused)
      else PausedAfter(old(conn.isReadingPaused), old(conn.pendingBytes) + |packet|, conn.outgoingQueue)
    ensures !conn.closed ==> (conn.currentEpollEvents.epollin <==> !conn.isReadingPaused && !conn.inBuf.Full())
  {
    hide Connection.Conserved;
    if conn.closed {
      return;
    }
    var wasEmpty := conn.outgoingQueue == [] && !conn.isWriteArmed;
    PushPacket(conn, packet);
    CheckHighWater(conn);
    FlushIfDue(conn, wasEmpty);
    Rearm(conn);
  }

  /** The flush threshold never decides anything: in every state a lock release leaves, the
      other two disjuncts already hold, so every send attempts a write. */
  lemma SendAlwaysFlushes(conn: Connection, pendingBytes: nat)
    requires conn.Released()
    ensures FlushDue(pendingBytes, conn.isWriteArmed, conn.outgoingQueue == [] && !conn.isWriteArmed)
  {
  }

  /** The part of handle_write under the lock; the caller closes when told to. */
  method HandleWrite(conn: Connection) returns (shouldClose: bool)
    requires conn.Released()
    modifies conn`outgoingQueue, conn`pendingBytes, conn`isReadingPaused, conn`isWriteArmed,
      conn`currentEpollEvents, conn`kernelEvents, conn`wire, conn`writeLog, conn`closing
    ensures conn.Released()
    ensures conn.closing == (old(conn.closing) || shouldClose)
    ensures old(conn.wire) <= conn.wire
    ensures JustRefused(conn)
    ensures conn.isReadingPaused == (old(conn.isReadingPaused) && conn.outgoingQueue != [])
    ensures shouldClose <==> conn.outgoingQueue != [] && conn.writeLog[|conn.writeLog| - 1] == WriteFailed
    ensures shouldClose ==> conn.isWriteArmed
    ensures !shouldClose ==> (conn.currentEpollEvents.epollin <==> !conn.isReadingPaused && !conn.inBuf.Full())
  {
    hide Connection.Conserved;
    shouldClose := AttemptWrite(conn);
    var finalEvents := NOTHING;
    if !conn.isReadingPaused && !conn.inBuf.Full() {
      finalEvents := finalEvents.(epollin := true);
    }
    if conn.outgoingQueue != [] {
      finalEvents := finalEvents.(epollout := true);
      conn.isWriteArmed := true;
    } else {
      conn.isWriteArmed := false;
    }
    if !shouldClose {
      UpdateEpollEvents(conn, finalEvents);
    } else {
      conn.closing := true;
    }
  }

  /** The body of flush_all_queues for a connection whose try-lock succeeded. */
  method FlushOne(conn: Connection)
    requires conn.Released()
    modifies conn`outgoingQueue, conn`pendingBytes, conn`isReadingPaused, conn`isWriteArmed,
      conn`currentEpollEvents, conn`kernelEvents, conn`wire, conn`writeLog
    ensures conn.Released()
    ensures old(conn.wire) <= conn.wire
    ensures !conn.closed ==> JustRefused(conn)
    ensures conn.isReadingPaused == (old(conn.isReadingPaused) && conn.outgoingQueue != [])
    // the arming branch is dead: a queue that still holds something was armed already
    ensures conn.isWriteArmed == old(conn.isWriteArmed) && conn.currentEpollEvents == old(conn.currentEpollEvents)
  {
    if conn.closed || conn.outgoingQueue == [] {
      return;
    }
    var _ := AttemptWrite(conn);
    ArmIfQueued(conn);
  }

  // --- Broadcast ------------------------------------------------------------------------

  datatype BroadcastEvent = BroadcastEvent(senderFd: int, payload: seq<byte>)

  predicate Own(e: BroadcastEvent, fd: int) {
    e.senderFd != -1 && fd == e.senderFd
  }

  function NotFrom(fd: int): BroadcastEvent -> bool {
    (e: BroadcastEvent) => !Own(e, fd)
  }

  /** The events of a batch whose sender had another descriptor. */
  function Wanted(events: seq<BroadcastEvent>, fd: int): seq<BroadcastEvent> {
    Filter(events, NotFrom(fd))
  }

  function Payloads(events: seq<BroadcastEvent>): seq<seq<byte>> {
    seq(|events|, i requires 0 <= i < |events| => events[i].payload)
  }

  /** What one broadcast batch adds to a connection whose queue holds `queued` packets: the
      wanted events, cut off only where the queue reaches its limit. */
  function Accepted(events: seq<BroadcastEvent>, fd: int, queued: nat): seq<seq<byte>> {
    var room := if queued < MAX_OUTGOING_QUEUE_SIZE then MAX_OUTGOING_QUEUE_SIZE - queued else 0;
    Payloads(Wanted(events, fd)[..Min(room, |Wanted(events, fd)|)])
  }

  /** A batch adds a prefix of the wanted payloads, all of them unless the queue reaches its
      limit, and never takes the queue past it. */
  lemma AcceptedIsBounded(events: seq<BroadcastEvent>, fd: int, queued: nat)
    ensures var wanted, taken := Payloads(Wanted(events, fd)), Accepted(events, fd, queued);
            && taken <= wanted
            && (taken == wanted || queued + |taken| >= MAX_OUTGOING_QUEUE_SIZE)
            && (taken == [] || queued + |taken| <= MAX_OUTGOING_QUEUE_SIZE)
  {
    var wanted := Wanted(events, fd);
    var k := |Accepted(events, fd, queued)|;
    assert Payloads(wanted[..k]) == Payloads(wanted)[..k];
    if k == |wanted| {
      assert wanted[..k] == wanted;
    }
  }

  /** The wanted events are those of the batch that do not name the connection's descriptor as
      their sender's. Under a descriptor that was reused these may be its previous owner's. */
  lemma {:induction false} WantedAreTheOthers(events: seq<BroadcastEvent>, fd: int, e: BroadcastEvent)
    ensures e in Wanted(events, fd) <==> e in events && (e.senderFd == -1 || e.senderFd != fd)
  {
    if events != [] {
      assert events == [events[0]] + events[1..];
      WantedAreTheOthers(events[1..], fd, e);
    }
  }

  function Packets(payloads: seq<seq<byte>>): seq<OutgoingPacket> {
    seq(|payloads|, i requires 0 <= i < |payloads| => Packet(payloads[i], 0))
  }

  lemma PacketsOwe(payloads: seq<seq<byte>>)
    ensures Unsent(Packets(payloads)) == Flatten(payloads)
  {
    assert Remainders(Packets(payloads)) == payloads;
  }

  lemma WantedSnoc(events: seq<BroadcastEvent>, fd: int, i: nat)
    requires i < |events|
    ensures Wanted(events[..i + 1], fd) == Wanted(events[..i], fd) + if Own(events[i], fd) then [] else [events[i]]
  {
    var one := [events[i]];
    assert Filter(one, NotFrom(fd)) == (if Own(events[i], fd) then [] else one) + Filter(one[1..], NotFrom(fd));
    assert events[..i + 1] == events[..i] + one;
    FilterAppend(events[..i], one, NotFrom(fd));
  }

  /** The loop over a batch may stop at the end or at the first wanted event that finds the
      queue at its limit; either way it has taken exactly what is accepted. */
  lemma EndOfBatch(events: seq<BroadcastEvent>, fd: int, queued: nat, i: nat)
    requires i <= |events|
    requires var taken := |Wanted(events[..i], fd)|;
             && (taken > 0 ==> queued + taken <= MAX_OUTGOING_QUEUE_SIZE)
             && (i < |events| ==> !Own(events[i], fd) && queued + taken >= MAX_OUTGOING_QUEUE_SIZE)
    ensures Payloads(Wanted(events[..i], fd)) == Accepted(events, fd, queued)
  {
    var taken := Wanted(events[..i], fd);
    assert events == events[..i] + events[i..];
    FilterAppend(events[..i], events[i..], NotFrom(fd));
    if i < |events| {
      assert Wanted(events[i..], fd) != [];
    } else {
      assert events[i..] == [];
    }
    assert taken == Wanted(events, fd)[..|taken|];
  }

  /** Queue and history after `taken` was appended to both. */
  ghost predicate Took(conn: Connection, queue: seq<OutgoingPacket>, enqueued: seq<seq<byte>>, taken: seq<BroadcastEvent>)
    reads conn
  {
    && conn.enqueued == enqueued + Payloads(taken)
    && conn.outgoingQueue == queue + Packets(Payloads(taken))
  }

  lemma TookNothing(conn: Connection)
    ensures Took(conn, conn.outgoingQueue, conn.enqueued, [])
  {
  }

  method TakeEvent(conn: Connection, evt: BroadcastEvent,
      ghost queue: seq<OutgoingPacket>, ghost enqueued: seq<seq<byte>>, ghost taken: seq<BroadcastEvent>)
    requires conn.Valid() && Took(conn, queue, enqueued, taken)
    modifies conn`outgoingQueue, conn`pendingBytes, conn`enqueued
    ensures conn.Valid() && Took(conn, queue, enqueued, taken + [evt])
  {
    PushPacket(conn, evt.payload);
    assert Payloads(taken + [evt]) == Payloads(taken) + [evt.payload];
    assert Packets(Payloads(taken) + [evt.payload]) == Packets(Payloads(taken)) + [Packet(evt.payload, 0)];
  }

  /** The loop over the batch inside a shard task, with the connection's lock held. */
  method EnqueueBatch(conn: Connection, events: seq<BroadcastEvent>) returns (addedAny: bool)
    requires conn.Valid()
    modifies conn`outgoingQueue, conn`pendingBytes, conn`enqueued
    ensures conn.Valid()
    ensures var more := Accepted(events, conn.fd, |old(conn.outgoingQueue)|);
            && conn.enqueued == old(conn.enqueued) + more
            && conn.outgoingQueue == old(conn.outgoingQueue) + Packets(more)
            && conn.pendingBytes == old(conn.pendingBytes) + |Flatten(more)|
            && addedAny == (more != [])
  {
    addedAny := false;
    var i := 0;
    ghost var queue, enqueued := conn.outgoingQueue, conn.enqueued;
    ghost var taken: seq<BroadcastEvent> := [];
    assert events[..0] == [];
    TookNothing(conn);
    while i < |events|
      invariant 0 <= i <= |events|
      invariant conn.Valid() && Took(conn, queue, enqueued, taken)
      invariant taken == Wanted(events[..i], conn.fd)
      invariant addedAny == (|taken| > 0)
      invariant |taken| > 0 ==> |queue| + |taken| <= MAX_OUTGOING_QUEUE_SIZE
    {
      var evt := events[i];
      WantedSnoc(events, conn.fd, i);
      if evt.senderFd != -1 && conn.fd == evt.senderFd {
        i := i + 1;
        continue;
      }
      if |conn.outgoingQueue| >= MAX_OUTGOING_QUEUE_SIZE {
        break;
      }
      TakeEvent(conn, evt, queue, enqueued, taken);
      addedAny := true;
      taken := taken + [evt];
      i := i + 1;
    }
    EndOfBatch(events, conn.fd, |queue|, i);
    UnsentAppend(queue, Packets(Payloads(taken)));
    PacketsOwe(Payloads(taken));
  }

  /** What a shard task does once it has added something. */
  method FlushBatch(conn: Connection)
    requires conn.Valid() && KernelFollows(conn) && conn.outgoingQueue != []
    modifies conn`outgoingQueue, conn`pendingBytes, conn`isReadingPaused, conn`isWriteArmed,
      conn`currentEpollEvents, conn`kernelEvents, conn`wire, conn`writeLog
    ensures conn.Valid() && KernelFollows(conn)
    ensures conn.kernelEvents.Some? == old(conn.kernelEvents.Some?)
    ensures old(conn.wire) <= conn.wire
    ensures conn.isReadingPaused == PausedAfter(old(conn.isReadingPaused), old(conn.pendingBytes), conn.outgoingQueue)
    ensures conn.pendingBytes <= old(conn.pendingBytes)
    ensures conn.outgoingQueue == [] ==> conn.pendingBytes == 0
    ensures JustRefused(conn)
    ensures conn.isWriteArmed == (old(conn.isWriteArmed) || conn.outgoingQueue != [])
    ensures conn.currentEpollEvents ==
      if conn.outgoingQueue != [] && !old(conn.isWriteArmed)
      then old(conn.currentEpollEvents).(epollout := true) else old(conn.currentEpollEvents)
  {
    hide Connection.Conserved;
    CheckHighWater(conn);
    var _ := AttemptWrite(conn);
    ArmIfQueued(conn);
  }

  /** One iteration of a shard task: the broadcast critical section of one connection. */
  method BroadcastTo(conn: Connection, events: seq<BroadcastEvent>)
    requires conn.Released()
    modifies conn`outgoingQueue, conn`pendingBytes, conn`isReadingPaused, conn`isWriteArmed,
      conn`currentEpollEvents, conn`kernelEvents, conn`wire, conn`writeLog, conn`enqueued
    ensures conn.Released()
    ensures old(conn.wire) <= conn.wire
    ensures conn.enqueued == old(conn.enqueued) +
      if conn.closed then [] else Accepted(events, conn.fd, |old(conn.outgoingQueue)|)
    ensures conn.enqueued != old(conn.enqueued) ==> JustRefused(conn)
    // the flag may be set here, and EPOLLIN stays as it was all the same
    ensures var more := if conn.closed then [] else Accepted(events, conn.fd, |old(conn.outgoingQueue)|);
            var owed := old(conn.pendingBytes) + |Flatten(more)|;
            && conn.isReadingPaused == PausedAfter(old(conn.isReadingPaused), owed, conn.outgoingQueue)
            && (conn.isReadingPaused && conn.currentEpollEvents.epollin <==>
                  && old(conn.currentEpollEvents.epollin)
                  && (old(conn.isReadingPaused) || owed >= HIGH_WATER_MARK)
                  && conn.outgoingQueue != [])
    ensures conn.currentEpollEvents.epollin == old(conn.currentEpollEvents.epollin)
  {
    hide Connection.Conserved;
    if conn.closed {
      return;
    }
    var addedAny := EnqueueBatch(conn, events);
    if addedAny {
      FlushBatch(conn);
    }
  }

  // --- Three things that do not hold ------------------------------------------------------

  lemma NothingTaken(conn: Connection)
    requires conn.Valid() && Taken(conn.writeLog) < |Flatten(conn.enqueued)|
    ensures conn.outgoingQueue != []
    ensures conn.pendingBytes == |Flatten(conn.enqueued)| - Taken(conn.writeLog)
  {
    NothingQueued();
    assert |conn.wire + Unsent(conn.outgoingQueue)| == Taken(conn.writeLog) + conn.pendingBytes;
  }

  lemma OneWanted(e: BroadcastEvent, fd: int)
    requires e.senderFd == -1
    ensures Accepted([e], fd, 0) == [e.payload]
  {
    assert [e][1..] == [];
    assert Wanted([e], fd) == [e] + Filter([e][1..], NotFrom(fd));
  }

  /** A paused connection need not have EPOLLIN off: a broadcast of 256 KB to a fresh
      connection whose first writev blocks leaves it paused and watched for reading. */
  method PausedYetWatched(fd: nat) returns (conn: Connection)
    ensures fresh(conn) && conn.Released()
    ensures conn.writeLog == [WriteBlocked] ==> conn.isReadingPaused && conn.currentEpollEvents == Mask(true, true)
  {
    conn := new Connection(fd, 0);
    var e := BroadcastEvent(-1, seq(HIGH_WATER_MARK, _ => 0));
    OneWanted(e, fd);
    BroadcastTo(conn, [e]);
    assert Flatten([e.payload]) == e.payload + Flatten([]);
    if conn.writeLog == [WriteBlocked] {
      NothingTaken(conn);
    }
  }

  lemma LogOfThree(log: seq<WriteResult>)
    requires log == [WriteBlocked, Wrote(160 * 1024), WriteBlocked]
    ensures Taken(log) == 160 * 1024
  {
    assert log[1..] == [Wrote(160 * 1024), WriteBlocked] && log[1..][1..] == [WriteBlocked];
    assert log[1..][1..][1..] == [];
    assert Taken([WriteBlocked]) == 0;
    assert Taken(log[1..]) == 160 * 1024;
  }

  /** A connection below the low-water mark need not be unpaused: 256 KB are queued and
      blocked, and the next handle_write sends 160 KB and blocks again. */
  method PausedBelowLow(fd: nat) returns (conn: Connection)
    ensures fresh(conn) && conn.Released()
    ensures conn.writeLog == [WriteBlocked, Wrote(160 * 1024), WriteBlocked] ==>
      conn.isReadingPaused && 0 < conn.pendingBytes < LOW_WATER_MARK
  {
    conn := new Connection(fd, 0);
    var packet := seq(HIGH_WATER_MARK, _ => 0);
    SendPreEncoded(conn, packet);
    assert conn.enqueued == [packet] && Flatten([packet]) == packet + Flatten([]);
    ghost var first := conn.writeLog;
    var _ := HandleWrite(conn);
    if conn.writeLog == [WriteBlocked, Wrote(160 * 1024), WriteBlocked] {
      LogOfThree(conn.writeLog);
      NothingTaken(conn);
    }
  }

  /** A drained connection need not be watched for reading: 256 KB are queued and blocked, which
      turns EPOLLIN off, and the timer's flush sends them all and leaves the mask alone. */
  method DrainedYetUnwatched(fd: nat) returns (conn: Connection, first: seq<WriteResult>)
    ensures fresh(conn) && conn.Released()
    ensures first == [WriteBlocked] && conn.writeLog == [WriteBlocked, Wrote(256 * 1024)] ==>
      && conn.outgoingQueue == [] && !conn.isReadingPaused && !conn.inBuf.Full()
      && conn.currentEpollEvents == Mask(false, true)
  {
    conn := new Connection(fd, 0);
    var packet := seq(HIGH_WATER_MARK, _ => 0);
    SendPreEncoded(conn, packet);
    assert conn.enqueued == [packet] && Flatten([packet]) == packet + Flatten([]);
    first := conn.writeLog;
    if first == [WriteBlocked] {
      NothingTaken(conn);
    }
    FlushOne(conn);
  }

  // --- When reading resumes -------------------------------------------------------------

  datatype Entry = ByHandleWrite | BySend(packet: seq<byte>) | ByFlush | ByBroadcast(events: seq<BroadcastEvent>)

  /** Only these compute the mask anew. */
  predicate Recomputes(e: Entry) {
    e.ByHandleWrite? || e.BySend?
  }

  /** On an open connection with EPOLLIN off, whichever entry point runs: reading resumes exactly
      if the entry point computes the mask anew and leaves the pause flag clear. In particular
      a drain makes it resume exactly in SendPreEncoded and handle_write. */
  method Enter(conn: Connection, e: Entry) returns (shouldClose: bool)
    requires conn.Released() && !conn.closed && !conn.closing && !conn.currentEpollEvents.epollin
    modifies conn`outgoingQueue, conn`pendingBytes, conn`isReadingPaused, conn`isWriteArmed,
      conn`currentEpollEvents, conn`kernelEvents, conn`wire, conn`writeLog, conn`enqueued, conn`closing
    ensures conn.Released() && conn.closing == shouldClose
    ensures !shouldClose ==> (conn.currentEpollEvents.epollin <==> Recomputes(e) && !conn.isReadingPaused)
    ensures conn.outgoingQueue == [] ==>
      !shouldClose && !conn.isReadingPaused && (conn.currentEpollEvents.epollin <==> Recomputes(e))
  {
    shouldClose := false;
    match e {
      case ByHandleWrite => shouldClose := HandleWrite(conn);
      case BySend(packet) => SendPreEncoded(conn, packet);
      case ByFlush => FlushOne(conn);
      case ByBroadcast(events) => BroadcastTo(conn, events);
    }
  }

  /** Until then a handle_write is due: whoever is not watched for reading is watched for writing. */
  lemma UnreadIsArmed(conn: Connection)
    requires conn.Released() && !conn.closed && !conn.closing && !conn.currentEpollEvents.epollin
    ensures conn.isWriteArmed && conn.currentEpollEvents == Mask(false, true)
    ensures conn.kernelEvents.Some? ==> conn.kernelEvents.value == Mask(false, true)
  {
  }
}
