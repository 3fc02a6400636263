/** The per-connection state of v4/connection.h. */
module Connections {
  import opened Bytes
  import opened RingBuffers

  const IN_BUF_SIZE := 8192
  const HIGH_WATER_MARK := 256 * 1024
  const LOW_WATER_MARK := 128 * 1024

  /** The two bits of an epoll event mask this server ever sets. */
  datatype EpollMask = Mask(epollin: bool, epollout: bool)

  const NOTHING := Mask(false, false)

  datatype OutgoingPacket = Packet(payload: seq<byte>, sentOffset: nat)

  /** The bytes a packet still owes the socket. */
  function Remainder(pkt: OutgoingPacket): seq<byte> {
    if pkt.sentOffset <= |pkt.payload| then pkt.payload[pkt.sentOffset..] else []
  }

  /** No packet is ever sent past its end. */
  predicate OffsetsFit(queue: seq<OutgoingPacket>) {
    forall i | 0 <= i < |queue| :: queue[i].sentOffset <= |queue[i].payload|
  }

  function Remainders(queue: seq<OutgoingPacket>): seq<seq<byte>> {
    seq(|queue|, i requires 0 <= i < |queue| => Remainder(queue[i]))
  }

  /** The unsent remainders of a queue, in order. */
  function Unsent(queue: seq<OutgoingPacket>): seq<byte> {
    Flatten(Remainders(queue))
  }

  lemma NothingQueued()
    ensures Unsent([]) == []
  {
  }

  lemma UnsentHead(queue: seq<OutgoingPacket>)
    requires queue != []
    ensures Unsent(queue) == Remainder(queue[0]) + Unsent(queue[1..])
  {
    assert Remainders(queue)[1..] == Remainders(queue[1..]);
  }

  lemma UnsentAppend(xs: seq<OutgoingPacket>, ys: seq<OutgoingPacket>)
    ensures Unsent(xs + ys) == Unsent(xs) + Unsent(ys)
  {
    assert Remainders(xs + ys) == Remainders(xs) + Remainders(ys);
    FlattenAppend(Remainders(xs), Remainders(ys));
  }

  lemma UnsentSnoc(queue: seq<OutgoingPacket>, pkt: OutgoingPacket)
    ensures Unsent(queue + [pkt]) == Unsent(queue) + Remainder(pkt)
  {
    assert Remainders(queue + [pkt]) == Remainders(queue) + [Remainder(pkt)];
    FlattenSnoc(Remainders(queue), Remainder(pkt));
  }

  /** Outcomes of writev and readv on a non-empty request. */
  datatype WriteResult = Wrote(n: nat) | WriteBlocked | WriteFailed

  /** The bytes a sequence of writev calls took. */
  function Taken(log: seq<WriteResult>): nat {
    if log == [] then 0 else (if log[0].Wrote? then log[0].n else 0) + Taken(log[1..])
  }

  lemma {:induction false} TakenSnoc(log: seq<WriteResult>, r: WriteResult)
    ensures Taken(log + [r]) == Taken(log) + if r.Wrote? then r.n else 0
  {
    if log == [] {
      assert log + [r] == [r] && [r][1..] == [];
    } else {
      assert (log + [r])[0] == log[0] && (log + [r])[1..] == log[1..] + [r];
      TakenSnoc(log[1..], r);
    }
  }

  datatype ReadResult = Data(bytes: seq<byte>) | Eof | ReadBlocked | ReadFailed

  class Connection {
    const fd: nat
    const inBuf: RingBuffer
    var outgoingQueue: seq<OutgoingPacket>
    var pendingBytes: nat
    var closed: bool
    var currentEpollEvents: EpollMask
    var isWriteArmed: bool
    var isReadingPaused: bool
    var lastActivity: int

    /** What the kernel watches on this fd; nothing once it is deregistered. */
    var kernelEvents: Option<EpollMask>

    /** Set while an entry point has decided to close but close_conn has not run yet. */
    ghost var closing: bool
    /** Everything writev accepted and everything readv delivered, as the kernel saw it. */
    var wire: seq<byte>
    var received: seq<byte>
    /** The outcome of every writev and readv so far. */
    var writeLog: seq<WriteResult>
    var readLog: seq<ReadResult>
    /** Everything ever enqueued for sending. */
    ghost var enqueued: seq<seq<byte>>
    /** Payloads of the MESSAGE events pushed for this connection. */
    ghost var messages: seq<seq<byte>>

    /** Conservation: no byte is lost, duplicated or reordered on its way to the socket, the
        counter is the exact number of bytes still owed, and the socket has what the writev
        calls reported. */
    ghost predicate Conserved()
      reads `outgoingQueue, `pendingBytes, `wire, `enqueued, `writeLog
    {
      && OffsetsFit(outgoingQueue)
      && pendingBytes == |Unsent(outgoingQueue)|
      && wire + Unsent(outgoingQueue) == Flatten(enqueued)
      && |wire| == Taken(writeLog)
    }

    ghost predicate Valid()
      reads this, inBuf
    {
      && inBuf.Valid()
      && inBuf.buf.Length == IN_BUF_SIZE
      && Conserved()
    }

    /** The latest writev was refused. */
    ghost predicate Refused()
      reads this
    {
      writeLog != [] && !writeLog[|writeLog| - 1].Wrote?
    }

    /** Something is queued only because the socket refused it, and then writing is armed;
        armed means watched; paused means queued, and whoever owes 256 KB is paused; the kernel
        watches what the cached mask says. */
    ghost predicate Watched()
      reads this
    {
      && (outgoingQueue != [] ==> Refused() && isWriteArmed)
      && isWriteArmed == currentEpollEvents.epollout
      && (isReadingPaused ==> outgoingQueue != [])
      && (pendingBytes >= HIGH_WATER_MARK ==> isReadingPaused)
      && (kernelEvents.Some? ==> kernelEvents.value == currentEpollEvents)
    }

    /** What holds whenever nobody owns the connection's lock. An open connection that is
        not about to be closed is watched for something and has room to read into. */
    ghost predicate Released()
      reads this, inBuf
    {
      && Valid()
      && Watched()
      && (closed || closing || currentEpollEvents != NOTHING)
      && (closed || closing || !inBuf.Full())
    }

    /** The constructor, and what accept_loop does with the fresh object. */
    constructor (fd: nat, now: int)
      ensures this.fd == fd && lastActivity == now && !closed && !closing
      ensures Released() && fresh(inBuf) && fresh(inBuf.buf)
      ensures outgoingQueue == [] && enqueued == [] && wire == [] && received == [] && messages == []
      ensures inBuf.Contents() == [] && writeLog == [] && readLog == []
      ensures kernelEvents == Some(Mask(true, false))
    {
      this.fd := fd;
      inBuf := new RingBuffer(IN_BUF_SIZE);
      outgoingQueue, pendingBytes := [], 0;
      closed, closing, isWriteArmed, isReadingPaused := false, false, false, false;
      currentEpollEvents, kernelEvents := Mask(true, false), Some(Mask(true, false));
      lastActivity := now;
      wire, enqueued, received, messages, writeLog, readLog := [], [], [], [], [], [];
    }

    /** The connection's own part of close_conn: only the first caller does anything. */
    method MarkClosed() returns (first: bool)
      requires Released()
      modifies `closed, `kernelEvents
      ensures Released() && closed
      ensures first == !old(closed)
      ensures first ==> kernelEvents == None
    {
      first := !closed;
      closed := true;
      if first {
        kernelEvents := None;
      }
    }
  }
}
