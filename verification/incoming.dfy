/** The incoming half of v4/webserver.cpp: handle_read. */
module Incoming {
  import opened Bytes
  import opened Framing
  import opened RingBuffers
  import opened Codecs
  import opened Connections

  /** The kernel: `rx` is what the peer's bytes still are. Any non-empty piece from its front
      that fits may come, or nothing; end of file only comes after the last byte. */
  method Readv(room: nat, rx: seq<byte>) returns (r: ReadResult)
    requires room > 0
    ensures r.Data? ==> r.bytes != [] && |r.bytes| <= room && r.bytes <= rx
    ensures r.Eof? ==> rx == []
  {
    if * {
      r := ReadBlocked;
    } else if * {
      r := ReadFailed;
    } else if rx == [] {
      r := Eof;
    } else {
      var n: nat :| 1 <= n <= |rx| && n <= room;
      r := Data(rx[..n]);
    }
  }

  lemma {:induction false} FramesFit(s: seq<byte>)
    ensures forall i | 0 <= i < |DecodeAll(s).frames| :: HEADER_SIZE + |DecodeAll(s).frames[i]| <= |s|
    ensures |DecodeAll(s).tail| <= |s|
    decreases |s|
  {
    var d := DecodeStep(s);
    if d.payload.Some? {
      FramesFit(d.rest);
    }
  }

  /** A frame of more than 8192 bytes is in the stream, and 8192 bytes of it are there. */
  predicate BigFrame(s: seq<byte>) {
    || (exists i :: 0 <= i < |Walk(s).frames| && HEADER_SIZE + |Walk(s).frames[i]| > IN_BUF_SIZE)
    || |Walk(s).tail| >= IN_BUF_SIZE
  }

  /** Framing, whenever the lock is free: as long as no header claimed more than 10 MB, the
      messages pushed are the complete frames of all bytes read, and the ring holds the rest. */
  ghost predicate Framed(conn: Connection)
    reads conn`received, conn`messages, conn.inBuf, conn.inBuf.buf
  {
    && conn.inBuf.Valid() && conn.inBuf.buf.Length == IN_BUF_SIZE
    && (Sane(conn.received) ==> Parsed(conn.messages, conn.inBuf.Contents()) == Walk(conn.received))
    && (forall i | 0 <= i < |conn.messages| :: HEADER_SIZE + |conn.messages[i]| <= IN_BUF_SIZE)
  }

  datatype ReadOutcome = Waiting | BufferFull | PeerClosed | Broken

  /** One turn of the loop of handle_read after readv delivered `bytes`. */
  method TakeIn(conn: Connection, bytes: seq<byte>, now: int)
    requires Framed(conn) && conn.inBuf.count + |bytes| <= IN_BUF_SIZE
    modifies conn`lastActivity, conn`received, conn`messages,
      conn.inBuf`readPos, conn.inBuf`writePos, conn.inBuf`count, conn.inBuf.buf
    ensures Framed(conn)
    ensures conn.received == old(conn.received) + bytes && conn.lastActivity == now
    ensures Parsed(conn.messages, conn.inBuf.Contents())
      == After(old(conn.messages), DecodeAll(old(conn.inBuf.Contents()) + bytes))
  {
    if Sane(conn.received + bytes) {
      TakeInKeepsFraming(conn.received, conn.messages, conn.inBuf.Contents(), bytes);
    }
    FramesFit(conn.inBuf.Contents() + bytes);
    conn.inBuf.Receive(bytes);
    conn.lastActivity := now;
    conn.received := conn.received + bytes;
    var frames := DecodeLoop(conn.inBuf);
    conn.messages := conn.messages + frames;
  }

  lemma TakeInKeepsFraming(received: seq<byte>, messages: seq<seq<byte>>, buffered: seq<byte>, bytes: seq<byte>)
    requires Sane(received + bytes)
    requires Sane(received) ==> Parsed(messages, buffered) == Walk(received)
    ensures var p := DecodeAll(buffered + bytes);
            Parsed(messages + p.frames, p.tail) == Walk(received + bytes)
  {
    SanePrefix(received, bytes);
    SaneTail(received, bytes);
    WalkResumes(received, bytes);
    DecodeAllIsWalk(buffered + bytes);
  }

  lemma FeedSnoc(before: seq<seq<byte>>, buffered: seq<byte>, chunks: seq<seq<byte>>, bytes: seq<byte>)
    ensures var now := After(before, Feed(buffered, chunks));
            After(before, Feed(buffered, chunks + [bytes])) == After(now.frames, DecodeAll(now.tail + bytes))
  {
    FeedAppend(buffered, chunks, [bytes]);
    assert [bytes][1..] == [];
    var first, last := Feed(buffered, chunks), DecodeAll(Feed(buffered, chunks).tail + bytes);
    assert before + (first.frames + last.frames) == before + first.frames + last.frames;
  }

  lemma FeedNothing(before: seq<seq<byte>>, buffered: seq<byte>)
    ensures After(before, Feed(buffered, [])) == Parsed(before, buffered)
  {
  }

  lemma FullMeansBigFrame(conn: Connection)
    requires Framed(conn)
    ensures Sane(conn.received) ==> (conn.inBuf.Full() <==> BigFrame(conn.received))
  {
  }

  /** The readv calls that delivered `chunks`. */
  function Pieces(chunks: seq<seq<byte>>): seq<ReadResult> {
    seq(|chunks|, i requires 0 <= i < |chunks| => Data(chunks[i]))
  }

  /** The readv call, if any, that ends the loop. */
  function Signal(outcome: ReadOutcome): seq<ReadResult> {
    match outcome
    case Waiting => [ReadBlocked]
    case BufferFull => []
    case PeerClosed => [Eof]
    case Broken => [ReadFailed]
  }

  lemma PiecesSnoc(log: seq<ReadResult>, chunks: seq<seq<byte>>, bytes: seq<byte>)
    ensures log + Pieces(chunks + [bytes]) == log + Pieces(chunks) + [Data(bytes)]
  {
    assert Pieces(chunks + [bytes]) == Pieces(chunks) + [Data(bytes)];
    Assoc(log, Pieces(chunks), [Data(bytes)]);
  }

  /** One turn of the loop: a reason to leave it, or some bytes taken in. */
  method ReadTurn(conn: Connection, rx: seq<byte>, now: int)
    returns (leave: Option<ReadOutcome>, bytes: seq<byte>)
    requires Framed(conn)
    modifies conn`lastActivity, conn`received, conn`messages, conn`readLog,
      conn.inBuf`readPos, conn.inBuf`writePos, conn.inBuf`count, conn.inBuf.buf
    ensures Framed(conn)
    ensures bytes <= rx && conn.received == old(conn.received) + bytes
    ensures leave.None? ==>
      && bytes != [] && conn.lastActivity == now
      && conn.readLog == old(conn.readLog) + [Data(bytes)]
      && Parsed(conn.messages, conn.inBuf.Contents())
        == After(old(conn.messages), DecodeAll(old(conn.inBuf.Contents()) + bytes))
    ensures leave.Some? ==>
      && bytes == [] && conn.messages == old(conn.messages) && conn.inBuf.Contents() == old(conn.inBuf.Contents())
      && conn.lastActivity == old(conn.lastActivity)
      && conn.readLog == old(conn.readLog) + Signal(leave.value)
      && (leave.value == BufferFull <==> conn.inBuf.Full())
      && (leave.value == PeerClosed ==> rx == [])
  {
    bytes := [];
    var iovecs := conn.inBuf.GetWriteableIovecs();
    if iovecs == [] {
      return Some(BufferFull), [];
    }
    var r := Readv(Total(iovecs), rx);
    conn.readLog := conn.readLog + [r];
    match r {
      case Data(piece) =>
        TakeIn(conn, piece, now);
        return None, piece;
      case Eof =>
        return Some(PeerClosed), [];
      case ReadBlocked =>
        return Some(Waiting), [];
      case ReadFailed =>
        return Some(Broken), [];
    }
  }

  lemma TakeMore(before: seq<byte>, rx: seq<byte>, k: nat, bytes: seq<byte>)
    requires k <= |rx| && bytes <= rx[k..]
    ensures k + |bytes| <= |rx|
    ensures before + rx[..k] + bytes == before + rx[..k + |bytes|]
    ensures rx[..k] + bytes == rx[..k + |bytes|]
    ensures rx[k..][|bytes|..] == rx[k + |bytes|..]
  {
    assert rx[..k] + bytes == rx[..k + |bytes|];
    assert before + rx[..k] + bytes == before + (rx[..k] + bytes);
  }

  /** The loop of handle_read. `rx` is what the peer has sent and nobody has read yet; its
      first `taken` bytes are read, cut into `chunks`. */
  method ReadLoop(conn: Connection, rx: seq<byte>, now: int)
    returns (outcome: ReadOutcome, taken: nat, ghost chunks: seq<seq<byte>>)
    requires Framed(conn)
    modifies conn`lastActivity, conn`received, conn`messages, conn`readLog,
      conn.inBuf`readPos, conn.inBuf`writePos, conn.inBuf`count, conn.inBuf.buf
    ensures Framed(conn)
    ensures taken <= |rx| && Flatten(chunks) == rx[..taken] && conn.received == old(conn.received) + rx[..taken]
    ensures Parsed(conn.messages, conn.inBuf.Contents())
      == After(old(conn.messages), Feed(old(conn.inBuf.Contents()), chunks))
    ensures conn.readLog == old(conn.readLog) + Pieces(chunks) + Signal(outcome)
    ensures conn.lastActivity == if taken == 0 then old(conn.lastActivity) else now
    ensures outcome == BufferFull <==> conn.inBuf.Full()
    ensures outcome == PeerClosed ==> taken == |rx|
  {
    taken := 0;
    chunks := [];
    var rest := rx;
    ghost var buffered, received := conn.inBuf.Contents(), conn.received;
    assert received + rx[..0] == received && rx[0..] == rx;
    FeedNothing(conn.messages, buffered);
    assert conn.readLog + Pieces(chunks) == conn.readLog;
    while true
      invariant Framed(conn)
      invariant taken <= |rx| && rest == rx[taken..]
      invariant Flatten(chunks) == rx[..taken]
      invariant conn.received == received + rx[..taken]
      invariant Parsed(conn.messages, conn.inBuf.Contents()) == After(old(conn.messages), Feed(buffered, chunks))
      invariant conn.readLog == old(conn.readLog) + Pieces(chunks)
      invariant conn.lastActivity == if taken == 0 then old(conn.lastActivity) else now
      decreases |rest|
    {
      var leave, bytes := ReadTurn(conn, rest, now);
      if leave.Some? {
        outcome := leave.value;
        break;
      }
      TakeMore(received, rx, taken, bytes);
      FeedSnoc(old(conn.messages), buffered, chunks, bytes);
      FlattenSnoc(chunks, bytes);
      PiecesSnoc(old(conn.readLog), chunks, bytes);
      rest := rest[|bytes|..];
      taken := taken + |bytes|;
      chunks := chunks + [bytes];
    }
  }

  /** handle_read, lock held; the caller closes unless the outcome is to wait. */
  method HandleRead(conn: Connection, rx: seq<byte>, now: int)
    returns (outcome: ReadOutcome, taken: nat, ghost chunks: seq<seq<byte>>)
    requires conn.Released() && Framed(conn)
    modifies conn`lastActivity, conn`received, conn`messages, conn`readLog, conn`closing,
      conn.inBuf`readPos, conn.inBuf`writePos, conn.inBuf`count, conn.inBuf.buf
    ensures conn.Released() && Framed(conn)
    ensures conn.closing == (old(conn.closing) || !outcome.Waiting?)
    // what was read, and how it was cut
    ensures taken <= |rx| && Flatten(chunks) == rx[..taken] && conn.received == old(conn.received) + rx[..taken]
    ensures Parsed(conn.messages, conn.inBuf.Contents())
      == After(old(conn.messages), Feed(old(conn.inBuf.Contents()), chunks))
    ensures conn.readLog == old(conn.readLog) + Pieces(chunks) + Signal(outcome)
    ensures conn.lastActivity == if taken == 0 then old(conn.lastActivity) else now
    // the buffer-full close
    ensures outcome == BufferFull <==> conn.inBuf.Full()
    ensures Sane(conn.received) ==> (outcome == BufferFull <==> BigFrame(conn.received))
    ensures outcome == PeerClosed ==> taken == |rx|
  {
    hide Connection.Conserved;
    hide BigFrame;
    hide Framed;
    outcome, taken, chunks := ReadLoop(conn, rx, now);
    FullMeansBigFrame(conn);
    if !outcome.Waiting? {
      conn.closing := true;
    }
  }
}
