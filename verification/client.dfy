/** receive_loop of v4/client.cpp. */
module Clients {
  import opened Bytes
  import opened Framing
  import opened RingBuffers
  import opened Codecs
  import opened Connections
  import opened Incoming

  const CLIENT_BUF_SIZE := 8192

  datatype Drained = Drained(framed: seq<seq<byte>>, rest: seq<byte>)

  /** The client's decode loop: it also stops after a frame that does not parse, which has
      been removed by then. */
  function Drain(s: seq<byte>, parses: seq<byte> -> bool): Drained
    decreases |s|
  {
    var d := DecodeStep(s);
    if d.payload.None? then Drained([], d.rest)
    else if !parses(d.payload.value) then Drained([d.payload.value], d.rest)
    else
      var more := Drain(d.rest, parses);
      Drained([d.payload.value] + more.framed, more.rest)
  }

  lemma FitsHeader(payload: seq<byte>)
    requires HEADER_SIZE + |payload| <= CLIENT_BUF_SIZE
    ensures |payload| <= MAX_PAYLOAD && |Encode(payload)| <= CLIENT_BUF_SIZE
  {
  }

  predicate Small(payloads: seq<seq<byte>>) {
    forall i | 0 <= i < |payloads| :: HEADER_SIZE + |payloads[i]| <= CLIENT_BUF_SIZE
  }

  /** `buffered` is the stream of `pending`, cut somewhere. */
  predicate Behind(pending: seq<seq<byte>>, buffered: seq<byte>) {
    buffered <= Stream(pending)
  }

  /** Fed from a stream of small frames, the loop takes frames of the stream in order, keeps
      what it does not take, and never leaves the ring full. If everything parses it leaves
      no complete frame behind. */
  lemma {:induction false} DrainFollows(pending: seq<seq<byte>>, s: seq<byte>, parses: seq<byte> -> bool)
    requires Small(pending) && Behind(pending, s) && |s| <= CLIENT_BUF_SIZE
    ensures var d := Drain(s, parses);
            && d.framed <= pending
            && s == Stream(d.framed) + d.rest
            && Behind(pending[|d.framed|..], d.rest)
            && |d.rest| < CLIENT_BUF_SIZE
            && (Filter(d.framed, parses) == d.framed ==> !Complete(d.rest))
    decreases |pending|
  {
    if pending == [] {
      assert s == [];
      assert pending[0..] == [];
    } else {
      var head, more := Encode(pending[0]), Stream(pending[1..]);
      FitsHeader(pending[0]);
      StripHead(head, more, s);
      if |head| <= |s| {
        var rest := s[|head|..];
        EncodeDecode(pending[0], rest);
        if parses(pending[0]) {
          DrainFollows(pending[1..], rest, parses);
          DrainHead(pending[0], rest, parses);
          DrainMore(pending, rest, Drain(rest, parses), parses);
        } else {
          DrainOne(pending, rest, parses);
        }
      } else {
        CutFrame(pending[0], s);
        assert pending[0..] == pending;
      }
    }
  }

  lemma DrainOne(pending: seq<seq<byte>>, rest: seq<byte>, parses: seq<byte> -> bool)
    requires Small(pending) && pending != [] && Behind(pending[1..], rest)
    requires |Encode(pending[0]) + rest| <= CLIENT_BUF_SIZE
    requires !parses(pending[0])
    ensures var s := Encode(pending[0]) + rest;
            var d := Drain(s, parses);
            && d == Drained([pending[0]], rest)
            && d.framed <= pending && s == Stream(d.framed) + d.rest
            && Filter(d.framed, parses) != d.framed
  {
    EncodeDecode(pending[0], rest);
    assert Stream([pending[0]]) == Encode(pending[0]) + Stream([]);
  }

  lemma DrainHead(payload: seq<byte>, rest: seq<byte>, parses: seq<byte> -> bool)
    requires |payload| <= MAX_PAYLOAD && parses(payload)
    ensures var more := Drain(rest, parses);
            Drain(Encode(payload) + rest, parses) == Drained([payload] + more.framed, more.rest)
  {
    EncodeDecode(payload, rest);
  }

  lemma DrainMore(pending: seq<seq<byte>>, rest: seq<byte>, more: Drained, parses: seq<byte> -> bool)
    requires pending != [] && parses(pending[0])
    requires more.framed <= pending[1..]
    requires rest == Stream(more.framed) + more.rest
    ensures var framed := [pending[0]] + more.framed;
            && framed <= pending
            && Encode(pending[0]) + rest == Stream(framed) + more.rest
            && pending[|framed|..] == pending[1..][|more.framed|..]
            && (Filter(framed, parses) == framed ==> Filter(more.framed, parses) == more.framed)
  {
    Prepend(pending, more.framed);
    StreamPeels(pending[0], more.framed);
    FilterAppend([pending[0]], more.framed, parses);
    FilterOne(pending[0], parses);
    Assoc(Encode(pending[0]), Stream(more.framed), more.rest);
  }

  lemma Prepend<T>(whole: seq<T>, more: seq<T>)
    requires whole != [] && more <= whole[1..]
    ensures [whole[0]] + more <= whole
    ensures whole[|more| + 1..] == whole[1..][|more|..]
  {
  }

  lemma FilterOne(x: seq<byte>, parses: seq<byte> -> bool)
    ensures Filter([x], parses) == if parses(x) then [x] else []
  {
    assert [x][1..] == [];
  }

  lemma HandledSnoc(before: seq<seq<byte>>, xs: seq<seq<byte>>, x: seq<byte>, parses: seq<byte> -> bool)
    ensures before + Filter(xs + [x], parses) ==
      if parses(x) then before + Filter(xs, parses) + [x] else before + Filter(xs, parses)
  {
    FilterAppend(xs, [x], parses);
    FilterOne(x, parses);
    assert before + (Filter(xs, parses) + [x]) == before + Filter(xs, parses) + [x];
  }

  /** Frames up to and including the first that does not parse. */
  function UpToBad(frames: seq<seq<byte>>, parses: seq<byte> -> bool): seq<seq<byte>> {
    if frames == [] then []
    else [frames[0]] + if parses(frames[0]) then UpToBad(frames[1..], parses) else []
  }

  lemma {:induction false} DrainIsUpToBad(s: seq<byte>, parses: seq<byte> -> bool)
    ensures Drain(s, parses).framed == UpToBad(DecodeAll(s).frames, parses)
    decreases |s|
  {
    var d := DecodeStep(s);
    if d.payload.Some? {
      var more := DecodeAll(d.rest).frames;
      DrainIsUpToBad(d.rest, parses);
      assert DecodeAll(s).frames == [d.payload.value] + more && ([d.payload.value] + more)[1..] == more;
    }
  }

  lemma {:induction false} UpToBadIsAll(frames: seq<seq<byte>>, parses: seq<byte> -> bool)
    ensures UpToBad(frames, parses) == frames <==> forall i | 0 <= i < |frames| - 1 :: parses(frames[i])
  {
    if |frames| > 1 {
      var rest := frames[1..];
      UpToBadIsAll(rest, parses);
      assert frames == [frames[0]] + rest;
      if parses(frames[0]) {
        assert ([frames[0]] + UpToBad(rest, parses))[1..] == UpToBad(rest, parses);
        assert forall i | 0 <= i < |frames| - 2 :: rest[i] == frames[i + 1];
        assert forall i | 0 < i < |frames| - 1 :: frames[i] == rest[i - 1];
      }
    }
  }

  /** The loop takes every complete frame in the ring if and only if all of them but the last
      parse. Otherwise frames stay there until more bytes come. */
  lemma DrainTakesAll(s: seq<byte>, parses: seq<byte> -> bool)
    ensures Drain(s, parses).framed == DecodeAll(s).frames
      <==> forall i | 0 <= i < |DecodeAll(s).frames| - 1 :: parses(DecodeAll(s).frames[i])
  {
    DrainIsUpToBad(s, parses);
    UpToBadIsAll(DecodeAll(s).frames, parses);
  }

  /** Two frames arrive together and the first does not parse: the second is left behind. */
  lemma SecondIsLeft(x: seq<byte>, y: seq<byte>, parses: seq<byte> -> bool)
    requires |x| <= MAX_PAYLOAD && |y| <= MAX_PAYLOAD && !parses(x)
    ensures Drain(Encode(x) + Encode(y), parses) == Drained([x], Encode(y)) && Complete(Encode(y))
  {
    EncodeDecode(x, Encode(y));
    EncodeIsComplete(y, []);
    assert Encode(y) + [] == Encode(y);
  }

  class Client {
    const inBuf: RingBuffer
    /** Whether a payload parses as a ServerMessage; the parser itself is not modelled. */
    const parses: seq<byte> -> bool
    /** Whether receive_loop goes on; running_, which other threads read, is not modelled. */
    var receiving: bool
    /** Payloads handed to handle_server_message, in order. */
    var handled: seq<seq<byte>>
    /** Every byte readv delivered. */
    var received: seq<byte>
    /** The outcome of every readv so far. */
    var readLog: seq<ReadResult>
    /** Every payload taken out of the ring. */
    ghost var framed: seq<seq<byte>>

    ghost predicate Valid()
      reads this, inBuf
    {
      && inBuf.Valid()
      && inBuf.buf.Length == CLIENT_BUF_SIZE
      && handled == Filter(framed, parses)
    }

    constructor (parses: seq<byte> -> bool)
      ensures Valid() && fresh(inBuf) && fresh(inBuf.buf)
      ensures this.parses == parses && receiving
      ensures framed == [] && handled == [] && received == [] && inBuf.Contents() == []
    {
      this.parses := parses;
      inBuf := new RingBuffer(CLIENT_BUF_SIZE);
      receiving := true;
      framed, handled, received, readLog := [], [], [], [];
    }

    /** The decode loop. */
    method DecodeMessages()
      requires Valid()
      modifies `handled, `framed, inBuf`readPos, inBuf`count
      ensures Valid()
      ensures var d := Drain(old(inBuf.Contents()), parses);
              framed == old(framed) + d.framed && inBuf.Contents() == d.rest
    {
      ghost var taken: seq<seq<byte>> := [];
      ghost var before := handled;
      while true
        invariant inBuf.Valid() && framed == old(framed)
        invariant handled == before + Filter(taken, parses)
        invariant AfterTaking(taken, Drain(inBuf.Contents(), parses)) == Drain(old(inBuf.Contents()), parses)
        decreases |inBuf.Contents()|
      {
        TakingStep(taken, inBuf.Contents(), parses);
        var msg := Decode(inBuf);
        if msg.None? {
          break;
        }
        HandledSnoc(before, taken, msg.value, parses);
        taken := taken + [msg.value];
        if !parses(msg.value) {
          break;
        }
        handled := handled + [msg.value];
      }
      FilterAppend(framed, taken, parses);
      framed := framed + taken;
    }

    /** One turn of receive_loop that finds the socket readable: what it read, or nothing when
        the ring was full and its contents were discarded. `rx` is what is on its way. */
    method ReceiveOnce(rx: seq<byte>) returns (r: Option<ReadResult>)
      requires Valid()
      modifies `handled, `framed, `received, `receiving, `readLog,
        inBuf`readPos, inBuf`writePos, inBuf`count, inBuf.buf
      ensures Valid()
      ensures r.None? <==> old(inBuf.Full())
      ensures readLog == old(readLog) + if r.None? then [] else [r.value]
      ensures receiving == (old(receiving) && (r.None? || r.value.Data?))
      ensures r == None ==> inBuf.Contents() == [] && framed == old(framed) && received == old(received)
      ensures r.Some? && r.value.Data? ==>
        && r.value.bytes != [] && r.value.bytes <= rx && received == old(received) + r.value.bytes
        && |old(inBuf.Contents())| + |r.value.bytes| <= CLIENT_BUF_SIZE
        && var d := Drain(old(inBuf.Contents()) + r.value.bytes, parses);
           framed == old(framed) + d.framed && inBuf.Contents() == d.rest
      ensures r.Some? && !r.value.Data? ==>
        framed == old(framed) && received == old(received) && inBuf.Contents() == old(inBuf.Contents())
    {
      var iovecs := inBuf.GetWriteableIovecs();
      if iovecs == [] {
        inBuf.Consume(inBuf.count);
        return None;
      }
      var got := Readv(Total(iovecs), rx);
      readLog := readLog + [got];
      if !got.Data? {
        receiving := false;
        return Some(got);
      }
      inBuf.Receive(got.bytes);
      received := received + got.bytes;
      DecodeMessages();
      return Some(got);
    }
  }

  function AfterTaking(taken: seq<seq<byte>>, more: Drained): Drained {
    Drained(taken + more.framed, more.rest)
  }

  lemma TakingStep(taken: seq<seq<byte>>, s: seq<byte>, parses: seq<byte> -> bool)
    ensures var d := DecodeStep(s);
            AfterTaking(taken, Drain(s, parses)) ==
              if d.payload.None? then Drained(taken, d.rest)
              else if parses(d.payload.value) then AfterTaking(taken + [d.payload.value], Drain(d.rest, parses))
              else Drained(taken + [d.payload.value], d.rest)
  {
    var d := DecodeStep(s);
    if d.payload.Some? {
      var more := Drain(d.rest, parses).framed;
      assert taken + ([d.payload.value] + more) == taken + [d.payload.value] + more;
    }
  }
}
