/** The codecs of v4/codec.h and v3/codec.h at work on a ring buffer. */
module Codecs {
  import opened Bytes
  import opened Framing
  import opened RingBuffers

  /** PacketCodec::decode and LengthPrefixedCodec::decode (the same code): one attempt to
      take a frame out of the ring. */
  method Decode(buf: RingBuffer) returns (msg: Option<seq<byte>>)
    requires buf.Valid()
    modifies buf`readPos, buf`count
    ensures buf.Valid()
    ensures Decoded(msg, buf.Contents()) == DecodeStep(old(buf.Contents()))
    ensures |buf.Contents()| <= |old(buf.Contents())|
    ensures msg.Some? ==> |buf.Contents()| < |old(buf.Contents())|
  {
    ghost var s := buf.Contents();
    if buf.count < HEADER_SIZE {
      return None;
    }
    var header := buf.Peek(HEADER_SIZE);
    var len := FromBe32(header);
    assert header[..HEADER_SIZE] == s[..HEADER_SIZE];
    if len > MAX_PAYLOAD {
      buf.Consume(buf.count);
      return None;
    }
    if buf.count < HEADER_SIZE + len {
      return None;
    }
    buf.Consume(HEADER_SIZE);
    var payload := buf.Peek(len);
    buf.Consume(len);
    assert s[HEADER_SIZE..][..len] == s[HEADER_SIZE..HEADER_SIZE + len];
    assert s[HEADER_SIZE..][len..] == s[HEADER_SIZE + len..];
    return Some(payload);
  }

  /** A reading that starts with frames already taken. */
  ghost function After(frames: seq<seq<byte>>, more: Parsed): Parsed {
    Parsed(frames + more.frames, more.tail)
  }

  lemma AfterOne(frames: seq<seq<byte>>, s: seq<byte>)
    requires DecodeStep(s).payload.Some?
    ensures After(frames, DecodeAll(s)) == After(frames + [DecodeStep(s).payload.value], DecodeAll(DecodeStep(s).rest))
  {
    var f, more := DecodeStep(s).payload.value, DecodeAll(DecodeStep(s).rest).frames;
    assert frames + ([f] + more) == frames + [f] + more;
  }

  /** The inner loop of both handle_read methods: decode until nothing comes out. */
  method DecodeLoop(buf: RingBuffer) returns (frames: seq<seq<byte>>)
    requires buf.Valid()
    modifies buf`readPos, buf`count
    ensures buf.Valid()
    ensures Parsed(frames, buf.Contents()) == DecodeAll(old(buf.Contents()))
  {
    frames := [];
    while true
      invariant buf.Valid()
      invariant DecodeAll(old(buf.Contents())) == After(frames, DecodeAll(buf.Contents()))
      decreases |buf.Contents()|
    {
      ghost var s := buf.Contents();
      var msg := Decode(buf);
      if msg.None? {
        assert DecodeAll(s) == Parsed([], buf.Contents());
        break;
      }
      AfterOne(frames, s);
      frames := frames + [msg.value];
    }
  }

  /** LengthPrefixedCodec::encode with an output argument; the one-argument encoders
      build the same bytes. */
  method EncodeInto(msg: seq<byte>) returns (out: seq<byte>)
    ensures out == Encode(msg)
  {
    out := [];
    var header := Be32(|msg|);
    out := out + header;
    out := out + msg;
  }
}
