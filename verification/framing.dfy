/** The wire format of v4/codec.h and v3/codec.h: a 4-byte length in network byte
    order (Appendix B of RFC 791), then the payload.

    `Encode` and `DecodeStep` say what the two codecs do to a byte string.
    `Walk` is the reference reading of a stream against which every reader of the
    repository is compared: the frames it holds, and the bytes that are left over. */
module Framing {
  import opened Bytes
  import opened BigEndian

  const WORD := 0x1_0000_0000
  const HEADER_SIZE := 4
  const MAX_PAYLOAD := 10 * 1024 * 1024

  /** htonl, as the four bytes it leaves in memory. */
  function Be32(n: nat): (h: seq<byte>)
    ensures |h| == HEADER_SIZE
  {
    Digits(n, HEADER_SIZE)
  }

  /** ntohl of the four bytes at the head of `s`. */
  function FromBe32(s: seq<byte>): nat
    requires |s| >= HEADER_SIZE
  {
    Number(s[..HEADER_SIZE])
  }

  /** The length survives the header modulo 2^32: a longer payload wraps. */
  lemma HeaderRoundTrip(n: nat)
    ensures Number(Be32(n)) == n % WORD
  {
    NumberOfDigits(n, HEADER_SIZE);
    NumberBound(Be32(n));
    assert Pow256(4) == 256 * Pow256(3) == 256 * 256 * Pow256(2) == 256 * 256 * 256 * Pow256(1) == WORD;
  }

  /** ProtobufCodec::encode and LengthPrefixedCodec::encode: the size is narrowed to
      32 bits when the header is written. */
  function Encode(payload: seq<byte>): seq<byte> {
    Be32(|payload|) + payload
  }

  /** A stream that carries `payloads` one after the other. */
  function Stream(payloads: seq<seq<byte>>): seq<byte> {
    if payloads == [] then [] else Encode(payloads[0]) + Stream(payloads[1..])
  }

  lemma {:induction false} StreamAppend(xs: seq<seq<byte>>, ys: seq<seq<byte>>)
    ensures Stream(xs + ys) == Stream(xs) + Stream(ys)
  {
    if xs == [] {
      assert xs + ys == ys;
    } else {
      var head, rest := Encode(xs[0]), xs[1..];
      assert (xs + ys)[0] == xs[0] && (xs + ys)[1..] == rest + ys;
      calc {
        Stream(xs + ys);
        head + Stream(rest + ys);
        { StreamAppend(rest, ys); }
        head + (Stream(rest) + Stream(ys));
        head + Stream(rest) + Stream(ys);
      }
    }
  }

  predicate Oversize(s: seq<byte>) {
    |s| >= HEADER_SIZE && FromBe32(s) > MAX_PAYLOAD
  }

  predicate Complete(s: seq<byte>) {
    |s| >= HEADER_SIZE && !Oversize(s) && |s| >= HEADER_SIZE + FromBe32(s)
  }

  datatype Decoded = Decoded(payload: Option<seq<byte>>, rest: seq<byte>)

  /** One call of PacketCodec::decode on a buffer that holds `s`. */
  function DecodeStep(s: seq<byte>): Decoded {
    if |s| < HEADER_SIZE then Decoded(None, s)
    else
      var len := FromBe32(s);
      if len > MAX_PAYLOAD then Decoded(None, [])
      else if |s| < HEADER_SIZE + len then Decoded(None, s)
      else Decoded(Some(s[HEADER_SIZE..HEADER_SIZE + len]), s[HEADER_SIZE + len..])
  }

  lemma EncodedHeader(payload: seq<byte>, tail: seq<byte>)
    ensures FromBe32(Encode(payload) + tail) == |payload| % WORD
  {
    assert (Encode(payload) + tail)[..HEADER_SIZE] == Be32(|payload|);
    HeaderRoundTrip(|payload|);
  }

  /** Decoding undoes encoding, whatever follows, exactly for payloads of at most 10 MB:
      a larger one is dropped, and one past 2^32 bytes comes back cut short. */
  lemma EncodeDecode(payload: seq<byte>, tail: seq<byte>)
    ensures DecodeStep(Encode(payload) + tail) == Decoded(Some(payload), tail) <==> |payload| <= MAX_PAYLOAD
  {
    var s := Encode(payload) + tail;
    EncodedHeader(payload, tail);
    if |payload| <= MAX_PAYLOAD {
      assert s[HEADER_SIZE..HEADER_SIZE + |payload|] == payload;
      assert s[HEADER_SIZE + |payload|..] == tail;
    }
  }

  lemma EncodeIsComplete(payload: seq<byte>, tail: seq<byte>)
    requires |payload| <= MAX_PAYLOAD
    ensures Complete(Encode(payload) + tail)
  {
    EncodedHeader(payload, tail);
  }

  /** What a successful decode removed was the encoding of what it returned. */
  lemma DecodeEncode(s: seq<byte>)
    requires DecodeStep(s).payload.Some?
    ensures Complete(s)
    ensures s == Encode(DecodeStep(s).payload.value) + DecodeStep(s).rest
    ensures |DecodeStep(s).payload.value| <= MAX_PAYLOAD
  {
    DigitsOfNumber(s[..HEADER_SIZE]);
  }

  datatype Parsed = Parsed(frames: seq<seq<byte>>, tail: seq<byte>)

  /** The reference reading: peel complete frames off the front until none is left. */
  function Walk(s: seq<byte>): (p: Parsed)
    decreases |s|
  {
    if Complete(s) then
      var len := FromBe32(s);
      var more := Walk(s[HEADER_SIZE + len..]);
      Parsed([s[HEADER_SIZE..HEADER_SIZE + len]] + more.frames, more.tail)
    else Parsed([], s)
  }

  /** No header of the stream claims more than 10 MB. */
  predicate Sane(s: seq<byte>) {
    !Oversize(Walk(s).tail)
  }

  /** A reading of `s`, without reference to how it was found. */
  predicate IsReading(s: seq<byte>, p: Parsed) {
    && s == Stream(p.frames) + p.tail
    && (forall f <- p.frames :: |f| <= MAX_PAYLOAD)
    && !Complete(p.tail)
  }

  lemma WalkPeels(payload: seq<byte>, rest: seq<byte>)
    requires |payload| <= MAX_PAYLOAD
    ensures Walk(Encode(payload) + rest) == Parsed([payload] + Walk(rest).frames, Walk(rest).tail)
  {
    EncodeIsComplete(payload, rest);
    EncodeDecode(payload, rest);
  }

  lemma {:induction false} WalkReads(s: seq<byte>)
    ensures IsReading(s, Walk(s))
    decreases |s|
  {
    if Complete(s) {
      var d := DecodeStep(s);
      DecodeEncode(s);
      WalkReads(d.rest);
      assert Walk(s).frames == [d.payload.value] + Walk(d.rest).frames;
      StreamPeels(d.payload.value, Walk(d.rest).frames);
    }
  }

  lemma StreamPeels(payload: seq<byte>, more: seq<seq<byte>>)
    ensures Stream([payload] + more) == Encode(payload) + Stream(more)
  {
    assert ([payload] + more)[1..] == more;
  }

  lemma {:induction false} ReadingIsUnique(p: Parsed)
    requires forall f <- p.frames :: |f| <= MAX_PAYLOAD
    requires !Complete(p.tail)
    ensures Walk(Stream(p.frames) + p.tail) == p
    decreases |p.frames|
  {
    if p.frames == [] {
      assert Stream(p.frames) + p.tail == p.tail;
    } else {
      var f, more := p.frames[0], Parsed(p.frames[1..], p.tail);
      ReadingIsUnique(more);
      WalkPeels(f, Stream(more.frames) + p.tail);
      assert Stream(p.frames) + p.tail == Encode(f) + (Stream(more.frames) + p.tail);
    }
  }

  /** Every stream has exactly one reading, and `Walk` finds it. */
  lemma WalkIsTheReading(s: seq<byte>, p: Parsed)
    ensures IsReading(s, p) <==> p == Walk(s)
  {
    WalkReads(s);
    if IsReading(s, p) {
      ReadingIsUnique(p);
    }
  }

  lemma Regroup<T>(a: seq<T>, b: seq<T>, c: seq<T>, d: seq<T>, e: seq<T>)
    requires b + c == d + e
    ensures a + b + c == a + d + e
  {
    assert a + b + c == a + (b + c);
  }

  /** Reading may stop anywhere and resume with the leftover bytes. */
  lemma WalkResumes(s: seq<byte>, more: seq<byte>)
    ensures Walk(s + more) == Parsed(Walk(s).frames + Walk(Walk(s).tail + more).frames, Walk(Walk(s).tail + more).tail)
  {
    var first, again := Walk(s), Walk(Walk(s).tail + more);
    WalkReads(s);
    WalkReads(first.tail + more);
    StreamAppend(first.frames, again.frames);
    Regroup(Stream(first.frames), first.tail, more, Stream(again.frames), again.tail);
    ReadingIsUnique(Parsed(first.frames + again.frames, again.tail));
  }

  lemma OversizeStays(s: seq<byte>, more: seq<byte>)
    requires Oversize(s)
    ensures Oversize(s + more) && Walk(s + more) == Parsed([], s + more)
  {
    assert (s + more)[..HEADER_SIZE] == s[..HEADER_SIZE];
  }

  lemma SanePrefix(s: seq<byte>, more: seq<byte>)
    requires Sane(s + more)
    ensures Sane(s)
  {
    WalkResumes(s, more);
    var t := Walk(s).tail;
    if Oversize(t) {
      OversizeStays(t, more);
      assert false;
    }
  }

  lemma SaneTail(s: seq<byte>, more: seq<byte>)
    ensures Sane(Walk(s).tail + more) == Sane(s + more)
  {
    WalkResumes(s, more);
  }

  lemma CutFrame(payload: seq<byte>, s: seq<byte>)
    requires |payload| <= MAX_PAYLOAD
    requires s < Encode(payload)
    ensures Walk(s) == Parsed([], s) && Sane(s)
  {
    EncodedHeader(payload, []);
    assert Encode(payload) + [] == Encode(payload);
    if |s| >= HEADER_SIZE {
      assert s[..HEADER_SIZE] == Encode(payload)[..HEADER_SIZE];
    }
  }

  /** What a prefix of a stream of `payloads` reads as. */
  predicate ReadsAsPrefix(payloads: seq<seq<byte>>, p: Parsed) {
    && p.frames <= payloads
    && !Oversize(p.tail)
    && (p.tail != [] ==> |p.frames| < |payloads| && p.tail < Encode(payloads[|p.frames|]))
  }

  lemma PrefixGrows(payloads: seq<seq<byte>>, p: Parsed)
    requires payloads != [] && ReadsAsPrefix(payloads[1..], p)
    ensures ReadsAsPrefix(payloads, Parsed([payloads[0]] + p.frames, p.tail))
  {
    if p.tail != [] {
      assert payloads[1..][|p.frames|] == payloads[|p.frames| + 1];
    }
  }

  lemma StripHead(head: seq<byte>, more: seq<byte>, s: seq<byte>)
    requires s <= head + more
    ensures |head| <= |s| ==> s == head + s[|head|..] && s[|head|..] <= more
    ensures |s| < |head| ==> s < head
  {
    if |head| <= |s| {
      assert head == (head + more)[..|head|] == s[..|head|];
      assert s[|head|..] <= (head + more)[|head|..] == more;
    } else {
      assert s == (head + more)[..|s|] == head[..|s|];
    }
  }

  /** The streams this server writes are sane at every cut: the complete frames are the
      first payloads written, and what is left is a proper piece of the next frame. */
  lemma {:induction false} PrefixOfStream(payloads: seq<seq<byte>>, s: seq<byte>)
    requires forall p <- payloads :: |p| <= MAX_PAYLOAD
    requires s <= Stream(payloads)
    ensures ReadsAsPrefix(payloads, Walk(s))
    decreases |payloads|
  {
    if payloads != [] {
      var head, more := Encode(payloads[0]), Stream(payloads[1..]);
      StripHead(head, more, s);
      if |head| <= |s| {
        var rest := s[|head|..];
        PrefixOfStream(payloads[1..], rest);
        WalkPeels(payloads[0], rest);
        PrefixGrows(payloads, Walk(rest));
      } else {
        CutFrame(payloads[0], s);
      }
    }
  }

  /** A whole stream reads back as it was written, with nothing left over. */
  lemma WholeStream(payloads: seq<seq<byte>>)
    requires forall p <- payloads :: |p| <= MAX_PAYLOAD
    ensures Walk(Stream(payloads)) == Parsed(payloads, [])
  {
    ReadingIsUnique(Parsed(payloads, []));
    assert Stream(payloads) + [] == Stream(payloads);
  }

  /** The decode loop of handle_read and receive_loop: decode until nothing comes out. */
  function DecodeAll(s: seq<byte>): Parsed
    decreases |s|
  {
    var d := DecodeStep(s);
    if d.payload.None? then Parsed([], d.rest)
    else
      var more := DecodeAll(d.rest);
      Parsed([d.payload.value] + more.frames, more.tail)
  }

  /** The loop finds the frames of the reference reading and keeps its tail,
      unless the tail starts with an oversized header: then it keeps nothing. */
  lemma {:induction false} DecodeAllIsWalk(s: seq<byte>)
    ensures DecodeAll(s) == if Sane(s) then Walk(s) else Walk(s).(tail := [])
    decreases |s|
  {
    if Complete(s) {
      DecodeAllIsWalk(DecodeStep(s).rest);
    }
  }

  /** The bytes arrive in `chunks`; the loop runs after each. */
  function Feed(buffered: seq<byte>, chunks: seq<seq<byte>>): Parsed
    decreases |chunks|
  {
    if chunks == [] then Parsed([], buffered)
    else
      var now := DecodeAll(buffered + chunks[0]);
      var later := Feed(now.tail, chunks[1..]);
      Parsed(now.frames + later.frames, later.tail)
  }

  lemma {:induction false} FeedAppend(buffered: seq<byte>, xs: seq<seq<byte>>, ys: seq<seq<byte>>)
    ensures Feed(buffered, xs + ys) ==
      var first := Feed(buffered, xs);
      var second := Feed(first.tail, ys);
      Parsed(first.frames + second.frames, second.tail)
    decreases |xs|
  {
    if xs == [] {
      assert xs + ys == ys;
    } else {
      var now, rest := DecodeAll(buffered + xs[0]), xs[1..];
      assert (xs + ys)[0] == xs[0] && (xs + ys)[1..] == rest + ys;
      FeedAppend(now.tail, rest, ys);
      var first, second := Feed(now.tail, rest), Feed(Feed(now.tail, rest).tail, ys);
      assert now.frames + (first.frames + second.frames) == now.frames + first.frames + second.frames;
    }
  }

  lemma {:induction false} FeedIsWalk(buffered: seq<byte>, chunks: seq<seq<byte>>)
    requires !Complete(buffered)
    requires Sane(buffered + Flatten(chunks))
    ensures Feed(buffered, chunks) == Walk(buffered + Flatten(chunks))
    decreases |chunks|
  {
    if chunks == [] {
      assert buffered + Flatten(chunks) == buffered;
    } else {
      var first, more := buffered + chunks[0], Flatten(chunks[1..]);
      assert buffered + Flatten(chunks) == first + more;
      SanePrefix(first, more);
      DecodeAllIsWalk(first);
      WalkIsTheReading(first, Walk(first));
      SaneTail(first, more);
      WalkResumes(first, more);
      FeedIsWalk(Walk(first).tail, chunks[1..]);
    }
  }

  /** Every cut of the stream gives its reading exactly when no header claims more than 10 MB. */
  lemma EveryCutIsTheReading(s: seq<byte>)
    ensures (forall chunks: seq<seq<byte>> | Flatten(chunks) == s :: Feed([], chunks) == Walk(s)) <==> Sane(s)
  {
    if Sane(s) {
      forall chunks: seq<seq<byte>> | Flatten(chunks) == s
        ensures Feed([], chunks) == Walk(s)
      {
        assert [] + Flatten(chunks) == s;
        FeedIsWalk([], chunks);
      }
    } else {
      OneChunk(s);
      assert Feed([], [s]) != Walk(s);
    }
  }

  lemma OneChunk(s: seq<byte>)
    ensures Flatten([s]) == s
    ensures Feed([], [s]) == DecodeAll(s) == if Sane(s) then Walk(s) else Walk(s).(tail := [])
  {
    assert Flatten([s]) == s + Flatten<byte>([]);
    assert s + Flatten<byte>([]) == s;
    FeedOne([], s);
    DecodeAllIsWalk(s);
  }

  lemma {:induction false} FeedNoBytes(chunks: seq<seq<byte>>)
    requires Flatten(chunks) == []
    ensures Feed([], chunks) == Parsed([], [])
    decreases |chunks|
  {
    if chunks != [] {
      assert [] + chunks[0] == [];
      FeedNoBytes(chunks[1..]);
    }
  }

  lemma NothingMore(buffered: seq<byte>)
    ensures buffered + Flatten<byte>([]) == buffered
  {
  }

  /** A stream that ends in a bare header above 10 MB comes out alike for every cut: nothing
      is there to be dropped with the header. */
  lemma {:induction false} FeedBareHeader(buffered: seq<byte>, chunks: seq<seq<byte>>)
    requires !Complete(buffered) && !Oversize(buffered)
    requires var t := Walk(buffered + Flatten(chunks)).tail; Oversize(t) && |t| == HEADER_SIZE
    ensures Feed(buffered, chunks) == Parsed(Walk(buffered + Flatten(chunks)).frames, [])
    decreases |chunks|
  {
    NothingMore(buffered);
    if chunks == [] {
      assert false;
    } else {
      var first, more := buffered + chunks[0], Flatten(chunks[1..]);
      assert buffered + Flatten(chunks) == first + more;
      DecodeAllIsWalk(first);
      WalkIsTheReading(first, Walk(first));
      WalkResumes(first, more);
      if Sane(first) {
        FeedBareHeader(Walk(first).tail, chunks[1..]);
      } else {
        OversizeStays(Walk(first).tail, more);
        FeedNoBytes(chunks[1..]);
      }
    }
  }

  lemma ButTheLast(a: seq<byte>, t: seq<byte>)
    requires t != []
    ensures (a + t)[..|a + t| - 1] == a + t[..|t| - 1]
  {
  }

  lemma OversizeCut(t: seq<byte>, k: nat)
    requires Oversize(t) && HEADER_SIZE <= k <= |t|
    ensures Oversize(t[..k])
  {
    assert t[..k][..HEADER_SIZE] == t[..HEADER_SIZE];
  }

  lemma OversizeIsDropped(frames: seq<seq<byte>>, t: seq<byte>)
    requires forall f <- frames :: |f| <= MAX_PAYLOAD
    requires Oversize(t)
    ensures DecodeAll(Stream(frames) + t).tail == []
  {
    ReadingIsUnique(Parsed(frames, t));
    DecodeAllIsWalk(Stream(frames) + t);
  }

  lemma HeldBack(s: seq<byte>)
    requires !Sane(s) && |Walk(s).tail| > HEADER_SIZE
    ensures s != [] && DecodeAll(s[..|s| - 1]).tail == []
  {
    WalkReads(s);
    var frames, t := Walk(s).frames, Walk(s).tail;
    OversizeCut(t, |t| - 1);
    hide Walk;
    hide DecodeAll;
    hide Stream;
    hide Oversize;
    ButTheLast(Stream(frames), t);
    OversizeIsDropped(frames, t[..|t| - 1]);
  }

  lemma TwoChunks(early: seq<byte>, late: seq<byte>)
    requires DecodeAll(early).tail == []
    ensures Feed([], [early, late]).tail == DecodeAll(late).tail
  {
    hide DecodeAll;
    assert [early, late][1..] == [late];
    assert [] + early == early;
    FeedOne([], late);
  }

  /** If something follows the header, holding back the last byte makes a difference: that
      byte is then not dropped with the rest. */
  lemma HoldBackOneByte(s: seq<byte>) returns (early: seq<byte>, late: seq<byte>)
    requires !Sane(s) && |Walk(s).tail| > HEADER_SIZE
    ensures early + late == s && Feed([], [early, late]).tail == late != []
  {
    HeldBack(s);
    early, late := s[..|s| - 1], s[|s| - 1..];
    NotAHeader(late);
    TwoChunks(early, late);
  }

  lemma NotAHeader(s: seq<byte>)
    requires |s| < HEADER_SIZE
    ensures DecodeAll(s) == Parsed([], s)
  {
  }

  /** Framing does not depend on how reads cut the stream if and only if no header in it claims
      more than 10 MB, or one does and the stream ends right behind it. */
  lemma ChunkIndependence(s: seq<byte>)
    ensures (forall a: seq<seq<byte>>, b: seq<seq<byte>> | Flatten(a) == s && Flatten(b) == s :: Feed([], a) == Feed([], b))
      <==> Sane(s) || |Walk(s).tail| == HEADER_SIZE
  {
    if Sane(s) || |Walk(s).tail| == HEADER_SIZE {
      forall a: seq<seq<byte>> | Flatten(a) == s
        ensures Feed([], a) == DecodeAll(s)
      {
        assert [] + Flatten(a) == s;
        DecodeAllIsWalk(s);
        if Sane(s) {
          FeedIsWalk([], a);
        } else {
          FeedBareHeader([], a);
        }
      }
    } else {
      var early, late := HoldBackOneByte(s);
      OneChunk(s);
      assert [early, late][1..] == [late];
      assert Flatten([early, late]) == early + Flatten([late]);
      OneChunk(late);
      assert Feed([], [s]) != Feed([], [early, late]);
    }
  }

  /** With an oversized header, two cuts of the same eight bytes disagree on the messages. */
  lemma OversizeDependsOnCut()
    ensures var big: seq<byte> := [255, 255, 255, 255];
            var empty: seq<byte> := [0, 0, 0, 0];
            Feed([], [big + empty]).frames == [] && Feed([], [big, empty]).frames == [[]]
  {
    var big: seq<byte> := [255, 255, 255, 255];
    var empty: seq<byte> := [0, 0, 0, 0];
    NumberOfFour(big);
    NumberOfFour(empty);
    assert big[..4] == big && empty[..4] == empty && (big + empty)[..4] == big;
    assert empty[4..4] == [] && empty[4..] == [];
    assert DecodeAll(big + empty) == Parsed([], []) && DecodeAll(big) == Parsed([], []);
    assert DecodeAll(empty) == Parsed([[]], []);
    FeedOne([], big + empty);
    FeedOne([], big);
    FeedOne([], empty);
    FeedAppend([], [big], [empty]);
  }

  lemma FeedOne(buffered: seq<byte>, bytes: seq<byte>)
    ensures Feed(buffered, [bytes]) == DecodeAll(buffered + bytes)
    ensures buffered == [] ==> Feed(buffered, [bytes]) == DecodeAll(bytes)
  {
    assert [bytes][1..] == [];
    assert buffered == [] ==> buffered + bytes == bytes;
  }
}
