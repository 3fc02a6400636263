/** The receiving side of v3/client.cpp. It parses a string with code of its own, in two
    places: `login` takes at most one frame per recv, `process_buffer` takes all, and the
    buffer is handed over between them when receive_loop starts. Unlike the codec, neither
    place has a size limit.

    The theorem: over every way the stream is cut, the frames the two take are together the
    reading of the stream, and agree with the codec's until a header above 10 MB. */
module LegacyClients {
  import opened Bytes
  import opened Framing

  const NEWLINE: byte := 10

  /** The string holds a header and everything it announces. */
  predicate Whole(s: seq<byte>) {
    |s| >= HEADER_SIZE && |s| >= HEADER_SIZE + FromBe32(s)
  }

  /** One turn of either parser. */
  function CutStep(s: seq<byte>): Decoded {
    if |s| < HEADER_SIZE then Decoded(None, s)
    else
      var len := FromBe32(s);
      if |s| < HEADER_SIZE + len then Decoded(None, s)
      else Decoded(Some(s[HEADER_SIZE..HEADER_SIZE + len]), s[HEADER_SIZE + len..])
  }

  /** The string parser does what the codec does exactly when the codec has nothing to drop. */
  lemma CutIsDecode(s: seq<byte>)
    ensures CutStep(s) == DecodeStep(s) <==> !Oversize(s)
  {
    if Oversize(s) && |s| < HEADER_SIZE + FromBe32(s) {
      assert CutStep(s).rest != [];
    }
  }

  /** The reading of a stream by the string parser alone. */
  function Split(s: seq<byte>): Parsed
    decreases |s|
  {
    if Whole(s) then
      var d := CutStep(s);
      var more := Split(d.rest);
      Parsed([d.payload.value] + more.frames, more.tail)
    else Parsed([], s)
  }

  lemma WholeStays(s: seq<byte>, more: seq<byte>)
    requires Whole(s)
    ensures Whole(s + more)
    ensures CutStep(s + more) == Decoded(CutStep(s).payload, CutStep(s).rest + more)
  {
    assert (s + more)[..HEADER_SIZE] == s[..HEADER_SIZE];
    var n := HEADER_SIZE + FromBe32(s);
    assert (s + more)[HEADER_SIZE..n] == s[HEADER_SIZE..n] && (s + more)[n..] == s[n..] + more;
  }

  /** A reading that starts with frames already taken. */
  function Onwards(taken: seq<seq<byte>>, rest: seq<byte>): Parsed {
    Parsed(taken + Split(rest).frames, Split(rest).tail)
  }

  lemma OnwardsOne(taken: seq<seq<byte>>, s: seq<byte>)
    requires Whole(s)
    ensures Onwards(taken, s) == Onwards(taken + [CutStep(s).payload.value], CutStep(s).rest)
  {
    var f, more := CutStep(s).payload.value, Split(CutStep(s).rest).frames;
    assert taken + ([f] + more) == taken + [f] + more;
  }

  /** Parsing may stop anywhere and resume with the leftover bytes. */
  lemma {:induction false} SplitResumes(s: seq<byte>, more: seq<byte>)
    ensures Split(s + more) == Onwards(Split(s).frames, Split(s).tail + more)
    decreases |s|
  {
    if Whole(s) {
      var d := CutStep(s);
      WholeStays(s, more);
      SplitResumes(d.rest, more);
      var a, b := Split(d.rest).frames, Split(Split(d.rest).tail + more).frames;
      assert [d.payload.value] + (a + b) == [d.payload.value] + a + b;
    } else {
      assert [] + Split(s + more).frames == Split(s + more).frames;
    }
  }

  lemma OnwardsGrows(stream: seq<byte>, taken: seq<seq<byte>>, rest: seq<byte>, more: seq<byte>)
    requires Split(stream) == Onwards(taken, rest)
    ensures Split(stream + more) == Onwards(taken, rest + more)
  {
    hide Split;
    SplitResumes(stream, more);
    SplitResumes(rest, more);
    Assoc(taken, Split(rest).frames, Split(Split(rest).tail + more).frames);
  }

  /** The string parser finds the reference reading, unless that stops in front of a complete
      frame of more than 10 MB. */
  lemma {:induction false} SplitIsWalk(s: seq<byte>)
    ensures Split(s) == Walk(s) <==> !(Oversize(Walk(s).tail) && Whole(Walk(s).tail))
    decreases |s|
  {
    if Complete(s) {
      var d := CutStep(s);
      CutIsDecode(s);
      SplitIsWalk(d.rest);
      assert Walk(s) == Parsed([d.payload.value] + Walk(d.rest).frames, Walk(d.rest).tail);
      if Split(s) == Walk(s) {
        assert Split(d.rest).frames == Split(s).frames[1..] == Walk(s).frames[1..] == Walk(d.rest).frames;
      }
    } else if Whole(s) {
      assert |Split(s).frames| > 0;
    }
  }

  /** Over a whole buffer the string parser and the codec's decode loop agree, in frames and
      in leftover bytes, if and only if no header claims more than 10 MB: the codec drops what
      starts with such a header, the string parser keeps it or takes it for a frame. */
  lemma {:induction false} SplitIsDecode(s: seq<byte>)
    ensures Split(s) == DecodeAll(s) <==> Sane(s)
    decreases |s|
  {
    DecodeAllIsWalk(s);
    if Sane(s) {
      SplitIsWalk(s);
    } else {
      SplitKeepsOversize(s);
    }
  }

  lemma {:induction false} SplitKeepsOversize(s: seq<byte>)
    requires !Sane(s)
    ensures |Split(s).frames| > |Walk(s).frames| || Split(s).tail != []
    decreases |s|
  {
    if Complete(s) {
      var d := CutStep(s);
      CutIsDecode(s);
      SplitKeepsOversize(d.rest);
      assert Walk(s).frames == [d.payload.value] + Walk(d.rest).frames;
    }
  }

  /** The same for the codec fed in chunks: it agrees for every cut, or else there is a header
      above 10 MB and it disagrees for the stream in one piece. */
  lemma SplitIsFeed(s: seq<byte>)
    ensures (forall chunks: seq<seq<byte>> | Flatten(chunks) == s :: Feed([], chunks) == Split(s)) <==> Sane(s)
  {
    SplitIsDecode(s);
    if Sane(s) {
      DecodeAllIsWalk(s);
      EveryCutIsTheReading(s);
    } else {
      OneChunk(s);
      assert Feed([], [s]) != Split(s);
    }
  }

  // --- What is shown to the user --------------------------------------------------------

  function Stripped(msg: seq<byte>): seq<byte> {
    if msg != [] && msg[|msg| - 1] == NEWLINE then msg[..|msg| - 1] else msg
  }

  function StrippedAll(msgs: seq<seq<byte>>): seq<seq<byte>> {
    seq(|msgs|, i requires 0 <= i < |msgs| => Stripped(msgs[i]))
  }

  lemma StrippedSnoc(taken: seq<seq<byte>>, msg: seq<byte>, from: nat)
    requires from <= |taken|
    ensures StrippedAll((taken + [msg])[from..]) == StrippedAll(taken[from..]) + [Stripped(msg)]
  {
    assert (taken + [msg])[from..] == taken[from..] + [msg];
  }

  /** What is shown is the message itself or the message without its last newline. */
  lemma StrippedLosesOneNewline(msg: seq<byte>)
    ensures Stripped(msg) == msg || Stripped(msg) + [NEWLINE] == msg
    ensures Stripped(msg) == msg <==> !(exists m :: m + [NEWLINE] == msg)
  {
    forall m: seq<byte> | m + [NEWLINE] == msg
      ensures Stripped(msg) == m
    {
      assert msg[|msg| - 1] == (m + [NEWLINE])[|m|] == NEWLINE;
    }
  }

  // --- What login comes to --------------------------------------------------------------

  /** The frame that ends login. */
  predicate Welcomes(payload: seq<byte>, accepts: seq<byte> -> bool) {
    payload != [] && accepts(payload)
  }

  datatype LoginResult = LoginResult(loggedIn: bool, frames: seq<seq<byte>>, rest: seq<byte>, left: seq<seq<byte>>)

  /** login on what recv returns, one frame at most for each chunk, until it is welcome or the
      connection ends. */
  function LoginRun(buffered: seq<byte>, chunks: seq<seq<byte>>, accepts: seq<byte> -> bool): LoginResult
    decreases |chunks|
  {
    if chunks == [] || chunks[0] == [] then LoginResult(false, [], buffered, chunks)
    else
      var d := CutStep(buffered + chunks[0]);
      if d.payload.None? then LoginRun(d.rest, chunks[1..], accepts)
      else if Welcomes(d.payload.value, accepts) then LoginResult(true, [d.payload.value], d.rest, chunks[1..])
      else
        var more := LoginRun(d.rest, chunks[1..], accepts);
        more.(frames := [d.payload.value] + more.frames)
  }

  function AfterFrames(frames: seq<seq<byte>>, r: LoginResult): LoginResult {
    r.(frames := frames + r.frames)
  }

  lemma LoginStep(frames: seq<seq<byte>>, buffered: seq<byte>, chunks: seq<seq<byte>>, accepts: seq<byte> -> bool)
    requires chunks != [] && chunks[0] != []
    ensures var d := CutStep(buffered + chunks[0]);
            var frames' := frames + if d.payload.Some? then [d.payload.value] else [];
            AfterFrames(frames, LoginRun(buffered, chunks, accepts)) ==
              if d.payload.Some? && Welcomes(d.payload.value, accepts) then LoginResult(true, frames', d.rest, chunks[1..])
              else AfterFrames(frames', LoginRun(d.rest, chunks[1..], accepts))
  {
    var d := CutStep(buffered + chunks[0]);
    if d.payload.Some? {
      Assoc(frames, [d.payload.value], LoginRun(d.rest, chunks[1..], accepts).frames);
    } else {
      assert frames + [] == frames;
    }
  }

  class LegacyClient {
    /** Whether a payload says that the username is accepted. */
    const accepts: seq<byte> -> bool
    var inBuf: seq<byte>
    var loggedIn: bool
    var messageQueue: seq<seq<byte>>
    /** Every byte recv delivered. */
    ghost var received: seq<byte>
    /** Every frame cut off the buffer, those of login first. */
    ghost var taken: seq<seq<byte>>
    ghost var atLogin: nat

    ghost predicate Valid()
      reads this
    {
      && Split(received) == Onwards(taken, inBuf)
      && atLogin <= |taken|
      && messageQueue == StrippedAll(taken[atLogin..])
    }

    constructor (accepts: seq<byte> -> bool)
      ensures Valid() && this.accepts == accepts
      ensures inBuf == [] && received == [] && taken == [] && atLogin == 0 && !loggedIn
    {
      this.accepts := accepts;
      inBuf, loggedIn, messageQueue := [], false, [];
      received, taken, atLogin := [], [], 0;
    }

    /** in_buf_.append of what recv returned. */
    method Append(chunk: seq<byte>)
      requires Valid()
      modifies `inBuf, `received
      ensures Valid()
      ensures inBuf == old(inBuf) + chunk && received == old(received) + chunk
    {
      OnwardsGrows(received, taken, inBuf, chunk);
      inBuf, received := inBuf + chunk, received + chunk;
    }

    /** Both parsers cut a frame off in this way. */
    method CutFrame() returns (msg: Option<seq<byte>>)
      requires Split(received) == Onwards(taken, inBuf)
      modifies `inBuf, `taken
      ensures Split(received) == Onwards(taken, inBuf)
      ensures Decoded(msg, inBuf) == CutStep(old(inBuf))
      ensures taken == old(taken) + if msg.Some? then [msg.value] else []
      ensures msg.Some? ==> |inBuf| < |old(inBuf)|
    {
      if |inBuf| < HEADER_SIZE {
        return None;
      }
      var len := FromBe32(inBuf);
      if |inBuf| < HEADER_SIZE + len {
        return None;
      }
      OnwardsOne(taken, inBuf);
      msg := Some(inBuf[HEADER_SIZE..HEADER_SIZE + len]);
      inBuf := inBuf[HEADER_SIZE + len..];
      taken := taken + [msg.value];
    }

    /** One turn of login: what recv returned is appended, then at most one frame is taken,
        even if more are there. An empty frame is taken and ignored. */
    method LoginOnce(chunk: seq<byte>)
      requires Valid() && !loggedIn && atLogin == |taken|
      modifies this
      ensures Valid() && atLogin == |taken| && received == old(received) + chunk
      ensures var d := CutStep(old(inBuf) + chunk);
              && inBuf == d.rest
              && taken == old(taken) + (if d.payload.Some? then [d.payload.value] else [])
              && (loggedIn <==> d.payload.Some? && Welcomes(d.payload.value, accepts))
    {
      Append(chunk);
      assert messageQueue == [];
      var msg := CutFrame();
      atLogin := |taken|;
      assert taken[atLogin..] == [];
      if msg.None? || msg.value == [] {
        return;
      }
      loggedIn := accepts(msg.value);
    }

    /** login, over the chunks that recv returns until the connection ends. `left` are those
        it has not read when it returns. */
    method Login(arriving: seq<seq<byte>>) returns (left: seq<seq<byte>>)
      requires Valid() && !loggedIn && atLogin == |taken|
      modifies this
      ensures Valid() && atLogin == |taken|
      ensures received + Flatten(left) == old(received) + Flatten(arriving)
      ensures loggedIn || left == [] || left[0] == []
      ensures LoginResult(loggedIn, taken, inBuf, left) == AfterFrames(old(taken), LoginRun(old(inBuf), arriving, accepts))
    {
      left := arriving;
      ghost var whole := AfterFrames(taken, LoginRun(inBuf, arriving, accepts));
      while !loggedIn && left != [] && left[0] != []
        invariant Valid() && atLogin == |taken|
        invariant received + Flatten(left) == old(received) + Flatten(arriving)
        invariant whole == if loggedIn then LoginResult(true, taken, inBuf, left)
          else AfterFrames(taken, LoginRun(inBuf, left, accepts))
        decreases |left|
      {
        Assoc(received, left[0], Flatten(left[1..]));
        LoginStep(taken, inBuf, left, accepts);
        LoginOnce(left[0]);
        left := left[1..];
      }
      assert taken + [] == taken;
    }

    method ProcessBuffer()
      requires Valid()
      modifies `inBuf, `taken, `messageQueue
      ensures Valid() && !Whole(inBuf)
      ensures Parsed(taken, inBuf) == Split(received)
    {
      while true
        invariant Valid()
        decreases |inBuf|
      {
        var msg := CutFrame();
        if msg.None? {
          break;
        }
        var shown := msg.value;
        if shown != [] && shown[|shown| - 1] == NEWLINE {
          shown := shown[..|shown| - 1];
        }
        StrippedSnoc(taken[..|taken| - 1], msg.value, atLogin);
        assert taken[..|taken| - 1] + [msg.value] == taken;
        messageQueue := messageQueue + [shown];
      }
      assert taken + [] == taken;
    }

    /** receive_loop starts with what login has left in the buffer. */
    method ReceiveLoop(arriving: seq<seq<byte>>) returns (left: seq<seq<byte>>)
      requires Valid()
      modifies `inBuf, `received, `taken, `messageQueue
      ensures Valid()
      ensures received + Flatten(left) == old(received) + Flatten(arriving)
      ensures left == [] || left[0] == []
      ensures Parsed(taken, inBuf) == Split(received)
    {
      left := arriving;
      if inBuf != [] {
        ProcessBuffer();
      }
      assert taken + [] == taken;
      while left != [] && left[0] != []
        invariant Valid()
        invariant received + Flatten(left) == old(received) + Flatten(arriving)
        invariant Parsed(taken, inBuf) == Split(received)
      {
        Assoc(received, left[0], Flatten(left[1..]));
        Append(left[0]);
        ProcessBuffer();
        left := left[1..];
      }
    }

    /** A whole session. Nothing is lost when the buffer changes hands: the frames taken by
        login and then by receive_loop are the reading of everything received. They are the
        frames the codec yields from a ring buffer, however that was filled, if and only if no
        header claims more than 10 MB. The user is shown those after login, each without one
        trailing newline. */
    method Session(arriving: seq<seq<byte>>) returns (left: seq<seq<byte>>)
      requires Valid() && received == [] && taken == [] && !loggedIn && atLogin == 0
      modifies this
      ensures Valid() && received + Flatten(left) == Flatten(arriving)
      ensures loggedIn == LoginRun(old(inBuf), arriving, accepts).loggedIn
      ensures loggedIn ==> Parsed(taken, inBuf) == Split(received)
      ensures loggedIn ==>
        ((forall chunks: seq<seq<byte>> | Flatten(chunks) == received :: Feed([], chunks) == Parsed(taken, inBuf))
          <==> Sane(received))
      ensures messageQueue == StrippedAll(taken[atLogin..])
    {
      left := Login(arriving);
      if loggedIn {
        left := ReceiveLoop(left);
        SplitIsFeed(received);
      }
    }
  }
}
