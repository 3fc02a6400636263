/** Whether `login` of v3/client.cpp succeeds, over every way recv may cut what the server sends.
    It takes one frame per recv at most and then waits for more bytes, so a welcome that comes
    together with an earlier frame may stay in the buffer unread. */
module LoginCuts {
  import opened Bytes
  import opened Framing
  import opened LegacyClients

  /** recv is given one byte less than the buffer holds. */
  const RECV_SIZE := 4095

  predicate LogsIn(buffered: seq<byte>, chunks: seq<seq<byte>>, accepts: seq<byte> -> bool) {
    LoginRun(buffered, chunks, accepts).loggedIn
  }

  /** The position of the first welcome, or the number of frames if there is none. */
  function FirstWelcome(frames: seq<seq<byte>>, accepts: seq<byte> -> bool): nat {
    if frames == [] || Welcomes(frames[0], accepts) then 0 else 1 + FirstWelcome(frames[1..], accepts)
  }

  lemma {:induction false} FirstWelcomeIsFirst(frames: seq<seq<byte>>, accepts: seq<byte> -> bool)
    ensures var j := FirstWelcome(frames, accepts);
            && j <= |frames| && (j < |frames| ==> Welcomes(frames[j], accepts))
            && forall i | 0 <= i < j :: !Welcomes(frames[i], accepts)
  {
    if frames != [] && !Welcomes(frames[0], accepts) {
      FirstWelcomeIsFirst(frames[1..], accepts);
    }
  }

  /** How many frames are whole in s. */
  function FramesIn(s: seq<byte>): nat {
    |Split(s).frames|
  }

  /** After each recv, the frames that have arrived and the recvs still to come are together
      more than j: the reader has not fallen behind frame j for good. `at` bytes of s came
      before the chunks. */
  predicate KeepsUp(s: seq<byte>, at: nat, chunks: seq<seq<byte>>, j: nat)
    requires at + |Flatten(chunks)| <= |s|
    decreases |chunks|
  {
    chunks == [] ||
      (var at' := at + |chunks[0]|;
       FramesIn(s[..at']) + |chunks| - 1 > j && KeepsUp(s, at', chunks[1..], j))
  }

  // --- The outcome of one cut -----------------------------------------------------------

  /** The first frame. */
  function Front(s: seq<byte>): seq<byte>
    requires Whole(s)
  {
    CutStep(s).payload.value
  }

  lemma FrameInFront(h: seq<byte>, v: seq<byte>)
    requires Whole(h) && |h| == HEADER_SIZE + FromBe32(h)
    ensures Split(h + v) == Parsed([Front(h)] + Split(v).frames, Split(v).tail)
    ensures FramesIn(h + v) == 1 + FramesIn(v)
  {
    WholeStays(h, v);
    assert [] + v == v;
  }

  lemma FramesBehind(h: seq<byte>, u: seq<byte>, k: nat)
    requires Whole(h) && |h| == HEADER_SIZE + FromBe32(h) && k <= |u|
    ensures FramesIn((h + u)[..|h| + k]) == 1 + FramesIn(u[..k])
  {
    hide FramesIn;
    assert (h + u)[..|h| + k] == h + u[..k];
    FrameInFront(h, u[..k]);
  }

  lemma {:induction false} KeepsUpShifts(h: seq<byte>, u: seq<byte>, at: nat, chunks: seq<seq<byte>>, j: nat)
    requires Whole(h) && |h| == HEADER_SIZE + FromBe32(h) && j > 0
    requires at + |Flatten(chunks)| <= |u|
    ensures KeepsUp(h + u, |h| + at, chunks, j) == KeepsUp(u, at, chunks, j - 1)
    decreases |chunks|
  {
    if chunks != [] {
      var at' := at + |chunks[0]|;
      FramesBehind(h, u, at');
      hide FramesIn;
      KeepsUpShifts(h, u, at', chunks[1..], j);
    }
  }

  lemma {:induction false} KeepsUpWithFirst(h: seq<byte>, u: seq<byte>, at: nat, chunks: seq<seq<byte>>)
    requires Whole(h) && |h| == HEADER_SIZE + FromBe32(h)
    requires at + |Flatten(chunks)| <= |u|
    ensures KeepsUp(h + u, |h| + at, chunks, 0)
    decreases |chunks|
  {
    if chunks != [] {
      var at' := at + |chunks[0]|;
      FramesBehind(h, u, at');
      hide FramesIn;
      KeepsUpWithFirst(h, u, at', chunks[1..]);
    }
  }

  /** The buffer without its first frame, and that frame. */
  lemma CutHead(s: seq<byte>) returns (h: seq<byte>)
    requires Whole(s)
    ensures Whole(h) && |h| == HEADER_SIZE + FromBe32(h)
    ensures s == h + CutStep(s).rest && Front(h) == Front(s)
  {
    var n := HEADER_SIZE + FromBe32(s);
    h := s[..n];
    assert h[..HEADER_SIZE] == s[..HEADER_SIZE];
    assert h[HEADER_SIZE..n] == s[HEADER_SIZE..n];
  }

  predicate NonEmpty(chunks: seq<seq<byte>>) {
    forall k | 0 <= k < |chunks| :: chunks[k] != []
  }

  lemma FirstWelcomeBehind(f: seq<byte>, frames: seq<seq<byte>>, accepts: seq<byte> -> bool)
    ensures FirstWelcome([f] + frames, accepts) == if Welcomes(f, accepts) then 0 else 1 + FirstWelcome(frames, accepts)
  {
    assert ([f] + frames)[1..] == frames;
  }

  /** The frame h is taken and welcomes the user. */
  lemma WelcomeTaken(h: seq<byte>, r: seq<byte>, rest: seq<seq<byte>>, accepts: seq<byte> -> bool)
    requires Whole(h) && |h| == HEADER_SIZE + FromBe32(h) && Welcomes(Front(h), accepts)
    ensures var s := h + (r + Flatten(rest));
            FirstWelcome(Split(s).frames, accepts) == 0 && KeepsUp(s, |h| + |r|, rest, 0)
    ensures FramesIn(h + r) >= 1
  {
    hide *;
    var u, f := r + Flatten(rest), Front(h);
    FrameInFront(h, u);
    FrameInFront(h, r);
    FirstWelcomeBehind(f, Split(u).frames, accepts);
    KeepsUpWithFirst(h, u, |r|, rest);
  }

  /** The frame h is taken and does not: from here on everything is about the stream behind it. */
  lemma OtherTaken(h: seq<byte>, r: seq<byte>, rest: seq<seq<byte>>, accepts: seq<byte> -> bool)
    requires Whole(h) && |h| == HEADER_SIZE + FromBe32(h) && !Welcomes(Front(h), accepts)
    ensures var u := r + Flatten(rest);
            var s, j := h + u, FirstWelcome(Split(u).frames, accepts);
            && FirstWelcome(Split(s).frames, accepts) == j + 1
            && KeepsUp(s, |h| + |r|, rest, j + 1) == KeepsUp(u, |r|, rest, j)
    ensures FramesIn(h + r) >= 1
  {
    hide *;
    var u, f := r + Flatten(rest), Front(h);
    FrameInFront(h, u);
    FrameInFront(h, r);
    FirstWelcomeBehind(f, Split(u).frames, accepts);
    KeepsUpShifts(h, u, |r|, rest, FirstWelcome(Split(u).frames, accepts) + 1);
  }

  lemma OutcomeStep(buffered: seq<byte>, chunks: seq<seq<byte>>, accepts: seq<byte> -> bool)
    requires chunks != [] && chunks[0] != []
    ensures var first, rest := buffered + chunks[0], chunks[1..];
            LogsIn(buffered, chunks, accepts) <==>
              if Whole(first) then Welcomes(Front(first), accepts) || LogsIn(CutStep(first).rest, rest, accepts)
              else LogsIn(first, rest, accepts)
  {
  }

  lemma Regrouped(buffered: seq<byte>, chunks: seq<seq<byte>>)
    requires chunks != []
    ensures var first, more := buffered + chunks[0], Flatten(chunks[1..]);
            buffered + Flatten(chunks) == first + more && (first + more)[..|first|] == first
  {
    Assoc(buffered, chunks[0], Flatten(chunks[1..]));
  }

  lemma KeepsUpStep(s: seq<byte>, at: nat, chunks: seq<seq<byte>>, j: nat)
    requires chunks != [] && at + |Flatten(chunks)| <= |s|
    ensures var at' := at + |chunks[0]|;
            KeepsUp(s, at, chunks, j) <==> FramesIn(s[..at']) + |chunks| - 1 > j && KeepsUp(s, at', chunks[1..], j)
  {
  }

  /** The two cases together, for the buffer that holds the frame and what follows it. */
  lemma OutcomeTaken(first: seq<byte>, rest: seq<seq<byte>>, accepts: seq<byte> -> bool)
    requires Whole(first)
    requires var r := CutStep(first).rest;
             var j := FirstWelcome(Split(r + Flatten(rest)).frames, accepts);
             LogsIn(r, rest, accepts) <==> |rest| > j && KeepsUp(r + Flatten(rest), |r|, rest, j)
    ensures var s := first + Flatten(rest);
            var j := FirstWelcome(Split(s).frames, accepts);
            (Welcomes(Front(first), accepts) || LogsIn(CutStep(first).rest, rest, accepts)) <==>
              |rest| + 1 > j && FramesIn(first) + |rest| > j && KeepsUp(s, |first|, rest, j)
  {
    hide *;
    var h := CutHead(first);
    var r, f := CutStep(first).rest, Front(first);
    Assoc(h, r, Flatten(rest));
    if Welcomes(f, accepts) {
      WelcomeTaken(h, r, rest, accepts);
    } else {
      OtherTaken(h, r, rest, accepts);
    }
  }

  lemma NotWhole(s: seq<byte>)
    requires !Whole(s)
    ensures FramesIn(s) == 0
  {
  }

  /** login succeeds over a cut exactly if the reader keeps up with the first welcome. */
  lemma {:induction false} OutcomeOfCut(buffered: seq<byte>, chunks: seq<seq<byte>>, accepts: seq<byte> -> bool)
    requires NonEmpty(chunks)
    ensures var s := buffered + Flatten(chunks);
            var j := FirstWelcome(Split(s).frames, accepts);
            LogsIn(buffered, chunks, accepts) <==> |chunks| > j && KeepsUp(s, |buffered|, chunks, j)
    decreases |chunks|
  {
    if chunks != [] {
      var first, rest := buffered + chunks[0], chunks[1..];
      var s := buffered + Flatten(chunks);
      Regrouped(buffered, chunks);
      OutcomeStep(buffered, chunks, accepts);
      KeepsUpStep(s, |buffered|, chunks, FirstWelcome(Split(s).frames, accepts));
      if Whole(first) {
        OutcomeOfCut(CutStep(first).rest, rest, accepts);
        OutcomeTaken(first, rest, accepts);
      } else {
        OutcomeOfCut(first, rest, accepts);
        NotWhole(first);
      }
    }
  }

  // --- All cuts -------------------------------------------------------------------------

  /** A way recv may return s, at most m bytes at a time. */
  predicate CutOf(s: seq<byte>, chunks: seq<seq<byte>>, m: nat) {
    Flatten(chunks) == s && forall k | 0 <= k < |chunks| :: 0 < |chunks[k]| <= m
  }

  /** The fewest recvs that n bytes take. */
  function Reads(n: nat, m: nat): nat
    requires m > 0
  {
    if n == 0 then 0 else if n <= m then 1 else 1 + Reads(n - m, m)
  }

  /** The most a sender can count on: wherever reading has got to, the frames that have arrived
      and the recvs that are bound to come are together more than j. */
  ghost predicate Sure(s: seq<byte>, m: nat, j: nat)
    requires m > 0
  {
    forall b: nat | b <= |s| :: FramesIn(s[..b]) + Reads(|s| - b, m) > j
  }

  lemma {:induction false} ReadsGrow(n: nat, k: nat, m: nat)
    requires 0 < k <= m
    ensures Reads(n + k, m) <= 1 + Reads(n, m)
    decreases n
  {
    if n > m {
      ReadsGrow(n - m, k, m);
    }
  }

  lemma {:induction false} ReadsNeeded(s: seq<byte>, chunks: seq<seq<byte>>, m: nat)
    requires m > 0 && CutOf(s, chunks, m)
    ensures |chunks| >= Reads(|s|, m)
    decreases |chunks|
  {
    if chunks != [] {
      ReadsNeeded(Flatten(chunks[1..]), chunks[1..], m);
      ReadsGrow(|Flatten(chunks[1..])|, |chunks[0]|, m);
    }
  }

  lemma {:induction false} SureKeepsUp(s: seq<byte>, at: nat, chunks: seq<seq<byte>>, m: nat, j: nat)
    requires m > 0 && at <= |s| && CutOf(s[at..], chunks, m) && Sure(s, m, j)
    ensures KeepsUp(s, at, chunks, j)
    decreases |chunks|
  {
    if chunks != [] {
      var at' := at + |chunks[0]|;
      assert s[at'..] == s[at..][|chunks[0]|..] == Flatten(chunks[1..]);
      ReadsNeeded(s[at'..], chunks[1..], m);
      SureKeepsUp(s, at', chunks[1..], m, j);
    }
  }

  /** s in pieces of m bytes. */
  function Pieces(s: seq<byte>, m: nat): (chunks: seq<seq<byte>>)
    requires m > 0
    decreases |s|
  {
    if s == [] then [] else if |s| <= m then [s] else [s[..m]] + Pieces(s[m..], m)
  }

  lemma {:induction false} PiecesCut(s: seq<byte>, m: nat)
    requires m > 0
    ensures CutOf(s, Pieces(s, m), m) && |Pieces(s, m)| == Reads(|s|, m)
    decreases |s|
  {
    if |s| > m {
      var more := Pieces(s[m..], m);
      PiecesCut(s[m..], m);
      assert ([s[..m]] + more)[1..] == more;
      assert s == s[..m] + s[m..];
    } else if s != [] {
      assert [s][1..] == [] && s + [] == s;
    }
  }

  lemma {:induction false} ReadsOfOne(n: nat)
    ensures Reads(n, 1) == n
  {
    if n > 1 {
      ReadsOfOne(n - 1);
    }
  }

  lemma {:induction false} JoinedKeepsUp(s: seq<byte>, at: nat, xs: seq<seq<byte>>, ys: seq<seq<byte>>, j: nat)
    requires xs != [] && at + |Flatten(xs + ys)| <= |s| && KeepsUp(s, at, xs + ys, j)
    ensures |Flatten(xs + ys)| == |Flatten(xs)| + |Flatten(ys)|
    ensures FramesIn(s[..at + |Flatten(xs)|]) + |ys| > j
    decreases |xs|
  {
    FlattenAppend(xs, ys);
    var at' := at + |xs[0]|;
    assert (xs + ys)[0] == xs[0] && (xs + ys)[1..] == xs[1..] + ys;
    if |xs| == 1 {
      assert xs[1..] == [] && [] + ys == ys;
    } else {
      JoinedKeepsUp(s, at', xs[1..], ys, j);
    }
  }

  /** Where a stream falls behind somewhere, some cut of it does: byte by byte up to there, then
      as much at a time as recv takes. */
  lemma LaggingCut(s: seq<byte>, m: nat, j: nat, b: nat) returns (chunks: seq<seq<byte>>)
    requires m > 0 && b <= |s| && FramesIn(s[..b]) + Reads(|s| - b, m) <= j
    ensures CutOf(s, chunks, m) && !(|chunks| > j && KeepsUp(s, 0, chunks, j))
  {
    var xs, ys := Pieces(s[..b], 1), Pieces(s[b..], m);
    PiecesCut(s[..b], 1);
    PiecesCut(s[b..], m);
    chunks := xs + ys;
    FlattenAppend(xs, ys);
    assert s == s[..b] + s[b..];
    if xs == [] {
      assert b == 0;
    } else if KeepsUp(s, 0, chunks, j) {
      JoinedKeepsUp(s, 0, xs, ys, j);
      assert false;
    }
  }

  lemma NotYetWhole(t: seq<byte>, more: seq<byte>)
    requires !Whole(t) && Whole(t + more)
    ensures HEADER_SIZE + FromBe32(t + more) > |t|
  {
    if |t| >= HEADER_SIZE {
      assert t[..HEADER_SIZE] == (t + more)[..HEADER_SIZE];
    }
  }

  /** Each frame takes at least one byte of what comes behind an incomplete one. */
  lemma {:induction false} FramesNeedBytes(t: seq<byte>, more: seq<byte>)
    requires !Whole(t)
    ensures FramesIn(t + more) <= |more|
    decreases |more|
  {
    var s := t + more;
    if Whole(s) {
      var d := CutStep(s);
      var n := HEADER_SIZE + FromBe32(s);
      NotYetWhole(t, more);
      assert d.rest == [] + more[n - |t|..];
      FramesNeedBytes([], more[n - |t|..]);
    }
  }

  lemma FramesStillToCome(s: seq<byte>, b: nat)
    requires b <= |s|
    ensures FramesIn(s) <= FramesIn(s[..b]) + |s| - b
  {
    var p := Split(s[..b]);
    SplitResumes(s[..b], s[b..]);
    assert s == s[..b] + s[b..];
    SplitEnds(s[..b]);
    FramesNeedBytes(p.tail, s[b..]);
  }

  lemma {:induction false} SplitEnds(s: seq<byte>)
    ensures !Whole(Split(s).tail)
    decreases |s|
  {
    if Whole(s) {
      SplitEnds(CutStep(s).rest);
    }
  }

  /** Read byte by byte, login keeps up with every frame there is. */
  lemma {:induction false} SlowKeepsUp(s: seq<byte>, at: nat, j: nat)
    requires at <= |s| && j < FramesIn(s)
    ensures CutOf(s[at..], Pieces(s[at..], 1), 1) && KeepsUp(s, at, Pieces(s[at..], 1), j)
    decreases |s| - at
  {
    var rest := s[at..];
    PiecesCut(rest, 1);
    ReadsOfOne(|rest|);
    if rest != [] {
      FramesStillToCome(s, at + 1);
      SlowKeepsUp(s, at + 1, j);
      assert s[at + 1..] == rest[1..];
      if |rest| == 1 {
        assert Pieces(rest, 1)[1..] == [] == Pieces(rest[1..], 1);
      } else {
        assert Pieces(rest, 1)[1..] == Pieces(rest[1..], 1);
      }
    }
  }

  lemma WholeOutcome(s: seq<byte>, chunks: seq<seq<byte>>, m: nat, accepts: seq<byte> -> bool)
    requires CutOf(s, chunks, m)
    ensures var j := FirstWelcome(Split(s).frames, accepts);
            LogsIn([], chunks, accepts) <==> |chunks| > j && KeepsUp(s, 0, chunks, j)
  {
    OutcomeOfCut([], chunks, accepts);
    assert [] + s == s;
  }

  lemma NeverWelcome(s: seq<byte>, chunks: seq<seq<byte>>, m: nat, accepts: seq<byte> -> bool)
    requires CutOf(s, chunks, m) && FirstWelcome(Split(s).frames, accepts) == FramesIn(s)
    ensures !LogsIn([], chunks, accepts)
  {
    WholeOutcome(s, chunks, m, accepts);
    assert chunks + [] == chunks && s[..|s|] == s;
    if chunks != [] && KeepsUp(s, 0, chunks, FramesIn(s)) {
      JoinedKeepsUp(s, 0, chunks, [], FramesIn(s));
      assert false;
    }
  }

  /** Whether login succeeds is the same for every way recv may cut the stream, at most m bytes
      at a time, if and only if no frame welcomes the user, or wherever reading has got to the
      frames there and the recvs bound to come are more than the frames before the welcome. */
  lemma LoginDependsOnCut(s: seq<byte>, m: nat, accepts: seq<byte> -> bool)
    requires m > 0
    ensures var j := FirstWelcome(Split(s).frames, accepts);
            (forall a: seq<seq<byte>>, b: seq<seq<byte>> | CutOf(s, a, m) && CutOf(s, b, m) ::
               LogsIn([], a, accepts) == LogsIn([], b, accepts))
            <==> j == FramesIn(s) || Sure(s, m, j)
  {
    var j := FirstWelcome(Split(s).frames, accepts);
    FirstWelcomeIsFirst(Split(s).frames, accepts);
    if j == FramesIn(s) {
      forall a: seq<seq<byte>> | CutOf(s, a, m)
        ensures !LogsIn([], a, accepts)
      {
        NeverWelcome(s, a, m, accepts);
      }
    } else if Sure(s, m, j) {
      forall a: seq<seq<byte>> | CutOf(s, a, m)
        ensures LogsIn([], a, accepts)
      {
        SureLogsIn(s, a, m, accepts);
      }
    } else {
      var b: nat :| b <= |s| && FramesIn(s[..b]) + Reads(|s| - b, m) <= j;
      var lagging := LaggingCut(s, m, j, b);
      WholeOutcome(s, lagging, m, accepts);
      var slow := Pieces(s, 1);
      SlowLogsIn(s, accepts);
      assert CutOf(s, slow, m);
      assert LogsIn([], slow, accepts) != LogsIn([], lagging, accepts);
    }
  }

  lemma SureLogsIn(s: seq<byte>, chunks: seq<seq<byte>>, m: nat, accepts: seq<byte> -> bool)
    requires m > 0 && CutOf(s, chunks, m) && Sure(s, m, FirstWelcome(Split(s).frames, accepts))
    ensures LogsIn([], chunks, accepts)
  {
    WholeOutcome(s, chunks, m, accepts);
    assert s[0..] == s && s[..0] == [];
    assert FramesIn([]) == 0;
    SureKeepsUp(s, 0, chunks, m, FirstWelcome(Split(s).frames, accepts));
    ReadsNeeded(s, chunks, m);
    assert FramesIn(s[..0]) + Reads(|s| - 0, m) > FirstWelcome(Split(s).frames, accepts);
  }

  lemma SlowLogsIn(s: seq<byte>, accepts: seq<byte> -> bool)
    requires FirstWelcome(Split(s).frames, accepts) < FramesIn(s)
    ensures CutOf(s, Pieces(s, 1), 1) && LogsIn([], Pieces(s, 1), accepts)
  {
    assert s[0..] == s;
    SlowKeepsUp(s, 0, FirstWelcome(Split(s).frames, accepts));
    WholeOutcome(s, Pieces(s, 1), 1, accepts);
    PiecesCut(s, 1);
    ReadsOfOne(|s|);
    FramesNeedBytes([], s);
    assert [] + s == s;
  }

  lemma SureInOneRecv(s: seq<byte>, m: nat, j: nat)
    requires 0 < |s| <= m && j < FramesIn(s)
    ensures Sure(s, m, j) <==> j == 0
  {
    assert s[..|s|] == s && s[..0] == [];
    assert FramesIn([]) == 0;
    if j > 0 {
      assert FramesIn(s[..0]) + Reads(|s| - 0, m) == 1;
    }
  }

  /** For a stream that one recv can return, the condition is that no frame welcomes the user or
      that the first one does. */
  lemma OneRecvCanTakeAll(s: seq<byte>, m: nat, accepts: seq<byte> -> bool)
    requires 0 < |s| <= m
    ensures (forall a: seq<seq<byte>>, b: seq<seq<byte>> | CutOf(s, a, m) && CutOf(s, b, m) ::
               LogsIn([], a, accepts) == LogsIn([], b, accepts))
      <==> (forall i | 0 <= i < FramesIn(s) :: !Welcomes(Split(s).frames[i], accepts))
           || (FramesIn(s) > 0 && Welcomes(Split(s).frames[0], accepts))
  {
    LoginDependsOnCut(s, m, accepts);
    hide LogsIn;
    hide CutOf;
    hide Sure;
    hide Split;
    hide Welcomes;
    hide FirstWelcome;
    var j := FirstWelcome(Split(s).frames, accepts);
    FirstWelcomeIsFirst(Split(s).frames, accepts);
    if j < FramesIn(s) {
      SureInOneRecv(s, m, j);
    }
  }

  lemma StepOfFrame(x: seq<byte>, more: seq<byte>)
    requires |x| <= MAX_PAYLOAD
    ensures CutStep([] + (Encode(x) + more)) == Decoded(Some(x), more)
    ensures more == [] ==> CutStep([] + Encode(x)) == Decoded(Some(x), [])
  {
    EncodeDecode(x, more);
    EncodedHeader(x, more);
    CutIsDecode(Encode(x) + more);
    assert [] + (Encode(x) + more) == Encode(x) + more;
    assert more == [] ==> [] + Encode(x) == Encode(x) + more;
  }

  lemma CutInTwo(a: seq<byte>, b: seq<byte>)
    ensures Flatten([a, b]) == a + b && Flatten([a + b]) == a + b
  {
    assert [a, b] == [a] + [b];
    FlattenAppend([a], [b]);
    assert Flatten([a]) == a + Flatten<byte>([]) && Flatten([b]) == b + Flatten<byte>([]);
  }

  /** A welcome that recv returns together with the frame before it is not seen; had it come
      in a recv of its own, it would be. */
  lemma WelcomeTogether(x: seq<byte>, y: seq<byte>, accepts: seq<byte> -> bool)
    requires |x| <= MAX_PAYLOAD && |y| <= MAX_PAYLOAD
    requires !Welcomes(x, accepts) && Welcomes(y, accepts)
    ensures !LogsIn([], [Encode(x) + Encode(y)], accepts)
    ensures LogsIn([], [Encode(x), Encode(y)], accepts)
    ensures |Encode(x)| + |Encode(y)| <= RECV_SIZE ==>
      var s := Encode(x) + Encode(y);
      CutOf(s, [s], RECV_SIZE) && CutOf(s, [Encode(x), Encode(y)], RECV_SIZE)
  {
    CutInTwo(Encode(x), Encode(y));
    StepOfFrame(x, Encode(y));
    StepOfFrame(x, []);
    StepOfFrame(y, []);
    hide CutStep;
    hide Encode;
    var together, apart: seq<seq<byte>> := [Encode(x) + Encode(y)], [Encode(x), Encode(y)];
    EncodedLength(x, y);
    assert together[1..] == [] && apart[1..] == [Encode(y)] && apart[1..][1..] == [];
    assert !LoginRun(Encode(y), together[1..], accepts).loggedIn;
    assert LoginRun([], apart[1..], accepts).loggedIn;
  }

  lemma EncodedLength(x: seq<byte>, y: seq<byte>)
    ensures Encode(x) != [] && Encode(y) != [] && Encode(x) + Encode(y) != []
  {
  }
}
