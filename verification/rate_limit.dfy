/** The rate limiter inside a run of the chat: which message of a session, if any, makes the
    server close it. From HandleMessage in v4/chatapp.h. */
module RateLimits {
  import opened Bytes
  import opened TokenBucket
  import opened ChatState

  /** The input is a parsed message that gets as far as c's limiter. */
  predicate Reaches(st: State, i: Input, c: ConnId) {
    i.Deliver? && i.evt.Message? && i.evt.conn == c && c !in st.closed && c in st.sessions && i.evt.payload.Some?
  }

  /** The limiter refuses the input, so the server closes c. */
  predicate Refuses(st: State, i: Input, c: ConnId) {
    Reaches(st, i, c) && !Charge(st.sessions[c].bucket, i.now).0
  }

  /** When the messages came that got as far as c's limiter. */
  function Times(st: State, inputs: seq<Input>, c: ConnId): seq<real>
    decreases |inputs|
  {
    if inputs == [] then []
    else
      (if Reaches(st, inputs[0], c) then [inputs[0].now] else []) + Times(Step(st, inputs[0]), inputs[1..], c)
  }

  /** A step charges c's bucket exactly if it reaches the limiter, and nothing reopens c. */
  lemma StepCharges(st: State, i: Input, c: ConnId)
    requires Admissible(st, i) && c in st.sessions
    ensures c in Step(st, i).sessions
    ensures Step(st, i).sessions[c].bucket ==
      if Reaches(st, i, c) then Charge(st.sessions[c].bucket, i.now).1 else st.sessions[c].bucket
    ensures c in st.closed || Refuses(st, i, c) ==> c in Step(st, i).closed
  {
  }

  /** While c is open its bucket is that of the messages since it was full, all accepted. */
  predicate Metered(st: State, c: ConnId, start: real, times: seq<real>) {
    && c in st.sessions
    && (c !in st.closed ==> AllAccepted(Fresh(start), times) && st.sessions[c].bucket == After(Fresh(start), times))
  }

  lemma StepMeters(st: State, i: Input, c: ConnId, start: real, times: seq<real>)
    requires Admissible(st, i) && Metered(st, c, start, times)
    ensures Metered(Step(st, i), c, start, times + if Reaches(st, i, c) then [i.now] else [])
  {
    StepCharges(st, i, c);
    if Reaches(st, i, c) {
      ChargeSnoc(Fresh(start), times, i.now);
    } else {
      assert times + [] == times;
    }
  }

  lemma {:induction false} RunMeters(st: State, inputs: seq<Input>, c: ConnId, start: real, times: seq<real>)
    requires AdmissibleRun(st, inputs) && Metered(st, c, start, times)
    ensures Metered(Run(st, inputs), c, start, times + Times(st, inputs, c))
    decreases |inputs|
  {
    if inputs == [] {
      assert times + [] == times;
    } else {
      var now := if Reaches(st, inputs[0], c) then [inputs[0].now] else [];
      StepMeters(st, inputs[0], c, start, times);
      RunMeters(Step(st, inputs[0]), inputs[1..], c, start, times + now);
      Assoc(times, now, Times(Step(st, inputs[0]), inputs[1..], c));
    }
  }

  lemma NextBurst(start: real, before: seq<real>, now: real)
    requires Chronological(start, before + [now]) && AllAccepted(Fresh(start), before)
    ensures Charge(After(Fresh(start), before), now).0 <==> !BurstAt(before + [now], |before|)
    ensures forall k: nat | k < |before| :: !BurstAt(before + [now], k)
  {
    hide *;
    var times := before + [now];
    ChargeSnoc(Fresh(start), before, now);
    assert times[..|times|] == times && times[..|before|] == before;
    LevelAfter(start, times, |before|);
    LevelAfter(start, times, |times|);
  }

  /** In any run, from c's CONNECT on: the limiter closes c at a message if and only if that
      message ends a stretch of c's own messages longer than 60 plus the seconds it spans, and
      it is then the first that does. Whatever other connections do makes no difference. */
  lemma ClosedAtTheFirstBurst(st: State, c: ConnId, start: real, inputs: seq<Input>, i: Input)
    requires c !in st.sessions && c !in st.closed
    requires var st' := Step(st, Deliver(Connect(c), start));
             && AdmissibleRun(st', inputs) && Reaches(Run(st', inputs), i, c)
             && Chronological(start, Times(st', inputs, c) + [i.now])
    ensures var st' := Step(st, Deliver(Connect(c), start));
            var times := Times(st', inputs, c) + [i.now];
            && (Refuses(Run(st', inputs), i, c) <==> BurstAt(times, |times| - 1))
            && forall k: nat | k < |times| - 1 :: !BurstAt(times, k)
  {
    var st' := Step(st, Deliver(Connect(c), start));
    var before := Times(st', inputs, c);
    assert Metered(st', c, start, []);
    RunMeters(st', inputs, c, start, []);
    assert [] + before == before;
    hide Times;
    hide Run;
    hide AdmissibleRun;
    hide BurstAt;
    hide Chronological;
    NextBurst(start, before, i.now);
  }

  /** After a refusal no message of c gets as far as the limiter again. */
  lemma {:induction false} RefusedOnce(st: State, inputs: seq<Input>, c: ConnId)
    requires AdmissibleRun(st, inputs) && c in st.sessions && c in st.closed
    ensures Times(st, inputs, c) == []
    decreases |inputs|
  {
    if inputs != [] {
      StepCharges(st, inputs[0], c);
      RefusedOnce(Step(st, inputs[0]), inputs[1..], c);
    }
  }
}
