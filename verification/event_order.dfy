/** The chat's assumption about its events, from the threads that produce them: every run of
    `Lifecycle` hands the chat an admissible sequence of inputs. */
module EventOrder {
  import opened Bytes
  import L = Lifecycle
  import C = ChatState

  /** Parsing, and the time at which the event taken from position k is processed. */
  type Parser = L.Payload -> Option<C.ClientMessage>
  type Clock = nat -> real

  function EventOf(e: L.Event, parse: Parser): C.Event {
    match e
    case Connect(c) => C.Connect(c)
    case Disconnect(c) => C.Disconnect(c)
    case Message(c, payload) => C.Message(c, parse(payload))
  }

  /** What the chat notices of a step: the event it processes, or a flag that is set. */
  function InputOf(st: L.State, a: L.Action, parse: Parser, clock: Clock): seq<C.Input> {
    match a
    case Process => if st.inHand.Some? then [C.Deliver(EventOf(st.inHand.value, parse), clock(st.head))] else []
    case Exchange(c) => [C.NetworkClose(c)]
    case _ => []
  }

  function Inputs(st: L.State, actions: seq<L.Action>, parse: Parser, clock: Clock): seq<C.Input>
    decreases |actions|
  {
    if actions == [] then []
    else InputOf(st, actions[0], parse, clock) + Inputs(L.Next(st, actions[0]), actions[1..], parse, clock)
  }

  /** The chat is as far as the logic thread: flags it has seen, sessions and goodbyes are
      those of events it has finished with. */
  ghost predicate InStep(st: L.State, chat: C.State)
    requires L.Queued(st)
  {
    && st.closed <= chat.closed
    && (forall c | c in chat.sessions :: L.Connect(c) in L.Finished(st))
    && (forall c | c in chat.gone :: L.Disconnect(c) in L.Finished(st))
  }

  /** New sessions come from CONNECT only, goodbyes from DISCONNECT, and flags stay set. */
  lemma StepAdds(chat: C.State, i: C.Input)
    ensures chat.closed <= C.Step(chat, i).closed
    ensures forall c | c in C.Step(chat, i).sessions :: c in chat.sessions || (i.Deliver? && i.evt == C.Connect(c))
    ensures forall c | c in C.Step(chat, i).gone :: c in chat.gone || (i.Deliver? && i.evt == C.Disconnect(c))
  {
  }

  lemma FinishedGrows(st: L.State, a: L.Action)
    requires L.Queued(st) && L.Enabled(st, a)
    ensures L.Queued(L.Next(st, a))
    ensures L.Finished(L.Next(st, a)) == if a.Process? then L.Finished(st) + [st.inHand.value] else L.Finished(st)
  {
  }

  lemma NoSecondConnect(before: seq<L.Event>, e: L.Event, c: L.ConnId, frames: seq<L.Payload>)
    requires before != [] && before + [e] <= [L.Connect(c)] + L.Messages(c, frames)
    ensures e.Message?
  {
    assert e == (before + [e])[|before|] == ([L.Connect(c)] + L.Messages(c, frames))[|before|];
  }

  /** A CONNECT that comes up is the connection's first. */
  lemma ConnectIsNew(st: L.State, c: L.ConnId)
    requires L.Inv(st) && st.inHand == Some(L.Connect(c))
    ensures L.Connect(c) !in L.Finished(st)
  {
    var done, e := L.Finished(st), L.Connect(c);
    var st' := L.Next(st, L.Process);
    assert L.SoundFor(st, c) && e in st.history;
    assert L.Finished(st') == done + [e];
    L.FinishedPrefix(st', c);
    L.OnlySnoc(done, e, c);
    if e in done {
      var k :| 0 <= k < |done| && done[k] == e;
      L.OnlyHas(done, k, c);
      NoSecondConnect(L.Only(done, c), e, c, L.Frames(st, c));
      assert false;
    }
  }

  /** A DISCONNECT that comes up is the only one, and its connection's flag is set. */
  lemma DisconnectIsNew(st: L.State, c: L.ConnId)
    requires L.Inv(st) && st.inHand == Some(L.Disconnect(c))
    ensures L.Disconnect(c) !in L.Finished(st) && c in st.closed
  {
    var e := L.Disconnect(c);
    assert st.history[st.head - 1] == e && e in st.history;
  }

  lemma ProcessIsAdmissible(st: L.State, chat: C.State, parse: Parser, now: real)
    requires L.Inv(st) && st.inHand.Some? && InStep(st, chat)
    ensures C.Admissible(chat, C.Deliver(EventOf(st.inHand.value, parse), now))
  {
    match st.inHand.value {
      case Connect(c) => ConnectIsNew(st, c);
      case Disconnect(c) => DisconnectIsNew(st, c);
      case Message(_, _) =>
    }
  }

  /** One step of any thread: what it hands the chat is admissible, and the chat keeps step. */
  lemma StepFollows(st: L.State, a: L.Action, chat: C.State, parse: Parser, clock: Clock)
    requires L.Inv(st) && L.Enabled(st, a) && InStep(st, chat)
    ensures L.Inv(L.Next(st, a))
    ensures var input := InputOf(st, a, parse, clock);
            C.AdmissibleRun(chat, input) && InStep(L.Next(st, a), C.Run(chat, input))
  {
    L.NextKeeps(st, a);
    FinishedGrows(st, a);
    hide L.Inv;
    hide L.Finished;
    var input := InputOf(st, a, parse, clock);
    if input != [] {
      if a.Process? {
        ProcessIsAdmissible(st, chat, parse, clock(st.head));
      }
      StepAdds(chat, input[0]);
      assert input[1..] == [];
      assert C.AdmissibleRun(C.Step(chat, input[0]), []);
      assert C.Run(chat, input) == C.Step(chat, input[0]);
    }
  }

  lemma {:induction false} RunsJoin(st: C.State, xs: seq<C.Input>, ys: seq<C.Input>)
    ensures C.Run(st, xs + ys) == C.Run(C.Run(st, xs), ys)
    ensures C.AdmissibleRun(st, xs + ys) <==> C.AdmissibleRun(st, xs) && C.AdmissibleRun(C.Run(st, xs), ys)
    decreases |xs|
  {
    if xs == [] {
      assert xs + ys == ys;
    } else {
      assert (xs + ys)[0] == xs[0] && (xs + ys)[1..] == xs[1..] + ys;
      RunsJoin(C.Step(st, xs[0]), xs[1..], ys);
    }
  }

  lemma {:induction false} RunFollows(st: L.State, actions: seq<L.Action>, chat: C.State, parse: Parser, clock: Clock)
    requires L.Inv(st) && L.IsRun(st, actions) && InStep(st, chat)
    ensures C.AdmissibleRun(chat, Inputs(st, actions, parse, clock))
    decreases |actions|
  {
    if actions != [] {
      var input := InputOf(st, actions[0], parse, clock);
      StepFollows(st, actions[0], chat, parse, clock);
      RunFollows(L.Next(st, actions[0]), actions[1..], C.Run(chat, input), parse, clock);
      RunsJoin(chat, input, Inputs(L.Next(st, actions[0]), actions[1..], parse, clock));
    }
  }

  /** In every interleaving of reactor, logic thread and closers the chat gets an admissible
      run, so its indexes are consistent whatever the threads do. */
  lemma EveryInterleavingIsAdmissible(actions: seq<L.Action>, parse: Parser, clock: Clock)
    requires L.IsRun(L.START, actions)
    ensures C.AdmissibleRun(C.EMPTY, Inputs(L.START, actions, parse, clock))
    ensures C.Inv(C.Run(C.EMPTY, Inputs(L.START, actions, parse, clock)))
  {
    L.StartIsFine();
    RunFollows(L.START, actions, C.EMPTY, parse, clock);
    C.EveryRunIsConsistent(Inputs(L.START, actions, parse, clock));
  }

  // --- What the chat is handed, from the actions alone --------------------------------------

  function EventsOf(es: seq<L.Event>, parse: Parser): seq<C.Event> {
    seq(|es|, k requires 0 <= k < |es| => EventOf(es[k], parse))
  }

  function DeliveredIn(inputs: seq<C.Input>): seq<C.Event> {
    if inputs == [] then []
    else (if inputs[0].Deliver? then [inputs[0].evt] else []) + DeliveredIn(inputs[1..])
  }

  lemma {:induction false} DeliveredAppend(xs: seq<C.Input>, ys: seq<C.Input>)
    ensures DeliveredIn(xs + ys) == DeliveredIn(xs) + DeliveredIn(ys)
  {
    if xs == [] {
      assert xs + ys == ys;
    } else {
      assert (xs + ys)[0] == xs[0] && (xs + ys)[1..] == xs[1..] + ys;
      DeliveredAppend(xs[1..], ys);
      Assoc(if xs[0].Deliver? then [xs[0].evt] else [], DeliveredIn(xs[1..]), DeliveredIn(ys));
    }
  }

  lemma {:induction false} InputsFollowFinished(st: L.State, actions: seq<L.Action>, parse: Parser, clock: Clock)
    requires L.Queued(st) && L.IsRun(st, actions)
    ensures L.Queued(L.Run(st, actions))
    ensures EventsOf(L.Finished(L.Run(st, actions)), parse)
      == EventsOf(L.Finished(st), parse) + DeliveredIn(Inputs(st, actions, parse, clock))
    ensures forall c :: C.NetworkClose(c) in Inputs(st, actions, parse, clock) <==> L.Exchange(c) in actions
    decreases |actions|
  {
    if actions == [] {
      assert EventsOf(L.Finished(st), parse) + [] == EventsOf(L.Finished(st), parse);
    } else {
      var a, rest := actions[0], actions[1..];
      var now, later := InputOf(st, a, parse, clock), Inputs(L.Next(st, a), rest, parse, clock);
      FinishedGrows(st, a);
      InputsFollowFinished(L.Next(st, a), rest, parse, clock);
      DeliveredAppend(now, later);
      OneInput(st, a, parse, clock);
      Assoc(EventsOf(L.Finished(st), parse), DeliveredIn(now), DeliveredIn(later));
      assert actions == [a] + rest;
    }
  }

  lemma OneInput(st: L.State, a: L.Action, parse: Parser, clock: Clock)
    requires L.Queued(st) && L.Enabled(st, a)
    ensures L.Queued(L.Next(st, a))
    ensures EventsOf(L.Finished(L.Next(st, a)), parse)
      == EventsOf(L.Finished(st), parse) + DeliveredIn(InputOf(st, a, parse, clock))
    ensures forall c :: C.NetworkClose(c) in InputOf(st, a, parse, clock) <==> a == L.Exchange(c)
  {
    FinishedGrows(st, a);
    var now := InputOf(st, a, parse, clock);
    assert now != [] ==> now[1..] == [];
    if a.Process? {
      assert DeliveredIn(now) == [EventOf(st.inHand.value, parse)] + DeliveredIn(now[1..]);
    } else {
      assert DeliveredIn(now) == [];
      assert EventsOf(L.Finished(st), parse) + [] == EventsOf(L.Finished(st), parse);
    }
  }

  /** The chat is delivered exactly the events processed, oldest first, parsed; and it sees a
      connection's flag set exactly if close_conn was called on it. */
  lemma TheChatIsHandedWhatIsProcessed(actions: seq<L.Action>, parse: Parser, clock: Clock)
    requires L.IsRun(L.START, actions)
    ensures L.Processed(actions) <= |L.PushedBy(actions)|
    ensures DeliveredIn(Inputs(L.START, actions, parse, clock))
      == EventsOf(L.PushedBy(actions)[..L.Processed(actions)], parse)
    ensures forall c :: C.NetworkClose(c) in Inputs(L.START, actions, parse, clock) <==> L.Exchange(c) in actions
  {
    InputsFollowFinished(L.START, actions, parse, clock);
    L.WhatARunLeaves(actions, 0);
    assert L.Finished(L.START) == [] && EventsOf([], parse) == [];
    var st := L.Run(L.START, actions);
    assert L.Finished(st) == L.PushedBy(actions)[..L.Processed(actions)];
  }
}
