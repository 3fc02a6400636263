/** The life of connections across threads: the reactor accepts, reads and pushes events, any
    thread may run close_conn, and the logic thread pops events and acts on those that pass
    the closed check of ProcessEvent. Each step is one atomic action of one thread.

    From v4/webserver.cpp: accept_loop, handle_read, close_conn; from v4/chatapp.h: LogicLoop
    and ProcessEvent. */
module Lifecycle {
  import opened Bytes

  type ConnId = nat
  type Payload = seq<byte>

  datatype Event = Connect(conn: ConnId) | Disconnect(conn: ConnId) | Message(conn: ConnId, payload: Payload)

  datatype State = State(
    /** Connection objects that exist, and those whose CONNECT has been pushed. */
    accepted: set<ConnId>,
    announced: set<ConnId>,
    closed: set<ConnId>,
    /** Won the exchange in close_conn and have not pushed DISCONNECT yet. */
    closing: set<ConnId>,
    /** Everything pushed on event_queue_, the part already popped, and the event in hand. */
    history: seq<Event>,
    head: nat,
    inHand: Option<Event>,
    /** Payloads decoded from each connection, in wire order. */
    wire: map<ConnId, seq<Payload>>,
    /** The events ProcessEvent acted on. */
    acted: seq<Event>)

  const START := State({}, {}, {}, {}, [], 0, None, map[], [])

  datatype Action =
    | Accept(c: ConnId)
    | PushConnect(c: ConnId)
    | PushMessage(c: ConnId, payload: Payload)
    | Exchange(c: ConnId)
    | PushDisconnect(c: ConnId)
    | Pop
    | Process

  /** accept_loop finishes with a connection before the reactor serves any other; until CONNECT
      is pushed no other thread has the connection to close it. */
  predicate Enabled(st: State, a: Action) {
    match a
    case Accept(c) => c !in st.accepted
    case PushConnect(c) => c in st.accepted && c !in st.announced
    case PushMessage(c, _) => c in st.announced
    case Exchange(c) => c in st.announced
    case PushDisconnect(c) => c in st.closing
    case Pop => st.inHand.None? && st.head < |st.history|
    case Process => st.inHand.Some?
  }

  function Frames(st: State, c: ConnId): seq<Payload> {
    if c in st.wire then st.wire[c] else []
  }

  function Next(st: State, a: Action): State {
    match a
    case Accept(c) => st.(accepted := st.accepted + {c})
    case PushConnect(c) => st.(announced := st.announced + {c}, history := st.history + [Connect(c)])
    case PushMessage(c, p) =>
      st.(history := st.history + [Message(c, p)], wire := st.wire[c := Frames(st, c) + [p]])
    case Exchange(c) =>
      if c in st.closed then st else st.(closed := st.closed + {c}, closing := st.closing + {c})
    case PushDisconnect(c) => st.(closing := st.closing - {c}, history := st.history + [Disconnect(c)])
    case Pop =>
      if st.head < |st.history| then st.(inHand := Some(st.history[st.head]), head := st.head + 1) else st
    case Process =>
      if st.inHand.None? then st
      else
        var e := st.inHand.value;
        var drop := e.conn in st.closed && !e.Disconnect?;
        st.(inHand := None, acted := if drop then st.acted else st.acted + [e])
  }

  // --- The events of one connection -----------------------------------------------------

  function OfConn(c: ConnId): Event -> bool {
    (e: Event) => e.conn == c && !e.Disconnect?
  }

  /** The CONNECT and MESSAGE events of c, in order. */
  function Only(es: seq<Event>, c: ConnId): seq<Event> {
    Filter(es, OfConn(c))
  }

  lemma OnlySnoc(es: seq<Event>, e: Event, c: ConnId)
    ensures Only(es + [e], c) == if e.conn == c && !e.Disconnect? then Only(es, c) + [e] else Only(es, c)
  {
    FilterAppend(es, [e], OfConn(c));
    assert [e][1..] == [];
    assert Only([e], c) == (if OfConn(c)(e) then [e] else []) + Only([e][1..], c);
  }

  function Messages(c: ConnId, ps: seq<Payload>): seq<Event> {
    seq(|ps|, i requires 0 <= i < |ps| => Message(c, ps[i]))
  }

  /** CONNECT, then the frames in wire order. */
  function Script(st: State, c: ConnId): seq<Event> {
    if c in st.announced then [Connect(c)] + Messages(c, Frames(st, c)) else []
  }

  /** The events that ProcessEvent has finished with. */
  function Finished(st: State): seq<Event>
    requires st.head <= |st.history| && (st.inHand.Some? ==> st.head > 0)
  {
    st.history[..if st.inHand.Some? then st.head - 1 else st.head]
  }

  /** The queue and the cursor of the logic thread. */
  predicate Queued(st: State) {
    && st.head <= |st.history|
    && (st.inHand.Some? ==> st.head > 0 && st.inHand.value == st.history[st.head - 1])
  }

  predicate Registered(st: State) {
    && st.closing <= st.closed <= st.announced <= st.accepted
    && st.wire.Keys <= st.announced
    && (forall e | e in st.history :: e.conn in st.announced)
  }

  /** Exactly one DISCONNECT is pushed for every closed connection, and none for an open one. */
  ghost predicate OneDisconnect(st: State) {
    && (forall i, j | 0 <= i < j < |st.history| && st.history[i].Disconnect? :: st.history[i] != st.history[j])
    && (forall c :: Disconnect(c) in st.history <==> c in st.closed && c !in st.closing)
  }

  /** Nothing of a connection comes after its DISCONNECT, not even another one. */
  predicate DisconnectsLast(es: seq<Event>) {
    forall i, j | 0 <= i < j < |es| && es[i].Disconnect? :: es[j].conn != es[i].conn
  }

  /** Nothing of a connection comes before its CONNECT. */
  predicate ConnectsFirst(es: seq<Event>) {
    forall i, j | 0 <= i < j < |es| && es[j].Connect? :: es[i].conn != es[j].conn
  }

  /** What was pushed for c is its script. What was acted on is a first part of it: all that
      was finished, as long as c is open. Its DISCONNECT was acted on once that is finished. */
  ghost predicate SoundFor(st: State, c: ConnId)
    requires Queued(st)
  {
    && Only(st.history, c) == Script(st, c)
    && Only(st.acted, c) <= Script(st, c)
    && (c !in st.closed ==> Only(st.acted, c) == Only(Finished(st), c))
    && (Disconnect(c) in st.acted <==> Disconnect(c) in Finished(st))
  }

  ghost predicate Inv(st: State) {
    && Queued(st)
    && Registered(st)
    && OneDisconnect(st)
    && DisconnectsLast(st.acted)
    && ConnectsFirst(st.acted)
    && forall c :: SoundFor(st, c)
  }

  lemma StartIsFine()
    ensures Inv(START)
  {
    assert START.history[..0] == [];
  }

  /** Pushing an event leaves everything finished as it was. */
  lemma PushKeepsFinished(st: State, e: Event)
    requires Queued(st)
    ensures var st' := st.(history := st.history + [e]);
            Queued(st') && Finished(st') == Finished(st)
  {
  }

  lemma FinishedIsPushed(st: State, e: Event)
    requires Queued(st) && e in Finished(st)
    ensures e in st.history
  {
  }

  lemma PushConnectKeeps(st: State, c: ConnId)
    requires Inv(st) && Enabled(st, PushConnect(c))
    ensures Inv(Next(st, PushConnect(c)))
  {
    var st' := Next(st, PushConnect(c));
    PushKeepsFinished(st, Connect(c));
    forall d
      ensures SoundFor(st', d)
    {
      assert SoundFor(st, d);
      OnlySnoc(st.history, Connect(c), d);
      if d == c {
        assert Messages(c, Frames(st', c)) == [];
        assert [Connect(c)] + Messages(c, Frames(st', c)) == [] + [Connect(c)];
      }
    }
  }

  lemma PushMessageKeeps(st: State, c: ConnId, p: Payload)
    requires Inv(st) && Enabled(st, PushMessage(c, p))
    ensures Inv(Next(st, PushMessage(c, p)))
  {
    var st' := Next(st, PushMessage(c, p));
    PushKeepsFinished(st, Message(c, p));
    forall d
      ensures SoundFor(st', d)
    {
      assert SoundFor(st, d);
      OnlySnoc(st.history, Message(c, p), d);
      if d == c {
        assert Messages(c, Frames(st', c)) == Messages(c, Frames(st, c)) + [Message(c, p)];
        Assoc([Connect(c)], Messages(c, Frames(st, c)), [Message(c, p)]);
      }
    }
  }

  lemma PushDisconnectKeeps(st: State, c: ConnId)
    requires Inv(st) && Enabled(st, PushDisconnect(c))
    ensures Inv(Next(st, PushDisconnect(c)))
  {
    var st' := Next(st, PushDisconnect(c));
    PushKeepsFinished(st, Disconnect(c));
    assert Disconnect(c) !in st.history;
    forall d
      ensures SoundFor(st', d)
    {
      assert SoundFor(st, d);
      OnlySnoc(st.history, Disconnect(c), d);
    }
  }

  lemma ExchangeKeeps(st: State, c: ConnId)
    requires Inv(st) && Enabled(st, Exchange(c))
    ensures Inv(Next(st, Exchange(c)))
  {
    var st' := Next(st, Exchange(c));
    forall d
      ensures SoundFor(st', d)
    {
      assert SoundFor(st, d);
    }
  }

  lemma AcceptKeeps(st: State, c: ConnId)
    requires Inv(st) && Enabled(st, Accept(c))
    ensures Inv(Next(st, Accept(c)))
  {
    var st' := Next(st, Accept(c));
    forall d
      ensures SoundFor(st', d)
    {
      assert SoundFor(st, d);
    }
  }

  lemma PopKeeps(st: State)
    requires Inv(st) && Enabled(st, Pop)
    ensures Inv(Next(st, Pop))
  {
    var st' := Next(st, Pop);
    assert Finished(st') == Finished(st);
    forall d
      ensures SoundFor(st', d)
    {
      assert SoundFor(st, d);
    }
  }

  lemma ProcessKeepsFor(st: State, d: ConnId)
    requires Inv(st) && Enabled(st, Process)
    ensures SoundFor(Next(st, Process), d)
  {
    var st', e := Next(st, Process), st.inHand.value;
    assert SoundFor(st, d);
    assert Finished(st') == Finished(st) + [e];
    OnlySnoc(Finished(st), e, d);
    OnlySnoc(st.acted, e, d);
    if e.conn == d && d !in st.closed {
      assert e in st.history;
      FinishedPrefix(st', d);
    }
  }

  lemma FinishedPrefix(st: State, d: ConnId)
    requires Queued(st)
    ensures Only(Finished(st), d) <= Only(st.history, d)
  {
    var rest := st.history[|Finished(st)|..];
    assert st.history == Finished(st) + rest;
    FilterAppend(Finished(st), rest, OfConn(d));
  }

  lemma {:induction false} OnlyHas(es: seq<Event>, i: nat, c: ConnId)
    requires i < |es| && es[i].conn == c && !es[i].Disconnect?
    ensures Only(es, c) != []
  {
    if i > 0 {
      OnlyHas(es[1..], i - 1, c);
    }
  }

  /** An event that passes the check finds no DISCONNECT of its connection acted on. */
  lemma NotYetGone(st: State)
    requires Inv(st) && Enabled(st, Process)
    requires st.inHand.value.conn !in st.closed || st.inHand.value.Disconnect?
    ensures Disconnect(st.inHand.value.conn) !in st.acted
  {
    var c := st.inHand.value.conn;
    assert SoundFor(st, c);
    if Disconnect(c) in Finished(st) {
      FinishedIsPushed(st, Disconnect(c));
      assert false;
    }
  }

  /** A CONNECT that passes the check is the first event acted on for its connection. */
  lemma NothingBeforeConnect(st: State)
    requires Inv(st) && Enabled(st, Process) && st.inHand.value.Connect? && st.inHand.value.conn !in st.closed
    ensures forall i | 0 <= i < |st.acted| :: st.acted[i].conn != st.inHand.value.conn
  {
    var e := st.inHand.value;
    ProcessKeepsFor(st, e.conn);
    NotYetGone(st);
    OnlySnoc(st.acted, e, e.conn);
    assert (Only(st.acted, e.conn) + [e])[|Only(st.acted, e.conn)|] == e;
    assert Only(st.acted, e.conn) == [];
    forall i | 0 <= i < |st.acted|
      ensures st.acted[i].conn != e.conn
    {
      if st.acted[i].conn == e.conn && !st.acted[i].Disconnect? {
        OnlyHas(st.acted, i, e.conn);
      }
    }
  }

  lemma ProcessKeeps(st: State)
    requires Inv(st) && Enabled(st, Process)
    ensures Inv(Next(st, Process))
  {
    var st', e := Next(st, Process), st.inHand.value;
    forall d
      ensures SoundFor(st', d)
    {
      ProcessKeepsFor(st, d);
    }
    if e.conn !in st.closed || e.Disconnect? {
      NotYetGone(st);
      if e.Connect? {
        NothingBeforeConnect(st);
      }
    }
  }

  lemma NextKeeps(st: State, a: Action)
    requires Inv(st) && Enabled(st, a)
    ensures Inv(Next(st, a))
  {
    match a {
      case Accept(c) => AcceptKeeps(st, c);
      case PushConnect(c) => PushConnectKeeps(st, c);
      case PushMessage(c, p) => PushMessageKeeps(st, c, p);
      case Exchange(c) => ExchangeKeeps(st, c);
      case PushDisconnect(c) => PushDisconnectKeeps(st, c);
      case Pop => PopKeeps(st);
      case Process => ProcessKeeps(st);
    }
  }

  // --- Whole runs -----------------------------------------------------------------------

  predicate IsRun(st: State, actions: seq<Action>)
    decreases |actions|
  {
    actions == [] || (Enabled(st, actions[0]) && IsRun(Next(st, actions[0]), actions[1..]))
  }

  function Run(st: State, actions: seq<Action>): State
    decreases |actions|
  {
    if actions == [] then st else Run(Next(st, actions[0]), actions[1..])
  }

  lemma {:induction false} RunKeeps(st: State, actions: seq<Action>)
    requires Inv(st) && IsRun(st, actions)
    ensures Inv(Run(st, actions))
    decreases |actions|
  {
    if actions != [] {
      NextKeeps(st, actions[0]);
      RunKeeps(Next(st, actions[0]), actions[1..]);
    }
  }

  /** In every interleaving: what the logic thread acts on for a connection is a first part of
      CONNECT and its frames in wire order, and while it is open everything the thread has
      finished with; CONNECT is acted on before anything else of it,
      and DISCONNECT at most once and after everything else; and each closed connection has
      exactly one DISCONNECT pushed or about to be. */
  lemma EveryInterleaving(actions: seq<Action>, c: ConnId)
    requires IsRun(START, actions)
    ensures Queued(Run(START, actions))
    ensures var st := Run(START, actions);
            && Only(st.acted, c) <= [Connect(c)] + Messages(c, Frames(st, c))
            && (c !in st.closed ==> Only(st.acted, c) == Only(Finished(st), c))
            && (Disconnect(c) in st.acted <==> Disconnect(c) in Finished(st))
            && ConnectsFirst(st.acted)
            && DisconnectsLast(st.acted)
            && OneDisconnect(st)
  {
    StartIsFine();
    RunKeeps(START, actions);
    assert SoundFor(Run(START, actions), c);
  }

  // --- What a run leaves, from its actions alone ------------------------------------------

  function PushOf(a: Action): seq<Event> {
    match a
    case PushConnect(c) => [Connect(c)]
    case PushMessage(c, p) => [Message(c, p)]
    case PushDisconnect(c) => [Disconnect(c)]
    case _ => []
  }

  function PushedBy(actions: seq<Action>): seq<Event> {
    if actions == [] then [] else PushOf(actions[0]) + PushedBy(actions[1..])
  }

  /** The frames decoded from c, in the order in which they were. */
  function DecodedFrom(actions: seq<Action>, c: ConnId): seq<Payload> {
    if actions == [] then []
    else (if actions[0].PushMessage? && actions[0].c == c then [actions[0].payload] else []) + DecodedFrom(actions[1..], c)
  }

  function Processed(actions: seq<Action>): nat {
    if actions == [] then 0 else (if actions[0].Process? then 1 else 0) + Processed(actions[1..])
  }

  function Popped(actions: seq<Action>): nat {
    if actions == [] then 0 else (if actions[0].Pop? then 1 else 0) + Popped(actions[1..])
  }

  lemma {:induction false} RunLeaves(st: State, actions: seq<Action>, c: ConnId)
    requires IsRun(st, actions)
    ensures var st' := Run(st, actions);
            && st'.history == st.history + PushedBy(actions)
            && Frames(st', c) == Frames(st, c) + DecodedFrom(actions, c)
            && (c in st'.closed <==> c in st.closed || Exchange(c) in actions)
            && (c in st'.announced <==> c in st.announced || PushConnect(c) in actions)
            && st'.head == st.head + Popped(actions)
            && (if st'.inHand.Some? then 1 else 0) + Processed(actions)
                 == (if st.inHand.Some? then 1 else 0) + Popped(actions)
    decreases |actions|
  {
    if actions == [] {
      assert st.history + [] == st.history && Frames(st, c) + [] == Frames(st, c);
    } else {
      var a, rest := actions[0], actions[1..];
      StepLeaves(st, a, c);
      RunLeaves(Next(st, a), rest, c);
      Assoc(st.history, PushOf(a), PushedBy(rest));
      Assoc(Frames(st, c), if a.PushMessage? && a.c == c then [a.payload] else [], DecodedFrom(rest, c));
      assert actions == [a] + rest;
    }
  }

  lemma StepLeaves(st: State, a: Action, c: ConnId)
    requires Enabled(st, a)
    ensures var st' := Next(st, a);
            && st'.history == st.history + PushOf(a)
            && Frames(st', c) == Frames(st, c) + (if a.PushMessage? && a.c == c then [a.payload] else [])
            && (c in st'.closed <==> c in st.closed || a == Exchange(c))
            && (c in st'.announced <==> c in st.announced || a == PushConnect(c))
            && st'.head == st.head + (if a.Pop? then 1 else 0)
            && (if st'.inHand.Some? then 1 else 0) + (if a.Process? then 1 else 0)
                 == (if st.inHand.Some? then 1 else 0) + (if a.Pop? then 1 else 0)
  {
    assert st.history + [] == st.history && Frames(st, c) + [] == Frames(st, c);
  }

  /** The queue has had exactly what was pushed, in order; the wire has carried exactly the frames
      decoded; a connection is closed exactly if close_conn was called; and the logic thread has
      taken as many events as it popped. */
  lemma WhatARunLeaves(actions: seq<Action>, c: ConnId)
    requires IsRun(START, actions)
    ensures var st := Run(START, actions);
            && st.history == PushedBy(actions)
            && Frames(st, c) == DecodedFrom(actions, c)
            && (c in st.closed <==> Exchange(c) in actions)
            && (c in st.announced <==> PushConnect(c) in actions)
            && st.head == Popped(actions)
            && (if st.inHand.Some? then 1 else 0) == Popped(actions) - Processed(actions)
  {
    RunLeaves(START, actions, c);
  }

  /** The next event processed is the oldest one not processed yet. It is acted on unless its
      connection is closed by then; a DISCONNECT always is. */
  lemma ActsUnlessClosed(actions: seq<Action>)
    requires IsRun(START, actions) && Enabled(Run(START, actions), Process)
    ensures Processed(actions) < |PushedBy(actions)|
    ensures var st, e := Run(START, actions), PushedBy(actions)[Processed(actions)];
            Next(st, Process).acted == st.acted +
              if Exchange(e.conn) in actions && !e.Disconnect? then [] else [e]
  {
    StartIsFine();
    RunKeeps(START, actions);
    var st := Run(START, actions);
    WhatARunLeaves(actions, st.inHand.value.conn);
    assert st.acted + [] == st.acted;
  }
}
