/** What each input does to the chat state, said about the state itself: who is online as what,
    who is in which room, who is gone. From the handlers of v4/chatapp.h. */
module ChatLaws {
  import opened Bytes
  import opened TokenBucket
  import opened ChatState
  import opened RateLimits

  /** A message of an open session that parses and passes the limiter. */
  predicate Served(st: State, i: Input, c: ConnId, msg: ClientMessage) {
    Reaches(st, i, c) && !Refuses(st, i, c) && i.evt.payload == Some(msg)
  }

  predicate LoggedIn(st: State, c: ConnId) {
    c in st.sessions && st.sessions[c].isLoggedIn
  }

  /** The same session but for its bucket. */
  predicate SameSession(s: ChatSession, t: ChatSession) {
    t.username == s.username && t.isLoggedIn == s.isLoggedIn && t.currentRoom == s.currentRoom
  }

  /** Nobody's session but c's is another one, and none comes or goes. */
  predicate OthersStay(st: State, st': State, c: ConnId) {
    && st'.sessions.Keys == st.sessions.Keys
    && forall d | d in st.sessions && d != c :: st'.sessions[d] == st.sessions[d]
  }

  /** Nothing but c's bucket is changed. */
  predicate OnlyCharged(st: State, st': State, c: ConnId) {
    && c in st.sessions && OthersStay(st, st', c) && SameSession(st.sessions[c], st'.sessions[c])
    && st'.online == st.online && st'.rooms == st.rooms && st'.gone == st.gone && st'.closed == st.closed
  }

  // --- One input ------------------------------------------------------------------------

  /** CONNECT of a connection that is open: a live session, not logged in, in no room, whose
      first 60 messages at once would all pass. */
  lemma ConnectStarts(st: State, c: ConnId, now: real)
    requires Inv(st) && Admissible(st, Deliver(Connect(c), now)) && c !in st.closed
    ensures var st' := Step(st, Deliver(Connect(c), now));
            && Live(st', c) && st'.sessions[c] == ChatSession("", false, "", Bucket(60.0, now))
            && st'.sessions.Keys == st.sessions.Keys + {c}
            && (forall d | d in st.sessions :: st'.sessions[d] == st.sessions[d])
            && st'.online == st.online && st'.rooms == st.rooms && st'.gone == st.gone && st'.closed == st.closed
  {
  }

  /** A name that is free and not empty: the session goes by it, and the name leads to it. */
  lemma LoginEnters(st: State, i: Input, c: ConnId, name: string)
    requires Inv(st) && Served(st, i, c, Login(name))
    ensures var st' := Step(st, i);
            if name in st.online || name == "" then OnlyCharged(st, st', c)
            else
              && User(st', c) && st'.sessions[c].username == name
              && st'.sessions[c].currentRoom == st.sessions[c].currentRoom && OthersStay(st, st', c)
              && name in st'.online && st'.online[name] == c
              && (forall n | n != name :: n in st'.online <==> n in st.online)
              && (forall n | n in st.online :: st'.online[n] == st.online[n])
              && st'.rooms == st.rooms && st'.gone == st.gone && st'.closed == st.closed
  {
  }

  /** A join moves the session's name: out of whatever room it was in, into the one asked for,
      if that has a name. Nobody else's name moves. */
  lemma JoinMoves(st: State, i: Input, c: ConnId, room: string)
    requires Inv(st) && Served(st, i, c, JoinRoom(room)) && LoggedIn(st, c)
    ensures var st' := Step(st, i);
            var name := st.sessions[c].username;
            && c in st'.sessions && st'.sessions[c].currentRoom == room
            && st'.sessions[c].username == name && st'.sessions[c].isLoggedIn && OthersStay(st, st', c)
            && (forall r, n :: n in Members(st'.rooms, r) <==>
                  if n == name then r == room && room != "" else n in Members(st.rooms, r))
            && st'.online == st.online && st'.gone == st.gone && st'.closed == st.closed
  {
    var st' := Step(st, i);
    var name := st.sessions[c].username;
    assert Live(st, c) && User(st, c);
    forall r, n
      ensures n in Members(st'.rooms, r) <==> if n == name then r == room && room != "" else n in Members(st.rooms, r)
    {
      if n == name && r in st.rooms && name in st.rooms[r] {
        assert r == st.sessions[c].currentRoom;
      }
    }
  }

  /** DISCONNECT: the connection is gone, its name is neither online nor in any room, every other
      entry is as before, and a room ends exactly if that name was its last. */
  lemma DisconnectReleases(st: State, c: ConnId, now: real)
    requires Inv(st) && Admissible(st, Deliver(Disconnect(c), now))
    ensures var st' := Step(st, Deliver(Disconnect(c), now));
            && !Live(st', c) && st'.gone == st.gone + {c}
            && st'.sessions == st.sessions && st'.closed == st.closed
    ensures var st' := Step(st, Deliver(Disconnect(c), now));
            if User(st, c) then
              var name := st.sessions[c].username;
              && name !in st'.online
              && (forall n | n != name :: n in st'.online <==> n in st.online)
              && (forall n | n in st'.online :: st'.online[n] == st.online[n])
              && (forall r, n :: n in Members(st'.rooms, r) <==> n != name && n in Members(st.rooms, r))
              && (forall r | r in st'.rooms :: r in st.rooms)
              && (forall r | r in st.rooms :: r !in st'.rooms <==> st.rooms[r] == {name})
            else st'.online == st.online && st'.rooms == st.rooms
  {
    var st' := Step(st, Deliver(Disconnect(c), now));
    if User(st, c) {
      var name := st.sessions[c].username;
      forall r
        ensures r in st'.rooms ==> r in st.rooms
        ensures r in st.rooms ==> (r !in st'.rooms <==> st.rooms[r] == {name})
        ensures Members(st'.rooms, r) == Members(st.rooms, r) - {name}
      {
        OneLeaves(st, c, r);
      }
    }
  }

  /** What a user's leaving its room does to room r. */
  lemma OneLeaves(st: State, c: ConnId, r: string)
    requires Inv(st) && User(st, c)
    ensures var s := st.sessions[c];
            var rooms' := if s.currentRoom == "" then st.rooms else Leave(st.rooms, s.currentRoom, s.username);
            && (r in rooms' ==> r in st.rooms)
            && (r in st.rooms ==> (r !in rooms' <==> st.rooms[r] == {s.username}))
            && Members(rooms', r) == Members(st.rooms, r) - {s.username}
  {
    var s := st.sessions[c];
    if r in st.rooms && s.username in st.rooms[r] {
      assert r == s.currentRoom;
    }
    if r in st.rooms && r == s.currentRoom {
      assert st.rooms[r] - {s.username} == {} <==> st.rooms[r] == {s.username};
    }
  }

  /** Every other message changes nothing, and so does a join before login. */
  lemma OthersChangeNothing(st: State, i: Input, c: ConnId, msg: ClientMessage)
    requires Inv(st) && Served(st, i, c, msg) && !msg.Login?
    requires msg.JoinRoom? ==> !LoggedIn(st, c)
    ensures OnlyCharged(st, Step(st, i), c)
  {
    BucketKeeps(st, c, Charge(st.sessions[c].bucket, i.now).1);
    var b := Charge(st.sessions[c].bucket, i.now).1;
    if msg.RoomChat? {
      RoomChatChangesNothing(WithBucket(st, c, b), c, msg.room);
    }
  }

  /** A message that the limiter refuses closes its connection and does nothing else. */
  lemma RefusalCloses(st: State, i: Input, c: ConnId)
    requires Refuses(st, i, c)
    ensures var st' := Step(st, i);
            && st'.closed == st.closed + {c} && OthersStay(st, st', c) && SameSession(st.sessions[c], st'.sessions[c])
            && st'.online == st.online && st'.rooms == st.rooms && st'.gone == st.gone
  {
  }

  /** What is on a closed connection or has no session or does not parse is ignored, and a close
      by another thread sets the flag. */
  lemma TheRestIsIgnored(st: State, i: Input)
    requires i.Deliver? && (i.evt.conn in st.closed || (i.evt.Message? && !Reaches(st, i, i.evt.conn))) && !i.evt.Disconnect?
    ensures Step(st, i) == st
  {
  }

  lemma CloseSetsTheFlag(st: State, c: ConnId)
    ensures Step(st, NetworkClose(c)) == st.(closed := st.closed + {c})
  {
  }

  // --- Whole runs -----------------------------------------------------------------------

  /** The input delivers c's DISCONNECT. */
  predicate IsGoodbye(i: Input, c: ConnId) {
    i.Deliver? && i.evt == Disconnect(c)
  }

  predicate SaysGoodbye(inputs: seq<Input>, c: ConnId) {
    inputs != [] && (IsGoodbye(inputs[0], c) || SaysGoodbye(inputs[1..], c))
  }

  lemma {:induction false} GoneRun(st: State, inputs: seq<Input>, c: ConnId)
    requires AdmissibleRun(st, inputs)
    ensures c in Run(st, inputs).gone <==> c in st.gone || SaysGoodbye(inputs, c)
    decreases |inputs|
  {
    if inputs != [] {
      var st' := Step(st, inputs[0]);
      assert c in st'.gone <==> c in st.gone || IsGoodbye(inputs[0], c);
      GoneRun(st', inputs[1..], c);
    }
  }

  /** A connection is gone exactly once its DISCONNECT was delivered. */
  lemma GoneIsGoodbye(inputs: seq<Input>, c: ConnId)
    requires AdmissibleRun(EMPTY, inputs)
    ensures c in Run(EMPTY, inputs).gone <==> SaysGoodbye(inputs, c)
  {
    GoneRun(EMPTY, inputs, c);
  }

  /** The input closes c: another thread does, or the limiter. */
  predicate ClosesNow(st: State, i: Input, c: ConnId) {
    i == NetworkClose(c) || Refuses(st, i, c)
  }

  predicate WasClosed(st: State, inputs: seq<Input>, c: ConnId)
    decreases |inputs|
  {
    inputs != [] && (ClosesNow(st, inputs[0], c) || WasClosed(Step(st, inputs[0]), inputs[1..], c))
  }

  /** A connection is closed exactly once somebody closed it. */
  lemma {:induction false} ClosedBySomebody(st: State, inputs: seq<Input>, c: ConnId)
    ensures c in Run(st, inputs).closed <==> c in st.closed || WasClosed(st, inputs, c)
    decreases |inputs|
  {
    if inputs != [] {
      var st' := Step(st, inputs[0]);
      assert c in st'.closed <==> c in st.closed || ClosesNow(st, inputs[0], c);
      ClosedBySomebody(st', inputs[1..], c);
    }
  }

  /** What a session's own inputs have made of it: name and room. */
  datatype Who = Who(name: string, room: string)

  const NOBODY := Who("", "")

  /** A login to a free name gives the name; a join once named gives the room; a CONNECT starts. */
  function Becomes(st: State, i: Input, c: ConnId, w: Who): Who {
    if i.Deliver? && i.evt == Connect(c) && c !in st.closed then NOBODY
    else if !Reaches(st, i, c) || Refuses(st, i, c) then w
    else match i.evt.payload.value
      case Login(name) => if name in st.online || name == "" then w else w.(name := name)
      case JoinRoom(room) => if w.name == "" then w else w.(room := room)
      case _ => w
  }

  function Became(st: State, inputs: seq<Input>, c: ConnId, w: Who): Who
    decreases |inputs|
  {
    if inputs == [] then w else Became(Step(st, inputs[0]), inputs[1..], c, Becomes(st, inputs[0], c, w))
  }

  /** The session says what its inputs made of it. */
  predicate IsWho(st: State, c: ConnId, w: Who) {
    if c in st.sessions then
      var s := st.sessions[c];
      s.username == w.name && s.currentRoom == w.room && (s.isLoggedIn <==> w.name != "")
    else w == NOBODY
  }

  lemma DispatchBecomes(st: State, c: ConnId, msg: ClientMessage, w: Who)
    requires c in st.sessions && IsWho(st, c, w)
    ensures IsWho(Dispatch(st, c, msg), c,
      match msg
      case Login(name) => if name in st.online || name == "" then w else w.(name := name)
      case JoinRoom(room) => if w.name == "" then w else w.(room := room)
      case _ => w)
  {
  }

  /** What does not get as far as c's limiter leaves c's session alone, but for a CONNECT. */
  lemma OthersLeave(st: State, i: Input, c: ConnId)
    requires !Reaches(st, i, c) && !(i.Deliver? && i.evt == Connect(c))
    ensures c in Step(st, i).sessions <==> c in st.sessions
    ensures c in st.sessions ==> Step(st, i).sessions[c] == st.sessions[c]
  {
    hide Leave;
    hide Enter;
    hide Members;
    hide Charge;
    hide Fresh;
  }

  lemma StepBecomes(st: State, i: Input, c: ConnId, w: Who)
    requires Admissible(st, i) && IsWho(st, c, w)
    ensures IsWho(Step(st, i), c, Becomes(st, i, c, w))
  {
    if Reaches(st, i, c) {
      DispatchBecomes(WithBucket(st, c, Charge(st.sessions[c].bucket, i.now).1), c, i.evt.payload.value, w);
      hide Dispatch;
      hide Charge;
    } else if !(i.Deliver? && i.evt == Connect(c)) {
      OthersLeave(st, i, c);
      hide Step;
    }
  }

  lemma {:induction false} RunBecomes(st: State, inputs: seq<Input>, c: ConnId, w: Who)
    requires AdmissibleRun(st, inputs) && IsWho(st, c, w)
    ensures IsWho(Run(st, inputs), c, Became(st, inputs, c, w))
    decreases |inputs|
  {
    if inputs != [] {
      StepBecomes(st, inputs[0], c, w);
      RunBecomes(Step(st, inputs[0]), inputs[1..], c, Becomes(st, inputs[0], c, w));
    }
  }

  /** In every run: a session's name is that of its last login to a free name, its room that of
      its last join once it had a name, and it is logged in exactly if it has a name. A live one
      is a member of that room under one of its names. */
  lemma SessionsAreWhatTheyDid(inputs: seq<Input>, c: ConnId)
    requires AdmissibleRun(EMPTY, inputs) && c in Run(EMPTY, inputs).sessions
    ensures var s, w := Run(EMPTY, inputs).sessions[c], Became(EMPTY, inputs, c, NOBODY);
            s.username == w.name && s.currentRoom == w.room && (s.isLoggedIn <==> w.name != "")
    ensures var st, w := Run(EMPTY, inputs), Became(EMPTY, inputs, c, NOBODY);
            !SaysGoodbye(inputs, c) && w.room != "" ==> Anchored(st, c, w.room)
  {
    RunBecomes(EMPTY, inputs, c, NOBODY);
    EveryRunIsConsistent(inputs);
    GoneIsGoodbye(inputs, c);
  }
}
