/** What the handlers of v4/chatapp.h do to the chat state: `online_users_`, `rooms_` and the
    sessions hung on the connections. Three indexes of the same facts, kept by hand. */
module ChatState {
  import opened Bytes
  import opened TokenBucket

  /** A Connection object; two connections never share one. */
  type ConnId = nat

  datatype ChatSession = ChatSession(username: string, isLoggedIn: bool, currentRoom: string, bucket: Bucket)

  datatype ClientMessage =
    | Login(name: string)
    | GlobalChat(text: string)
    | PrivateChat(target: string, text: string)
    | JoinRoom(room: string)
    | RoomChat(room: string, text: string)
    | Unset

  /** `payload` is None when the bytes do not parse as a ClientMessage. */
  datatype Event = Connect(conn: ConnId) | Disconnect(conn: ConnId) | Message(conn: ConnId, payload: Option<ClientMessage>)

  /** `gone` are the connections whose DISCONNECT has been handled; `closed` those whose flag
      is set, by this thread or by another. */
  datatype State = State(
    online: map<string, ConnId>,
    rooms: map<string, set<string>>,
    sessions: map<ConnId, ChatSession>,
    gone: set<ConnId>,
    closed: set<ConnId>)

  const EMPTY := State(map[], map[], map[], {}, {})

  function Members(rooms: map<string, set<string>>, room: string): set<string> {
    if room in rooms then rooms[room] else {}
  }

  /** Taking a name out of a room, and the room away with its last name. */
  function Leave(rooms: map<string, set<string>>, room: string, name: string): map<string, set<string>> {
    var left := Members(rooms, room) - {name};
    if left == {} then rooms - {room} else rooms[room := left]
  }

  function Enter(rooms: map<string, set<string>>, room: string, name: string): map<string, set<string>> {
    rooms[room := Members(rooms, room) + {name}]
  }

  function AfterConnect(st: State, c: ConnId, now: real): State {
    st.(sessions := st.sessions[c := ChatSession("", false, "", Fresh(now))])
  }

  function AfterDisconnect(st: State, c: ConnId): State {
    var gone := st.gone + {c};
    if c !in st.sessions then st.(gone := gone)
    else
      var s := st.sessions[c];
      if !s.isLoggedIn || s.username == "" then st.(gone := gone)
      else st.(
        gone := gone,
        online := st.online - {s.username},
        rooms := if s.currentRoom == "" then st.rooms else Leave(st.rooms, s.currentRoom, s.username))
  }

  function AfterLogin(st: State, c: ConnId, name: string): State
    requires c in st.sessions
  {
    if name in st.online || name == "" then st
    else st.(
      sessions := st.sessions[c := st.sessions[c].(username := name, isLoggedIn := true)],
      online := st.online[name := c])
  }

  function AfterJoin(st: State, c: ConnId, room: string): State
    requires c in st.sessions
  {
    var s := st.sessions[c];
    if !s.isLoggedIn then st
    else
      var left := if s.currentRoom == "" then st.rooms else Leave(st.rooms, s.currentRoom, s.username);
      st.(
        sessions := st.sessions[c := s.(currentRoom := room)],
        rooms := if room == "" then left else Enter(left, room, s.username))
  }

  /** operator[] on rooms_ puts an empty room there if there is none. */
  function AfterRoomChat(st: State, c: ConnId, room: string): State
    requires c in st.sessions
  {
    var s := st.sessions[c];
    if !s.isLoggedIn || s.currentRoom == "" || s.currentRoom != room then st
    else st.(rooms := st.rooms[room := Members(st.rooms, room)])
  }

  function Dispatch(st: State, c: ConnId, msg: ClientMessage): State
    requires c in st.sessions
  {
    match msg
    case Login(name) => AfterLogin(st, c, name)
    case JoinRoom(room) => AfterJoin(st, c, room)
    case RoomChat(room, _) => AfterRoomChat(st, c, room)
    case _ => st
  }

  function WithBucket(st: State, c: ConnId, b: Bucket): State
    requires c in st.sessions
  {
    st.(sessions := st.sessions[c := st.sessions[c].(bucket := b)])
  }

  function AfterMessage(st: State, c: ConnId, payload: Option<ClientMessage>, now: real): State {
    if c !in st.sessions || payload.None? then st
    else
      var (ok, b) := Charge(st.sessions[c].bucket, now);
      var st' := WithBucket(st, c, b);
      if !ok then st'.(closed := st'.closed + {c}) else Dispatch(st', c, payload.value)
  }

  /** ProcessEvent. */
  function AfterEvent(st: State, evt: Event, now: real): State {
    if evt.conn in st.closed && !evt.Disconnect? then st
    else match evt
      case Connect(c) => AfterConnect(st, c, now)
      case Disconnect(c) => AfterDisconnect(st, c)
      case Message(c, payload) => AfterMessage(st, c, payload, now)
  }

  /** A step of a run: the logic thread handles an event, or another thread closes a connection. */
  datatype Input = Deliver(evt: Event, now: real) | NetworkClose(conn: ConnId)

  function Step(st: State, i: Input): State {
    match i
    case Deliver(evt, now) => AfterEvent(st, evt, now)
    case NetworkClose(c) => st.(closed := st.closed + {c})
  }

  /** What the event queue guarantees, as module EventOrder proves: a connection's CONNECT comes
      once and first, its DISCONNECT comes once and after its flag is set. */
  predicate Admissible(st: State, i: Input) {
    match i
    case Deliver(Connect(c), _) => c !in st.sessions
    case Deliver(Disconnect(c), _) => c in st.closed && c !in st.gone
    case _ => true
  }

  // --- Invariants of every run ----------------------------------------------------------

  predicate Live(st: State, c: ConnId) {
    c in st.sessions && c !in st.gone
  }

  predicate User(st: State, c: ConnId) {
    Live(st, c) && st.sessions[c].isLoggedIn
  }

  /** A live logged-in session's name is in online_users_ and maps back to it. */
  ghost predicate NamesMapBack(st: State) {
    forall c | User(st, c) ::
      var name := st.sessions[c].username;
      name != "" && name in st.online && st.online[name] == c
  }

  /** Every room member is in online_users_: the count(member) guards never skip anyone. */
  ghost predicate MembersOnline(st: State) {
    forall r, m | r in st.rooms && m in st.rooms[r] :: m in st.online
  }

  /** A live session's current name is in no room but its current one. */
  ghost predicate OneRoomEach(st: State) {
    forall c, r | User(st, c) && r in st.rooms && st.sessions[c].username in st.rooms[r] ::
      r == st.sessions[c].currentRoom
  }

  /** Some name of c is in the room. */
  ghost predicate Anchored(st: State, c: ConnId, room: string) {
    room in st.rooms && exists m :: m in st.rooms[room] && m in st.online && st.online[m] == c
  }

  /** A live session's current room exists, and holds one of its names. */
  ghost predicate RoomsExist(st: State) {
    forall c | Live(st, c) && st.sessions[c].currentRoom != "" :: Anchored(st, c, st.sessions[c].currentRoom)
  }

  /** No empty room is stored, and none without a name. */
  ghost predicate NoEmptyRoom(st: State) {
    forall r | r in st.rooms :: st.rooms[r] != {} && r != ""
  }

  ghost predicate Tidy(st: State) {
    && st.gone <= st.closed
    && forall c | Live(st, c) && !st.sessions[c].isLoggedIn ::
         st.sessions[c].username == "" && st.sessions[c].currentRoom == ""
  }

  ghost predicate Inv(st: State) {
    && NamesMapBack(st)
    && MembersOnline(st)
    && OneRoomEach(st)
    && RoomsExist(st)
    && NoEmptyRoom(st)
    && Tidy(st)
  }

  lemma LiveNamesAreUnique(st: State, c: ConnId, d: ConnId)
    requires Inv(st) && User(st, c) && User(st, d)
    requires st.sessions[c].username == st.sessions[d].username
    ensures c == d
  {
    assert st.online[st.sessions[c].username] == c;
  }

  lemma ConnectKeeps(st: State, c: ConnId, now: real)
    requires Inv(st) && c !in st.sessions
    ensures Inv(AfterConnect(st, c, now))
  {
    var st' := AfterConnect(st, c, now);
    forall d | Live(st', d) && st'.sessions[d].currentRoom != ""
      ensures Anchored(st', d, st'.sessions[d].currentRoom)
    {
      assert Live(st, d);
      assert Anchored(st, d, st.sessions[d].currentRoom);
    }
    assert forall d | User(st', d) :: User(st, d);
  }

  /** c out of its room, and in none. */
  function Left(st: State, c: ConnId): State
    requires c in st.sessions
  {
    var s := st.sessions[c];
    st.(
      sessions := st.sessions[c := s.(currentRoom := "")],
      rooms := if s.currentRoom == "" then st.rooms else Leave(st.rooms, s.currentRoom, s.username))
  }

  lemma LeftKeeps(st: State, c: ConnId)
    requires Inv(st) && User(st, c)
    ensures Inv(Left(st, c))
    ensures forall r | r in Left(st, c).rooms :: st.sessions[c].username !in Left(st, c).rooms[r]
  {
    var st', s := Left(st, c), st.sessions[c];
    forall d | User(st', d)
      ensures User(st, d) && st'.sessions[d].username == st.sessions[d].username
    {
    }
    forall r | r in st'.rooms
      ensures r in st.rooms && st'.rooms[r] == st.rooms[r] - {s.username}
    {
      if s.username in st.rooms[r] {
        assert r == s.currentRoom;
      }
    }
    forall d | Live(st', d) && st'.sessions[d].currentRoom != ""
      ensures Anchored(st', d, st'.sessions[d].currentRoom)
    {
      var r := st.sessions[d].currentRoom;
      assert Live(st, d) && Anchored(st, d, r);
      var m :| m in st.rooms[r] && m in st.online && st.online[m] == d;
      assert m != s.username;
      assert m in Members(st'.rooms, r);
    }
  }

  lemma DisconnectKeeps(st: State, c: ConnId)
    requires Inv(st) && c in st.closed && c !in st.gone
    ensures Inv(AfterDisconnect(st, c))
  {
    var st' := AfterDisconnect(st, c);
    if User(st, c) {
      LeftKeeps(st, c);
      LogoutKeeps(Left(st, c), c);
      assert Gone(Left(st, c), c) == st'.(sessions := Left(st, c).sessions);
      GoneRoom(st', c, Left(st, c).sessions[c]);
    } else {
      forall d | Live(st', d) && st'.sessions[d].currentRoom != ""
        ensures Anchored(st', d, st'.sessions[d].currentRoom)
      {
        assert Live(st, d) && Anchored(st, d, st.sessions[d].currentRoom);
      }
      assert forall d | User(st', d) :: User(st, d);
    }
  }

  function Gone(st: State, c: ConnId): State
    requires c in st.sessions
  {
    st.(gone := st.gone + {c}, online := st.online - {st.sessions[c].username})
  }

  lemma LogoutKeeps(st: State, c: ConnId)
    requires Inv(st) && User(st, c) && c in st.closed
    requires forall r | r in st.rooms :: st.sessions[c].username !in st.rooms[r]
    ensures Inv(Gone(st, c))
  {
    var st', name := Gone(st, c), st.sessions[c].username;
    forall d | Live(st', d)
      ensures Live(st, d) && d != c
      ensures User(st, d) ==> st.sessions[d].username != name
    {
    }
    forall d | Live(st', d) && st'.sessions[d].currentRoom != ""
      ensures Anchored(st', d, st'.sessions[d].currentRoom)
    {
      var r := st.sessions[d].currentRoom;
      assert Anchored(st, d, r);
      var m :| m in st.rooms[r] && m in st.online && st.online[m] == d;
      assert m in st'.rooms[r] && m in st'.online && st'.online[m] == d;
    }
  }

  /** The session of a gone connection is no concern of the invariants. */
  lemma GoneRoom(st: State, c: ConnId, s: ChatSession)
    requires c in st.gone && c in st.sessions
    requires Inv(st.(sessions := st.sessions[c := s]))
    ensures Inv(st)
  {
    var st' := st.(sessions := st.sessions[c := s]);
    assert forall d | User(st, d) :: User(st', d);
    assert forall d | Live(st, d) :: Live(st', d) && st.sessions[d] == st'.sessions[d];
    forall d | Live(st, d) && st.sessions[d].currentRoom != ""
      ensures Anchored(st, d, st.sessions[d].currentRoom)
    {
      assert Live(st', d) && Anchored(st', d, st'.sessions[d].currentRoom);
    }
  }

  lemma LoginKeeps(st: State, c: ConnId, name: string)
    requires Inv(st) && Live(st, c)
    ensures Inv(AfterLogin(st, c, name))
  {
    var st' := AfterLogin(st, c, name);
    assert forall d | User(st', d) && d != c :: User(st, d);
    forall d | Live(st', d) && st'.sessions[d].currentRoom != ""
      ensures Anchored(st', d, st'.sessions[d].currentRoom)
    {
      var room := st.sessions[d].currentRoom;
      assert Live(st, d) && Anchored(st, d, room);
      var m :| m in st.rooms[room] && m in st.online && st.online[m] == d;
      assert m in st'.rooms[room] && m in st'.online && st'.online[m] == d;
    }
  }

  function Entered(st: State, c: ConnId, room: string): State
    requires c in st.sessions
  {
    st.(
      sessions := st.sessions[c := st.sessions[c].(currentRoom := room)],
      rooms := if room == "" then st.rooms else Enter(st.rooms, room, st.sessions[c].username))
  }

  lemma EnteredKeeps(st: State, c: ConnId, room: string)
    requires Inv(st) && User(st, c)
    requires forall r | r in st.rooms :: st.sessions[c].username !in st.rooms[r]
    ensures Inv(Entered(st, c, room))
  {
    var st', name := Entered(st, c, room), st.sessions[c].username;
    forall d | User(st', d)
      ensures User(st, d) && st'.sessions[d].username == st.sessions[d].username
      ensures d != c ==> st.sessions[d].username != name
    {
    }
    forall r, m | r in st'.rooms && m in st'.rooms[r]
      ensures if m == name then r == room else r in st.rooms && m in st.rooms[r]
    {
    }
    forall d | Live(st', d) && st'.sessions[d].currentRoom != ""
      ensures Anchored(st', d, st'.sessions[d].currentRoom)
    {
      var r := st'.sessions[d].currentRoom;
      if d == c {
        assert name in st'.rooms[r] && st'.online[name] == c;
      } else {
        assert Live(st, d) && Anchored(st, d, r);
        var m :| m in st.rooms[r] && m in st.online && st.online[m] == d;
        assert m in st'.rooms[r] && m in st'.online && st'.online[m] == d;
      }
    }
  }

  lemma JoinKeeps(st: State, c: ConnId, room: string)
    requires Inv(st) && Live(st, c)
    ensures Inv(AfterJoin(st, c, room))
  {
    if st.sessions[c].isLoggedIn {
      LeftKeeps(st, c);
      EnteredKeeps(Left(st, c), c, room);
      assert AfterJoin(st, c, room) == Entered(Left(st, c), c, room);
    }
  }

  /** operator[] finds the room there. */
  lemma RoomChatChangesNothing(st: State, c: ConnId, room: string)
    requires Inv(st) && Live(st, c)
    ensures AfterRoomChat(st, c, room) == st
  {
    var s := st.sessions[c];
    if s.isLoggedIn && s.currentRoom != "" && s.currentRoom == room {
      assert Anchored(st, c, room);
      assert st.rooms[room := st.rooms[room]] == st.rooms;
    }
  }

  lemma BucketKeeps(st: State, c: ConnId, b: Bucket)
    requires Inv(st) && c in st.sessions
    ensures Inv(WithBucket(st, c, b))
  {
    var st' := WithBucket(st, c, b);
    assert forall d | User(st', d) :: User(st, d);
    forall d | Live(st', d) && st'.sessions[d].currentRoom != ""
      ensures Anchored(st', d, st'.sessions[d].currentRoom)
    {
      assert Live(st, d) && Anchored(st, d, st.sessions[d].currentRoom);
    }
  }

  lemma CloseKeeps(st: State, c: ConnId)
    requires Inv(st)
    ensures Inv(st.(closed := st.closed + {c}))
  {
    var st' := st.(closed := st.closed + {c});
    forall d | Live(st', d) && st'.sessions[d].currentRoom != ""
      ensures Anchored(st', d, st'.sessions[d].currentRoom)
    {
      assert Live(st, d) && Anchored(st, d, st.sessions[d].currentRoom);
    }
    assert forall d | User(st', d) :: User(st, d);
  }

  lemma MessageKeeps(st: State, c: ConnId, payload: Option<ClientMessage>, now: real)
    requires Inv(st) && c !in st.closed
    ensures Inv(AfterMessage(st, c, payload, now))
  {
    if c in st.sessions && payload.Some? {
      var (ok, b) := Charge(st.sessions[c].bucket, now);
      var st' := WithBucket(st, c, b);
      BucketKeeps(st, c, b);
      if !ok {
        CloseKeeps(st', c);
      } else {
        match payload.value {
          case Login(name) => LoginKeeps(st', c, name);
          case JoinRoom(room) => JoinKeeps(st', c, room);
          case RoomChat(room, _) => RoomChatChangesNothing(st', c, room);
          case _ =>
        }
      }
    }
  }

  /** Every step keeps the invariants, repeated logins included. */
  lemma StepKeeps(st: State, i: Input)
    requires Inv(st) && Admissible(st, i)
    ensures Inv(Step(st, i))
  {
    match i {
      case Deliver(evt, now) =>
        if evt.conn !in st.closed || evt.Disconnect? {
          match evt {
            case Connect(c) => ConnectKeeps(st, c, now);
            case Disconnect(c) => DisconnectKeeps(st, c);
            case Message(c, payload) => MessageKeeps(st, c, payload, now);
          }
        }
      case NetworkClose(c) => CloseKeeps(st, c);
    }
  }

  // --- Whole runs -----------------------------------------------------------------------

  function Run(st: State, inputs: seq<Input>): State
    decreases |inputs|
  {
    if inputs == [] then st else Run(Step(st, inputs[0]), inputs[1..])
  }

  predicate AdmissibleRun(st: State, inputs: seq<Input>)
    decreases |inputs|
  {
    inputs == [] || (Admissible(st, inputs[0]) && AdmissibleRun(Step(st, inputs[0]), inputs[1..]))
  }

  lemma {:induction false} RunKeeps(st: State, inputs: seq<Input>)
    requires Inv(st) && AdmissibleRun(st, inputs)
    ensures Inv(Run(st, inputs))
    decreases |inputs|
  {
    if inputs != [] {
      StepKeeps(st, inputs[0]);
      RunKeeps(Step(st, inputs[0]), inputs[1..]);
    }
  }

  /** Over all runs of the server, repeated logins included. */
  lemma EveryRunIsConsistent(inputs: seq<Input>)
    requires AdmissibleRun(EMPTY, inputs)
    ensures Inv(Run(EMPTY, inputs))
  {
    RunKeeps(EMPTY, inputs);
  }

  // --- When the indexes are exact -------------------------------------------------------

  /** online_users_ and rooms_ hold what the live sessions say, and nothing else. */
  ghost predicate Exact(st: State) {
    && (forall n :: n in st.online <==> exists c :: User(st, c) && st.sessions[c].username == n)
    && (forall c | User(st, c) :: st.sessions[c].username in st.online && st.online[st.sessions[c].username] == c)
    && (forall r, n :: r in st.rooms && n in st.rooms[r] <==>
          r != "" && exists c :: User(st, c) && st.sessions[c].username == n && st.sessions[c].currentRoom == r)
    && NoEmptyRoom(st)
  }

  /** An entry of online_users_ that no live session goes by. */
  ghost predicate StaleName(st: State, n: string) {
    n in st.online && !(User(st, st.online[n]) && st.sessions[st.online[n]].username == n)
  }

  ghost predicate Stale(st: State) {
    exists n :: StaleName(st, n)
  }

  lemma NoStaleIsExact(st: State)
    requires Inv(st)
    ensures Exact(st) <==> !Stale(st)
  {
    if !Stale(st) {
      forall n
        ensures n in st.online <==> exists c :: User(st, c) && st.sessions[c].username == n
        ensures n in st.online ==> User(st, st.online[n]) && st.sessions[st.online[n]].username == n
      {
        assert !StaleName(st, n);
      }
      forall c | User(st, c) && st.sessions[c].currentRoom != ""
        ensures st.sessions[c].currentRoom in st.rooms
        ensures st.sessions[c].username in st.rooms[st.sessions[c].currentRoom]
      {
        assert Anchored(st, c, st.sessions[c].currentRoom);
      }
      forall r, n
        ensures r in st.rooms && n in st.rooms[r] <==>
          r != "" && exists c :: User(st, c) && st.sessions[c].username == n && st.sessions[c].currentRoom == r
      {
        if r in st.rooms && n in st.rooms[r] {
          var c := st.online[n];
          assert User(st, c) && st.sessions[c].username == n && st.sessions[c].currentRoom == r;
        }
      }
    } else {
      var n :| StaleName(st, n);
      assert n in st.online && !exists c :: User(st, c) && st.sessions[c].username == n;
    }
  }

  /** The input is a login that succeeds on a session that is logged in already. */
  predicate Relogin(st: State, i: Input) {
    && i.Deliver? && i.evt.Message? && i.evt.conn !in st.closed && i.evt.conn in st.sessions
    && i.evt.payload.Some? && i.evt.payload.value.Login?
    && Charge(st.sessions[i.evt.conn].bucket, i.now).0
    && st.sessions[i.evt.conn].isLoggedIn
    && i.evt.payload.value.name !in st.online && i.evt.payload.value.name != ""
  }

  /** A stale name stays stale: nobody can take it and nobody removes it. */
  lemma StaleForGood(st: State, i: Input, n: string)
    requires Inv(st) && Admissible(st, i) && StaleName(st, n)
    ensures StaleName(Step(st, i), n)
  {
  }

  lemma ReloginMakesStale(st: State, i: Input)
    requires Inv(st) && Relogin(st, i)
    ensures Stale(Step(st, i))
  {
    var c := i.evt.conn;
    assert User(st, c);
    assert StaleName(Step(st, i), st.sessions[c].username);
  }

  lemma OtherwiseNotStale(st: State, i: Input)
    requires Inv(st) && Admissible(st, i) && !Stale(st) && !Relogin(st, i)
    ensures !Stale(Step(st, i))
  {
    forall n
      ensures !StaleName(Step(st, i), n)
    {
      assert !StaleName(st, n);
    }
  }

  /** Whether some step of the run is such a login. */
  predicate HasRelogin(st: State, inputs: seq<Input>)
    decreases |inputs|
  {
    inputs != [] && (Relogin(st, inputs[0]) || HasRelogin(Step(st, inputs[0]), inputs[1..]))
  }

  lemma {:induction false} StaleRun(st: State, inputs: seq<Input>)
    requires Inv(st) && AdmissibleRun(st, inputs)
    ensures Stale(Run(st, inputs)) <==> Stale(st) || HasRelogin(st, inputs)
    decreases |inputs|
  {
    if inputs != [] {
      var i := inputs[0];
      StepKeeps(st, i);
      if Stale(st) {
        var n :| StaleName(st, n);
        StaleForGood(st, i, n);
      } else if Relogin(st, i) {
        ReloginMakesStale(st, i);
      } else {
        OtherwiseNotStale(st, i);
      }
      StaleRun(Step(st, i), inputs[1..]);
    }
  }

  /** The indexes are exactly those of the live sessions if and only if no session ever
      logged in twice. */
  lemma ExactUnlessRelogin(inputs: seq<Input>)
    requires AdmissibleRun(EMPTY, inputs)
    ensures Exact(Run(EMPTY, inputs)) <==> !HasRelogin(EMPTY, inputs)
  {
    RunKeeps(EMPTY, inputs);
    NoStaleIsExact(Run(EMPTY, inputs));
    StaleRun(EMPTY, inputs);
  }

  /** Such a run exists: connect, log in as "a", log in as "b". */
  lemma ReloginHappens()
    ensures var inputs := [Deliver(Connect(0), 0.0), Deliver(Message(0, Some(Login("a"))), 0.0),
                           Deliver(Message(0, Some(Login("b"))), 0.0)];
            AdmissibleRun(EMPTY, inputs) && HasRelogin(EMPTY, inputs)
  {
    var i0, i1 := Deliver(Connect(0), 0.0), Deliver(Message(0, Some(Login("a"))), 0.0);
    var i2 := Deliver(Message(0, Some(Login("b"))), 0.0);
    var s1 := Step(EMPTY, i0);
    var s2 := Step(s1, i1);
    var inputs := [i0, i1, i2];
    assert inputs[1..] == [i1, i2] && [i1, i2][1..] == [i2] && [i2][1..] == [];
    assert "a" != "b";
    assert s2.sessions[0].isLoggedIn && "b" !in s2.online && Relogin(s2, i2);
    assert AdmissibleRun(Step(s2, i2), []);
    assert AdmissibleRun(s2, [i2]) && HasRelogin(s2, [i2]);
    assert AdmissibleRun(s1, [i1, i2]) && HasRelogin(s1, [i1, i2]);
  }

  /** What holds of a run holds of the run up to any point. */
  lemma {:induction false} UpTo(st: State, inputs: seq<Input>, k: nat)
    requires AdmissibleRun(st, inputs) && k <= |inputs|
    ensures AdmissibleRun(st, inputs[..k])
    ensures HasRelogin(st, inputs[..k]) ==> HasRelogin(st, inputs)
    decreases |inputs|
  {
    if k > 0 {
      assert inputs[..k][1..] == inputs[1..][..k - 1];
      UpTo(Step(st, inputs[0]), inputs[1..], k - 1);
    }
  }
}
