/** The handlers of v4/chatapp.h as they run: each updates the indexes in place and sends.
    `ChatState` says what they leave behind; the contracts here add who was sent what. */
module ChatApps {
  import opened Bytes
  import opened TokenBucket
  import opened ChatState

  /** What SendProto and BroadcastProto are given; wording and timestamps are dropped. */
  datatype ServerMessage =
    | LoginResponse(success: bool)
    | LeaveNotice(who: string, room: string)
    | JoinNotice(who: string, room: string)
    | NowIn(room: string)
    | RoomText(sender: string, text: string, room: string)
    | GlobalText(sender: string, text: string)
    | PrivateText(sender: string, text: string)
    | Confirmation(target: string, text: string)
    | UserNotFound(target: string)
    | MustJoinFirst
    | TooFast

  datatype Sent = Sent(conn: ConnId, msg: ServerMessage)

  predicate NoDuplicates<T(==)>(s: seq<T>) {
    forall i, j | 0 <= i < j < |s| :: s[i] != s[j]
  }

  /** `order` lists `members`, each once: the order in which an unordered set is walked. */
  ghost predicate Enumerates(order: seq<string>, members: set<string>) {
    NoDuplicates(order) && forall m :: m in members <==> m in order
  }

  /** One message to every listed member that is online, the `except` ones left out. */
  function Deliveries(online: map<string, ConnId>, order: seq<string>, except: set<string>, msg: ServerMessage): seq<Sent> {
    if order == [] then []
    else
      (if order[0] !in except && order[0] in online then [Sent(online[order[0]], msg)] else [])
      + Deliveries(online, order[1..], except, msg)
  }

  lemma {:induction false} DeliveriesSnoc(online: map<string, ConnId>, order: seq<string>, m: string,
      except: set<string>, msg: ServerMessage)
    ensures Deliveries(online, order + [m], except, msg) ==
      Deliveries(online, order, except, msg) + if m !in except && m in online then [Sent(online[m], msg)] else []
  {
    if order == [] {
      assert order + [m] == [m] && [m][1..] == [];
    } else {
      assert (order + [m])[0] == order[0] && (order + [m])[1..] == order[1..] + [m];
      DeliveriesSnoc(online, order[1..], m, except, msg);
    }
  }

  /** How often c is sent something. */
  function Copies(sent: seq<Sent>, c: ConnId): nat {
    if sent == [] then 0 else (if sent[0].conn == c then 1 else 0) + Copies(sent[1..], c)
  }

  lemma {:induction false} CopiesAppend(xs: seq<Sent>, ys: seq<Sent>, c: ConnId)
    ensures Copies(xs + ys, c) == Copies(xs, c) + Copies(ys, c)
  {
    if xs == [] {
      assert xs + ys == ys;
    } else {
      assert (xs + ys)[0] == xs[0] && (xs + ys)[1..] == xs[1..] + ys;
      CopiesAppend(xs[1..], ys, c);
    }
  }

  /** If different names go to different connections, each is sent one copy or none. */
  lemma {:induction false} CopiesOfDeliveries(online: map<string, ConnId>, order: seq<string>, msg: ServerMessage, c: ConnId)
    requires NoDuplicates(order)
    requires forall m | m in order :: m in online
    requires forall m, n | m in order && n in order && online[m] == online[n] :: m == n
    ensures Copies(Deliveries(online, order, {}, msg), c) == if exists m :: m in order && online[m] == c then 1 else 0
  {
    if order != [] {
      var head, rest := order[0], order[1..];
      CopiesOfDeliveries(online, rest, msg, c);
      var one := [Sent(online[head], msg)];
      CopiesAppend(one, Deliveries(online, rest, {}, msg), c);
      assert one[1..] == [];
      assert head !in rest;
      assert forall m :: m in order <==> m == head || m in rest;
      if online[head] == c {
        assert !exists m :: m in rest && online[m] == c;
      } else if exists m :: m in rest && online[m] == c {
        var m :| m in rest && online[m] == c;
        assert m in order;
      }
    }
  }

  lemma NoNamelessRoom(st: State, room: string)
    requires NoEmptyRoom(st) && room in st.rooms
    ensures room != ""
  {
  }

  lemma InOwnRoom(st: State, c: ConnId)
    requires Exact(st) && User(st, c) && st.sessions[c].currentRoom != ""
    ensures st.sessions[c].currentRoom in st.rooms
    ensures st.sessions[c].username in st.rooms[st.sessions[c].currentRoom]
  {
  }

  /** While no session has logged in twice, a room chat goes exactly once to every session
      whose current room it is, the sender included, and to nobody else. */
  lemma RoomChatReachesTheRoom(st: State, room: string, order: seq<string>, msg: ServerMessage, c: ConnId)
    requires Exact(st) && room in st.rooms && Enumerates(order, st.rooms[room])
    ensures Copies(Deliveries(st.online, order, {}, msg), c) ==
      if User(st, c) && st.sessions[c].currentRoom == room then 1 else 0
  {
    forall m | m in order
      ensures m in st.online && User(st, st.online[m])
      ensures st.sessions[st.online[m]].username == m && st.sessions[st.online[m]].currentRoom == room
    {
      assert m in st.rooms[room];
      var d :| User(st, d) && st.sessions[d].username == m && st.sessions[d].currentRoom == room;
      assert st.online[m] == d;
    }
    CopiesOfDeliveries(st.online, order, msg, c);
    if User(st, c) && st.sessions[c].currentRoom == room {
      var name := st.sessions[c].username;
      NoNamelessRoom(st, room);
      InOwnRoom(st, c);
      assert name in order && st.online[name] == c;
    }
  }

  /** In every run the guards on online_users_ skip no member of a room. */
  lemma GuardsNeverSkip(st: State, room: string, order: seq<string>, msg: ServerMessage)
    requires Inv(st) && room in st.rooms && Enumerates(order, st.rooms[room])
    ensures |Deliveries(st.online, order, {}, msg)| == |order|
  {
    assert forall m | m in order :: m in st.rooms[room];
    AllDelivered(st.online, order, msg);
  }

  lemma {:induction false} AllDelivered(online: map<string, ConnId>, order: seq<string>, msg: ServerMessage)
    requires forall m | m in order :: m in online
    ensures |Deliveries(online, order, {}, msg)| == |order|
  {
    if order != [] {
      AllDelivered(online, order[1..], msg);
    }
  }

  // --- Who is told what -----------------------------------------------------------------

  /** Everyone online in `members` outside `except` is sent `msg`, each once, in some order. */
  ghost predicate Told(online: map<string, ConnId>, members: set<string>, except: set<string>, msg: ServerMessage, sent: seq<Sent>) {
    exists order :: Enumerates(order, members) && sent == Deliveries(online, order, except, msg)
  }

  ghost predicate JoinTold(st: State, c: ConnId, room: string, sent: seq<Sent>)
    requires c in st.sessions
  {
    var s := st.sessions[c];
    var left := if s.currentRoom == "" then {} else Members(st.rooms, s.currentRoom) - {s.username};
    var there := if room == "" then {} else Members(AfterJoin(st, c, room).rooms, room);
    exists leaving, joining ::
      && Told(st.online, left, {}, LeaveNotice(s.username, s.currentRoom), leaving)
      && Told(st.online, there, {s.username}, JoinNotice(s.username, room), joining)
      && sent == leaving + joining + [Sent(c, NowIn(room))]
  }

  /** The messages sent and broadcast in answer to `msg` from c. */
  ghost predicate Answered(st: State, c: ConnId, msg: ClientMessage, sent: seq<Sent>, said: seq<ServerMessage>)
    requires c in st.sessions
  {
    var s := st.sessions[c];
    && said == (if msg.GlobalChat? && s.isLoggedIn then [GlobalText(s.username, msg.text)] else [])
    && match msg
       case Login(name) => sent == [Sent(c, LoginResponse(name !in st.online && name != ""))]
       case PrivateChat(target, text) =>
         sent == if !s.isLoggedIn then []
           else if target in st.online
           then [Sent(st.online[target], PrivateText(s.username, text)), Sent(c, Confirmation(target, text))]
           else [Sent(c, UserNotFound(target))]
       case JoinRoom(room) => if s.isLoggedIn then JoinTold(st, c, room, sent) else sent == []
       case RoomChat(room, text) =>
         if !s.isLoggedIn || s.currentRoom == "" then sent == [Sent(c, MustJoinFirst)]
         else if s.currentRoom != room then sent == []
         else Told(st.online, Members(st.rooms, room), {}, RoomText(s.username, text, room), sent)
       case _ => sent == []
  }

  /** The messages sent and broadcast while `evt` is processed. */
  ghost predicate Reaction(st: State, evt: Event, now: real, sent: seq<Sent>, said: seq<ServerMessage>) {
    var c := evt.conn;
    if c !in st.sessions || (c in st.closed && !evt.Disconnect?) then sent == [] && said == []
    else match evt
      case Connect(_) => sent == [] && said == []
      case Disconnect(_) =>
        var s := st.sessions[c];
        said == [] &&
          if s.isLoggedIn && s.username != "" && s.currentRoom != ""
          then Told(st.online - {s.username}, Members(st.rooms, s.currentRoom) - {s.username}, {},
                    LeaveNotice(s.username, s.currentRoom), sent)
          else sent == []
      case Message(_, payload) =>
        if payload.None? then sent == [] && said == []
        else if !Charge(st.sessions[c].bucket, now).0 then sent == [Sent(c, TooFast)] && said == []
        else Answered(st, c, payload.value, sent, said)
  }

  /** What each input of a run led to. */
  datatype Turn = Turn(sent: seq<Sent>, said: seq<ServerMessage>)

  ghost predicate TurnOf(st: State, i: Input, turn: Turn) {
    match i
    case Deliver(evt, now) => Reaction(st, evt, now, turn.sent, turn.said)
    case NetworkClose(_) => turn == Turn([], [])
  }

  /** The names of d among `members`. */
  ghost function NamesIn(online: map<string, ConnId>, members: set<string>, d: ConnId): set<string> {
    set m | m in members && m in online && online[m] == d
  }

  lemma {:induction false} CopiesAreNames(online: map<string, ConnId>, order: seq<string>, members: set<string>,
      msg: ServerMessage, d: ConnId)
    requires Enumerates(order, members)
    ensures Copies(Deliveries(online, order, {}, msg), d) == |NamesIn(online, members, d)|
    decreases |order|
  {
    if order == [] {
      assert NamesIn(online, members, d) == {};
    } else {
      var head, rest := order[0], members - {order[0]};
      CopiesAreNames(online, order[1..], rest, msg, d);
      var first := if head in online then [Sent(online[head], msg)] else [];
      CopiesAppend(first, Deliveries(online, order[1..], {}, msg), d);
      assert first != [] ==> first[1..] == [];
      assert head !in order[1..];
      if head in online && online[head] == d {
        assert NamesIn(online, members, d) == NamesIn(online, rest, d) + {head};
      } else {
        assert NamesIn(online, members, d) == NamesIn(online, rest, d);
      }
    }
  }

  /** c sends a room chat to its own room, and the limiter lets it pass. */
  predicate ChatsInRoom(st: State, i: Input, c: ConnId, room: string) {
    && i.Deliver? && i.evt.Message? && i.evt.conn == c && c in st.sessions && c !in st.closed
    && i.evt.payload.Some? && i.evt.payload.value.RoomChat? && i.evt.payload.value.room == room
    && Charge(st.sessions[c].bucket, i.now).0
    && st.sessions[c].isLoggedIn && st.sessions[c].currentRoom == room && room != ""
  }

  /** A room chat goes to a connection as often as the room lists a name of its, in every run:
      at least once to each live session whose current room it is, the sender included. While
      no session has logged in twice it goes exactly once to each of these, and to nobody else. */
  lemma RoomChatReaches(st: State, i: Input, c: ConnId, room: string, turn: Turn, d: ConnId)
    requires Inv(st) && ChatsInRoom(st, i, c, room) && TurnOf(st, i, turn)
    ensures room in st.rooms && Copies(turn.sent, d) == |NamesIn(st.online, st.rooms[room], d)|
    ensures Live(st, d) && st.sessions[d].currentRoom == room ==> Copies(turn.sent, d) >= 1
    ensures Exact(st) ==> Copies(turn.sent, d) == if User(st, d) && st.sessions[d].currentRoom == room then 1 else 0
  {
    assert Live(st, c) && Anchored(st, c, room);
    var msg := RoomText(st.sessions[c].username, i.evt.payload.value.text, room);
    var order :| Enumerates(order, Members(st.rooms, room)) && turn.sent == Deliveries(st.online, order, {}, msg);
    CopiesAreNames(st.online, order, st.rooms[room], msg, d);
    if Live(st, d) && st.sessions[d].currentRoom == room {
      NamedInRoom(st, d);
    }
    if Exact(st) {
      RoomChatReachesTheRoom(st, room, order, msg, d);
    }
  }

  lemma NamedInRoom(st: State, d: ConnId)
    requires Inv(st) && Live(st, d) && st.sessions[d].currentRoom != ""
    ensures st.sessions[d].currentRoom in st.rooms
    ensures NamesIn(st.online, st.rooms[st.sessions[d].currentRoom], d) != {}
  {
    var room := st.sessions[d].currentRoom;
    assert Anchored(st, d, room);
    var m :| m in st.rooms[room] && m in st.online && st.online[m] == d;
    assert m in NamesIn(st.online, st.rooms[room], d);
  }

  /** In a run in which no session logs in twice, every room chat is sent exactly once to each
      session whose current room it is, and to nobody else. `turn` is what LogicLoop reports. */
  lemma RoomChatOnce(inputs: seq<Input>, k: nat, c: ConnId, room: string, turn: Turn, d: ConnId)
    requires AdmissibleRun(EMPTY, inputs) && !HasRelogin(EMPTY, inputs) && k < |inputs|
    requires var st := Run(EMPTY, inputs[..k]); ChatsInRoom(st, inputs[k], c, room) && TurnOf(st, inputs[k], turn)
    ensures var st := Run(EMPTY, inputs[..k]);
            Copies(turn.sent, d) == if User(st, d) && st.sessions[d].currentRoom == room then 1 else 0
  {
    UpTo(EMPTY, inputs, k);
    EveryRunIsConsistent(inputs[..k]);
    ExactUnlessRelogin(inputs[..k]);
    RoomChatReaches(Run(EMPTY, inputs[..k]), inputs[k], c, room, turn, d);
  }

  class ChatApp {
    var onlineUsers: map<string, ConnId>
    var rooms: map<string, set<string>>
    /** user_data of every connection that has one. */
    var sessions: map<ConnId, ChatSession>
    /** The closed flags of the connections, which other threads set as well. */
    var closed: set<ConnId>
    /** Calls of SendProto, BroadcastProto and Close, in order. */
    var outbox: seq<Sent>
    var broadcasts: seq<ServerMessage>
    var closeCalls: seq<ConnId>
    ghost var gone: set<ConnId>

    ghost function Now(): State
      reads this
    {
      State(onlineUsers, rooms, sessions, gone, closed)
    }

    constructor ()
      ensures Now() == EMPTY && outbox == [] && broadcasts == [] && closeCalls == []
    {
      onlineUsers, rooms, sessions, closed := map[], map[], map[], {};
      outbox, broadcasts, closeCalls := [], [], [];
      gone := {};
    }

    method SendProto(c: ConnId, msg: ServerMessage)
      modifies `outbox
      ensures outbox == old(outbox) + [Sent(c, msg)]
    {
      outbox := outbox + [Sent(c, msg)];
    }

    /** The loops over the members of a room. */
    method SendToMembers(members: set<string>, except: set<string>, msg: ServerMessage) returns (ghost sent: seq<Sent>)
      modifies `outbox
      ensures outbox == old(outbox) + sent && Told(onlineUsers, members, except, msg, sent)
    {
      ghost var order: seq<string> := [];
      var todo := members;
      while todo != {}
        invariant todo <= members
        invariant Enumerates(order, members - todo)
        invariant outbox == old(outbox) + Deliveries(onlineUsers, order, except, msg)
        decreases todo
      {
        var member :| member in todo;
        if member !in except && member in onlineUsers {
          SendProto(onlineUsers[member], msg);
        }
        DeliveriesSnoc(onlineUsers, order, member, except, msg);
        order := order + [member];
        todo := todo - {member};
      }
      sent := Deliveries(onlineUsers, order, except, msg);
    }

    method HandleConnect(c: ConnId, now: real)
      modifies `sessions
      ensures Now() == AfterConnect(old(Now()), c, now)
    {
      sessions := sessions[c := ChatSession("", false, "", Fresh(now))];
    }

    /** rooms_[room].erase(name), the notice to those left, and the end of an empty room. */
    method LeaveRoom(room: string, name: string) returns (ghost sent: seq<Sent>)
      modifies `rooms, `outbox
      ensures rooms == Leave(old(rooms), room, name)
      ensures outbox == old(outbox) + sent
      ensures Told(onlineUsers, Members(old(rooms), room) - {name}, {}, LeaveNotice(name, room), sent)
    {
      rooms := rooms[room := (if room in rooms then rooms[room] else {}) - {name}];
      sent := [];
      if room in rooms {
        sent := SendToMembers(rooms[room], {}, LeaveNotice(name, room));
        if rooms[room] == {} {
          rooms := rooms - {room};
        }
      }
    }

    /** Everyone left in the room is told; the disconnecting name is off the index by then. */
    method HandleDisconnect(c: ConnId, ghost now: real) returns (ghost sent: seq<Sent>)
      modifies `onlineUsers, `rooms, `outbox, `gone
      ensures Now() == AfterDisconnect(old(Now()), c)
      ensures outbox == old(outbox) + sent && Reaction(old(Now()), Disconnect(c), now, sent, [])
    {
      gone := gone + {c};
      sent := [];
      if c !in sessions {
        return;
      }
      var session := sessions[c];
      if session.isLoggedIn && session.username != "" {
        onlineUsers := onlineUsers - {session.username};
        var room := session.currentRoom;
        if room != "" {
          sent := LeaveRoom(room, session.username);
        }
      }
    }

    method HandleLogin(c: ConnId, name: string)
      requires c in sessions
      modifies `sessions, `onlineUsers, `outbox
      ensures Now() == AfterLogin(old(Now()), c, name)
      ensures outbox == old(outbox) + [Sent(c, LoginResponse(name !in old(onlineUsers) && name != ""))]
    {
      if name in onlineUsers || name == "" {
        SendProto(c, LoginResponse(false));
        return;
      }
      sessions := sessions[c := sessions[c].(username := name, isLoggedIn := true)];
      onlineUsers := onlineUsers[name := c];
      SendProto(c, LoginResponse(true));
    }

    method HandleGlobalChat(c: ConnId, text: string)
      requires c in sessions
      modifies `broadcasts
      ensures broadcasts == old(broadcasts) +
        if sessions[c].isLoggedIn then [GlobalText(sessions[c].username, text)] else []
    {
      if !sessions[c].isLoggedIn {
        return;
      }
      broadcasts := broadcasts + [GlobalText(sessions[c].username, text)];
    }

    method HandlePrivateChat(c: ConnId, target: string, text: string) returns (ghost sent: seq<Sent>)
      requires c in sessions
      modifies `outbox
      ensures outbox == old(outbox) + sent && Answered(Now(), c, PrivateChat(target, text), sent, [])
    {
      var s := sessions[c];
      sent := [];
      if !s.isLoggedIn {
        return;
      }
      if target in onlineUsers {
        SendProto(onlineUsers[target], PrivateText(s.username, text));
        SendProto(c, Confirmation(target, text));
        sent := [Sent(onlineUsers[target], PrivateText(s.username, text)), Sent(c, Confirmation(target, text))];
      } else {
        SendProto(c, UserNotFound(target));
        sent := [Sent(c, UserNotFound(target))];
      }
    }

    /** The old room hears of the leave, the new one of the join, the joiner of the result. */
    method HandleJoinRoom(c: ConnId, room: string) returns (ghost sent: seq<Sent>)
      requires c in sessions
      modifies `sessions, `rooms, `outbox
      ensures Now() == AfterJoin(old(Now()), c, room)
      ensures outbox == old(outbox) + sent
      ensures if old(sessions[c]).isLoggedIn then JoinTold(old(Now()), c, room, sent) else sent == []
    {
      sent := [];
      var s := sessions[c];
      if !s.isLoggedIn {
        return;
      }
      var oldRoom := s.currentRoom;
      ghost var leaving, joining: seq<Sent> := [], [];
      if oldRoom != "" {
        leaving := LeaveRoom(oldRoom, s.username);
      } else {
        NobodyToTell(onlineUsers, {}, LeaveNotice(s.username, oldRoom));
      }
      sessions := sessions[c := s.(currentRoom := room)];
      if room != "" {
        rooms := rooms[room := (if room in rooms then rooms[room] else {}) + {s.username}];
        joining := SendToMembers(rooms[room], {s.username}, JoinNotice(s.username, room));
      } else {
        NobodyToTell(onlineUsers, {s.username}, JoinNotice(s.username, room));
      }
      SendProto(c, NowIn(room));
      sent := leaving + joining + [Sent(c, NowIn(room))];
    }

    /** Only the sender's own room can be addressed; everyone listed there gets the text. */
    method HandleRoomChat(c: ConnId, room: string, text: string) returns (ghost sent: seq<Sent>)
      requires c in sessions
      modifies `rooms, `outbox
      ensures Now() == AfterRoomChat(old(Now()), c, room)
      ensures outbox == old(outbox) + sent && Answered(old(Now()), c, RoomChat(room, text), sent, [])
    {
      var s := sessions[c];
      sent := [];
      if !s.isLoggedIn || s.currentRoom == "" {
        SendProto(c, MustJoinFirst);
        sent := [Sent(c, MustJoinFirst)];
        return;
      }
      if s.currentRoom != room {
        return;
      }
      if s.currentRoom !in rooms {
        rooms := rooms[s.currentRoom := {}];
      }
      assert rooms == old(rooms)[room := Members(old(rooms), room)];
      sent := SendToMembers(rooms[s.currentRoom], {}, RoomText(s.username, text, s.currentRoom));
    }

    /** The rate limiter: refill, cap, check, take one. */
    method TakeToken(c: ConnId, now: real) returns (ok: bool)
      requires c in sessions
      modifies `sessions
      ensures var (passed, bucket) := Charge(old(sessions[c]).bucket, now);
              ok == passed && sessions == old(sessions)[c := old(sessions[c]).(bucket := bucket)]
    {
      var bucket := sessions[c].bucket;
      var elapsed := now - bucket.lastRefill;
      bucket := bucket.(tokens := bucket.tokens + elapsed);
      if bucket.tokens > BURST {
        bucket := bucket.(tokens := BURST);
      }
      bucket := bucket.(lastRefill := now);
      ok := bucket.tokens >= 1.0;
      if ok {
        bucket := bucket.(tokens := bucket.tokens - 1.0);
      }
      sessions := sessions[c := sessions[c].(bucket := bucket)];
    }

    method Dispatch(c: ConnId, msg: ClientMessage) returns (ghost sent: seq<Sent>, ghost said: seq<ServerMessage>)
      requires c in sessions
      modifies `sessions, `onlineUsers, `rooms, `outbox, `broadcasts
      ensures Now() == ChatState.Dispatch(old(Now()), c, msg)
      ensures outbox == old(outbox) + sent && broadcasts == old(broadcasts) + said
      ensures Answered(old(Now()), c, msg, sent, said)
    {
      sent, said := [], [];
      match msg {
        case Login(name) =>
          sent := [Sent(c, LoginResponse(name !in onlineUsers && name != ""))];
          HandleLogin(c, name);
        case GlobalChat(text) =>
          said := if sessions[c].isLoggedIn then [GlobalText(sessions[c].username, text)] else [];
          HandleGlobalChat(c, text);
        case PrivateChat(target, text) =>
          sent := HandlePrivateChat(c, target, text);
        case JoinRoom(room) =>
          sent := HandleJoinRoom(c, room);
        case RoomChat(room, text) =>
          sent := HandleRoomChat(c, room, text);
        case Unset =>
      }
    }

    method HandleMessage(c: ConnId, payload: Option<ClientMessage>, now: real)
      returns (ghost sent: seq<Sent>, ghost said: seq<ServerMessage>)
      requires c !in closed
      modifies `sessions, `onlineUsers, `rooms, `outbox, `broadcasts, `closed, `closeCalls
      ensures Now() == AfterMessage(old(Now()), c, payload, now)
      ensures outbox == old(outbox) + sent && broadcasts == old(broadcasts) + said
      ensures Reaction(old(Now()), Message(c, payload), now, sent, said)
      ensures closeCalls == old(closeCalls) +
        if c in old(sessions) && payload.Some? && !Charge(old(sessions)[c].bucket, now).0 then [c] else []
    {
      sent, said := [], [];
      if c !in sessions || payload.None? {
        return;
      }
      ghost var before := Now();
      var ok := TakeToken(c, now);
      if !ok {
        SendProto(c, TooFast);
        closed := closed + {c};
        closeCalls := closeCalls + [c];
        sent := [Sent(c, TooFast)];
        return;
      }
      ghost var charged := Now();
      sent, said := Dispatch(c, payload.value);
      BucketIsNoMatter(before, c, charged.sessions[c].bucket, payload.value, sent, said);
    }

    method ProcessEvent(evt: Event, now: real) returns (ghost sent: seq<Sent>, ghost said: seq<ServerMessage>)
      modifies this
      ensures Now() == AfterEvent(old(Now()), evt, now)
      ensures outbox == old(outbox) + sent && broadcasts == old(broadcasts) + said
      ensures Reaction(old(Now()), evt, now, sent, said)
    {
      sent, said := [], [];
      if evt.conn in closed && !evt.Disconnect? {
        return;
      }
      match evt {
        case Connect(c) => HandleConnect(c, now);
        case Disconnect(c) => sent := HandleDisconnect(c, now);
        case Message(c, payload) => sent, said := HandleMessage(c, payload, now);
      }
    }
  }

  lemma NobodyToTell(online: map<string, ConnId>, except: set<string>, msg: ServerMessage)
    ensures Told(online, {}, except, msg, [])
  {
    assert Enumerates([], {}) && Deliveries(online, [], except, msg) == [];
  }

  lemma BucketIsNoMatter(st: State, c: ConnId, b: Bucket, msg: ClientMessage, sent: seq<Sent>, said: seq<ServerMessage>)
    requires c in st.sessions && Answered(WithBucket(st, c, b), c, msg, sent, said)
    ensures Answered(st, c, msg, sent, said)
  {
  }

  lemma {:induction false} RunSnoc(st: State, inputs: seq<Input>, i: Input)
    ensures Run(st, inputs + [i]) == Step(Run(st, inputs), i)
    decreases |inputs|
  {
    if inputs == [] {
      assert inputs + [i] == [i] && [i][1..] == [];
    } else {
      assert (inputs + [i])[0] == inputs[0] && (inputs + [i])[1..] == inputs[1..] + [i];
      RunSnoc(Step(st, inputs[0]), inputs[1..], i);
    }
  }

  /** The logic thread over a whole run: it ends in the state that `Run` computes, and all it
      sent, in order, is what each event calls for in the state it was handled in. */
  method LogicLoop(inputs: seq<Input>)
    returns (st: State, outbox: seq<Sent>, broadcasts: seq<ServerMessage>, ghost turns: seq<Turn>)
    ensures st.online == Run(EMPTY, inputs).online && st.rooms == Run(EMPTY, inputs).rooms
    ensures st.sessions == Run(EMPTY, inputs).sessions && st.closed == Run(EMPTY, inputs).closed
    ensures |turns| == |inputs|
    ensures forall i | 0 <= i < |inputs| :: TurnOf(Run(EMPTY, inputs[..i]), inputs[i], turns[i])
    ensures outbox == Flatten(SentIn(turns)) && broadcasts == Flatten(SaidIn(turns))
  {
    hide Reaction;
    hide AfterEvent;
    var app := new ChatApp();
    turns := [];
    assert inputs[..0] == [];
    for k := 0 to |inputs|
      invariant fresh(app)
      invariant |turns| == k && app.Now() == Run(EMPTY, inputs[..k])
      invariant forall i | 0 <= i < k :: TurnOf(Run(EMPTY, inputs[..i]), inputs[i], turns[i])
      invariant app.outbox == Flatten(SentIn(turns)) && app.broadcasts == Flatten(SaidIn(turns))
    {
      assert inputs[..k + 1] == inputs[..k] + [inputs[k]];
      RunSnoc(EMPTY, inputs[..k], inputs[k]);
      ghost var turn := Turn([], []);
      match inputs[k] {
        case Deliver(evt, now) =>
          ghost var sent, said := app.ProcessEvent(evt, now);
          turn := Turn(sent, said);
        case NetworkClose(c) =>
          app.closed := app.closed + {c};
      }
      TurnsSnoc(turns, turn);
      turns := turns + [turn];
    }
    assert inputs[..|inputs|] == inputs;
    st := State(app.onlineUsers, app.rooms, app.sessions, {}, app.closed);
    outbox, broadcasts := app.outbox, app.broadcasts;
  }

  ghost function SentIn(turns: seq<Turn>): seq<seq<Sent>> {
    seq(|turns|, i requires 0 <= i < |turns| => turns[i].sent)
  }

  ghost function SaidIn(turns: seq<Turn>): seq<seq<ServerMessage>> {
    seq(|turns|, i requires 0 <= i < |turns| => turns[i].said)
  }

  lemma TurnsSnoc(turns: seq<Turn>, turn: Turn)
    ensures Flatten(SentIn(turns + [turn])) == Flatten(SentIn(turns)) + turn.sent
    ensures Flatten(SaidIn(turns + [turn])) == Flatten(SaidIn(turns)) + turn.said
  {
    assert SentIn(turns + [turn]) == SentIn(turns) + [turn.sent];
    assert SaidIn(turns + [turn]) == SaidIn(turns) + [turn.said];
    FlattenSnoc(SentIn(turns), turn.sent);
    FlattenSnoc(SaidIn(turns), turn.said);
  }
}
