/** Who receives what, said about the messages themselves. `TurnOf` ties a turn to the input it
    answers, as LogicLoop reports it; nothing here names the handlers. From v4/chatapp.h. */
module ChatReplies {
  import opened Bytes
  import opened TokenBucket
  import opened ChatState
  import opened RateLimits
  import opened ChatLaws
  import opened ChatApps

  /** How often d is sent exactly this message. */
  function Times(sent: seq<Sent>, d: ConnId, msg: ServerMessage): nat {
    multiset(sent)[Sent(d, msg)]
  }

  /** Nothing but these messages is sent. */
  predicate OnlyThese(sent: seq<Sent>, msgs: set<ServerMessage>) {
    forall k | 0 <= k < |sent| :: sent[k].msg in msgs
  }

  // --- Answers to the sender ------------------------------------------------------------

  /** A login is answered once, to the sender: yes exactly if the name was not online and now is. */
  lemma LoginIsAnswered(st: State, i: Input, c: ConnId, name: string, turn: Turn)
    requires Inv(st) && Served(st, i, c, Login(name)) && TurnOf(st, i, turn)
    ensures turn == Turn([Sent(c, LoginResponse(name !in st.online && name in Step(st, i).online))], [])
  {
    LoginEnters(st, i, c, name);
  }

  /** A private chat: the text to the target, under the sender's name, and the confirmation to
      the sender, each once; to an unknown target, an error to the sender alone. */
  lemma PrivateChatReaches(st: State, i: Input, c: ConnId, target: string, text: string, turn: Turn)
    requires Inv(st) && Served(st, i, c, PrivateChat(target, text)) && LoggedIn(st, c) && TurnOf(st, i, turn)
    ensures turn.said == []
    ensures forall d | User(st, d) && st.sessions[d].username == target ::
              multiset(turn.sent) == multiset{Sent(d, PrivateText(st.sessions[c].username, text)),
                                              Sent(c, Confirmation(target, text))}
    ensures target in st.online ==>
              multiset(turn.sent) == multiset{Sent(st.online[target], PrivateText(st.sessions[c].username, text)),
                                              Sent(c, Confirmation(target, text))}
    ensures target !in st.online ==> turn.sent == [Sent(c, UserNotFound(target))]
  {
    if target in st.online {
      var text', ok := Sent(st.online[target], PrivateText(st.sessions[c].username, text)), Sent(c, Confirmation(target, text));
      assert turn.sent == [text', ok] || turn.sent == [ok, text'];
    }
  }

  /** Before login a private or global chat or a join has no answer at all. */
  lemma SilentBeforeLogin(st: State, i: Input, c: ConnId, msg: ClientMessage, turn: Turn)
    requires Served(st, i, c, msg) && !LoggedIn(st, c) && TurnOf(st, i, turn)
    requires msg.PrivateChat? || msg.GlobalChat? || msg.JoinRoom? || msg.Unset?
    ensures turn == Turn([], [])
  {
  }

  /** A global chat is one broadcast of the text under the sender's name. */
  lemma GlobalChatIsSaid(st: State, i: Input, c: ConnId, text: string, turn: Turn)
    requires Served(st, i, c, GlobalChat(text)) && LoggedIn(st, c) && TurnOf(st, i, turn)
    ensures turn == Turn([], [GlobalText(st.sessions[c].username, text)])
  {
  }

  /** A refused message is answered with the one reproach. */
  lemma RefusalIsTold(st: State, i: Input, c: ConnId, turn: Turn)
    requires Refuses(st, i, c) && TurnOf(st, i, turn)
    ensures turn == Turn([Sent(c, TooFast)], [])
  {
  }

  /** A connect, and everything ignored, is answered with nothing. */
  lemma TheRestIsSilent(st: State, i: Input, turn: Turn)
    requires TurnOf(st, i, turn)
    requires i.Deliver? ==>
      (i.evt.Connect? && i.evt.conn !in st.sessions) || (i.evt.Message? && !Reaches(st, i, i.evt.conn))
    ensures turn == Turn([], [])
  {
  }

  // --- Notices to a room ----------------------------------------------------------------

  lemma TimesAppend(xs: seq<Sent>, ys: seq<Sent>, d: ConnId, msg: ServerMessage)
    ensures Times(xs + ys, d, msg) == Times(xs, d, msg) + Times(ys, d, msg)
    ensures OnlyThese(xs, {msg}) && OnlyThese(ys, {msg}) ==> OnlyThese(xs + ys, {msg})
  {
    assert multiset(xs + ys) == multiset(xs) + multiset(ys);
  }

  lemma OneNameMore(online: map<string, ConnId>, members: set<string>, except: set<string>, head: string, d: ConnId)
    requires head in members
    ensures |NamesIn(online, members - except, d)| == |NamesIn(online, members - {head} - except, d)|
      + if head !in except && head in online && online[head] == d then 1 else 0
  {
    var all, rest := NamesIn(online, members - except, d), NamesIn(online, members - {head} - except, d);
    if head !in except && head in online && online[head] == d {
      assert all == rest + {head};
    } else {
      assert all == rest;
    }
  }

  lemma {:induction false} DeliveriesCount(online: map<string, ConnId>, order: seq<string>, members: set<string>,
      except: set<string>, msg: ServerMessage, d: ConnId)
    requires Enumerates(order, members)
    ensures Times(Deliveries(online, order, except, msg), d, msg) == |NamesIn(online, members - except, d)|
    ensures OnlyThese(Deliveries(online, order, except, msg), {msg})
    decreases |order|
  {
    if order == [] {
      assert NamesIn(online, members - except, d) == {};
    } else {
      var head := order[0];
      var first: seq<Sent> := if head !in except && head in online then [Sent(online[head], msg)] else [];
      assert head !in order[1..];
      DeliveriesCount(online, order[1..], members - {head}, except, msg, d);
      hide NamesIn;
      TimesAppend(first, Deliveries(online, order[1..], except, msg), d, msg);
      OneNameMore(online, members, except, head, d);
    }
  }

  lemma ToldCount(online: map<string, ConnId>, members: set<string>, except: set<string>, msg: ServerMessage,
      sent: seq<Sent>, d: ConnId)
    requires Told(online, members, except, msg, sent)
    ensures Times(sent, d, msg) == |NamesIn(online, members - except, d)|
    ensures OnlyThese(sent, {msg})
  {
    var order :| Enumerates(order, members) && sent == Deliveries(online, order, except, msg);
    DeliveriesCount(online, order, members, except, msg, d);
  }

  /** The text goes out under the sender's name, as often to each connection as the room lists a
      name of it, and nothing else does. */
  lemma RoomChatSays(st: State, i: Input, c: ConnId, room: string, text: string, turn: Turn, d: ConnId)
    requires Inv(st) && Served(st, i, c, RoomChat(room, text)) && LoggedIn(st, c) && TurnOf(st, i, turn)
    requires st.sessions[c].currentRoom == room && room != ""
    ensures var msg := RoomText(st.sessions[c].username, text, room);
            && turn.said == [] && OnlyThese(turn.sent, {msg})
            && Times(turn.sent, d, msg) == |NamesIn(st.online, Members(st.rooms, room), d)|
  {
    var msg := RoomText(st.sessions[c].username, text, room);
    ToldCount(st.online, Members(st.rooms, room), {}, msg, turn.sent, d);
    assert Members(st.rooms, room) - {} == Members(st.rooms, room);
  }

  /** To another room nothing is sent; from no room, or before login, an error comes back. */
  lemma RoomChatElsewhere(st: State, i: Input, c: ConnId, room: string, text: string, turn: Turn)
    requires Served(st, i, c, RoomChat(room, text)) && TurnOf(st, i, turn)
    requires !LoggedIn(st, c) || st.sessions[c].currentRoom == "" || st.sessions[c].currentRoom != room
    ensures turn == Turn(if !LoggedIn(st, c) || st.sessions[c].currentRoom == "" then [Sent(c, MustJoinFirst)] else [], [])
  {
  }

  lemma NoneOf(sent: seq<Sent>, msgs: set<ServerMessage>, d: ConnId, m: ServerMessage)
    requires OnlyThese(sent, msgs) && m !in msgs
    ensures Times(sent, d, m) == 0
  {
  }

  /** Three kinds of messages, one after the other. */
  lemma CountThree(xs: seq<Sent>, ys: seq<Sent>, c: ConnId, d: ConnId, a: ServerMessage, b: ServerMessage, z: ServerMessage)
    requires OnlyThese(xs, {a}) && OnlyThese(ys, {b}) && a != b && a != z && b != z
    ensures var sent := xs + ys + [Sent(c, z)];
            && OnlyThese(sent, {a, b, z})
            && Times(sent, d, a) == Times(xs, d, a) && Times(sent, d, b) == Times(ys, d, b)
            && Times(sent, d, z) == if d == c then 1 else 0
  {
    NoneOf(xs, {a}, d, b);
    NoneOf(xs, {a}, d, z);
    NoneOf(ys, {b}, d, a);
    NoneOf(ys, {b}, d, z);
    assert multiset(xs + ys + [Sent(c, z)]) == multiset(xs) + multiset(ys) + multiset{Sent(c, z)};
  }

  /** A join: the names left behind in the old room hear of the leave, the others in the new room
      of the join, the sender of the result, each once; nobody hears anything else. */
  lemma JoinIsTold(st: State, i: Input, c: ConnId, room: string, turn: Turn, d: ConnId)
    requires Inv(st) && Served(st, i, c, JoinRoom(room)) && LoggedIn(st, c) && TurnOf(st, i, turn)
    ensures var name, old' := st.sessions[c].username, st.sessions[c].currentRoom;
            var left, joined := LeaveNotice(name, old'), JoinNotice(name, room);
            && turn.said == [] && OnlyThese(turn.sent, {left, joined, NowIn(room)})
            && Times(turn.sent, d, left) == |NamesIn(st.online, Behind(st, old', name), d)|
            && Times(turn.sent, d, joined) == |NamesIn(st.online, Behind(st, room, name), d)|
            && Times(turn.sent, d, NowIn(room)) == if d == c then 1 else 0
  {
    var name, old' := st.sessions[c].username, st.sessions[c].currentRoom;
    var leaving, joining := NoticesOfJoin(st, i, c, room, turn);
    hide *;
    ToldCount(st.online, Behind(st, old', name), {}, LeaveNotice(name, old'), leaving, d);
    ToldCount(st.online, Behind(st, room, name), {}, JoinNotice(name, room), joining, d);
    NoneLess(Behind(st, old', name));
    NoneLess(Behind(st, room, name));
    CountThree(leaving, joining, c, d, LeaveNotice(name, old'), JoinNotice(name, room), NowIn(room));
  }

  lemma NoneLess(members: set<string>)
    ensures members - {} == members
  {
  }

  /** The two rounds of notices, each to the members but the one who moves. */
  lemma NoticesOfJoin(st: State, i: Input, c: ConnId, room: string, turn: Turn) returns (leaving: seq<Sent>, joining: seq<Sent>)
    requires Inv(st) && Served(st, i, c, JoinRoom(room)) && LoggedIn(st, c) && TurnOf(st, i, turn)
    ensures var name, old' := st.sessions[c].username, st.sessions[c].currentRoom;
            && Told(st.online, Behind(st, old', name), {}, LeaveNotice(name, old'), leaving)
            && Told(st.online, Behind(st, room, name), {}, JoinNotice(name, room), joining)
    ensures turn == Turn(leaving + joining + [Sent(c, NowIn(room))], [])
  {
    var name, old' := st.sessions[c].username, st.sessions[c].currentRoom;
    var there := if room == "" then {} else Members(AfterJoin(st, c, room).rooms, room);
    leaving, joining :|
      && Told(st.online, if old' == "" then {} else Members(st.rooms, old') - {name}, {}, LeaveNotice(name, old'), leaving)
      && Told(st.online, there, {name}, JoinNotice(name, room), joining)
      && turn.sent == leaving + joining + [Sent(c, NowIn(room))];
    if room != "" {
      WhoIsThere(st, c, room);
    }
    assert there - {name} == Behind(st, room, name);
    ToldBehind(st.online, there, name, JoinNotice(name, room), joining);
  }

  lemma {:induction false} DeliveriesSkip(online: map<string, ConnId>, order: seq<string>, name: string, msg: ServerMessage)
    returns (order': seq<string>)
    requires NoDuplicates(order)
    ensures NoDuplicates(order') && (forall m :: m in order' <==> m in order && m != name)
    ensures Deliveries(online, order, {name}, msg) == Deliveries(online, order', {}, msg)
  {
    if order == [] {
      order' := [];
    } else {
      var rest := DeliveriesSkip(online, order[1..], name, msg);
      if order[0] == name {
        order' := rest;
      } else {
        order' := [order[0]] + rest;
        assert order'[1..] == rest;
        assert order[0] !in order[1..];
      }
    }
  }

  /** Telling all but one is telling the rest. */
  lemma ToldBehind(online: map<string, ConnId>, members: set<string>, name: string, msg: ServerMessage, sent: seq<Sent>)
    requires Told(online, members, {name}, msg, sent)
    ensures Told(online, members - {name}, {}, msg, sent)
  {
    var order :| Enumerates(order, members) && sent == Deliveries(online, order, {name}, msg);
    var order' := DeliveriesSkip(online, order, name, msg);
    assert Enumerates(order', members - {name});
  }

  /** The members of a room but one; no room has no members. */
  function Behind(st: State, room: string, name: string): set<string> {
    if room == "" then {} else Members(st.rooms, room) - {name}
  }

  lemma WhoIsThere(st: State, c: ConnId, room: string)
    requires Inv(st) && LoggedIn(st, c) && room != ""
    ensures Members(AfterJoin(st, c, room).rooms, room) - {st.sessions[c].username} == Behind(st, room, st.sessions[c].username)
  {
  }

  /** With exact indexes the notices of a join go, once each, to the other sessions in the room
      left and in the room entered, and to nobody else. */
  lemma JoinIsToldOnce(st: State, i: Input, c: ConnId, room: string, turn: Turn, d: ConnId)
    requires Inv(st) && Exact(st) && Served(st, i, c, JoinRoom(room)) && LoggedIn(st, c) && TurnOf(st, i, turn)
    ensures var name, old' := st.sessions[c].username, st.sessions[c].currentRoom;
            && Times(turn.sent, d, LeaveNotice(name, old')) == (if OtherIn(st, c, old', d) then 1 else 0)
            && Times(turn.sent, d, JoinNotice(name, room)) == (if OtherIn(st, c, room, d) then 1 else 0)
  {
    JoinIsTold(st, i, c, room, turn, d);
    BehindIsOthers(st, c, st.sessions[c].currentRoom, d);
    BehindIsOthers(st, c, room, d);
  }

  /** Another user in that room. */
  predicate OtherIn(st: State, c: ConnId, room: string, d: ConnId) {
    User(st, d) && d != c && room != "" && st.sessions[d].currentRoom == room
  }

  lemma BehindIsOthers(st: State, c: ConnId, room: string, d: ConnId)
    requires Inv(st) && Exact(st) && User(st, c)
    ensures |NamesIn(st.online, Behind(st, room, st.sessions[c].username), d)| == if OtherIn(st, c, room, d) then 1 else 0
  {
    var name := st.sessions[c].username;
    var names := NamesIn(st.online, Behind(st, room, name), d);
    forall n | n in names
      ensures User(st, d) && n == st.sessions[d].username && st.sessions[d].currentRoom == room && d != c
    {
      MemberIsUser(st, room, n);
    }
    if OtherIn(st, c, room, d) {
      InOwnRoom(st, d);
      assert st.sessions[d].username != name;
      assert st.sessions[d].username in names;
      assert names == {st.sessions[d].username};
    } else {
      assert names == {};
    }
  }

  lemma MemberIsUser(st: State, room: string, n: string)
    requires Exact(st) && n in Members(st.rooms, room)
    ensures n in st.online && User(st, st.online[n])
    ensures st.sessions[st.online[n]].username == n && st.sessions[st.online[n]].currentRoom == room
  {
    assert room in st.rooms && n in st.rooms[room];
    var e :| User(st, e) && st.sessions[e].username == n && st.sessions[e].currentRoom == room;
    assert st.online[n] == e;
  }

  /** A disconnect: the names left behind in the room hear of the leave, each once, and nobody
      hears anything else. */
  lemma GoodbyeIsTold(st: State, c: ConnId, now: real, turn: Turn, d: ConnId)
    requires Inv(st) && Admissible(st, Deliver(Disconnect(c), now)) && TurnOf(st, Deliver(Disconnect(c), now), turn)
    ensures turn.said == []
    ensures if User(st, c) && st.sessions[c].currentRoom != "" then
              var name, room := st.sessions[c].username, st.sessions[c].currentRoom;
              && OnlyThese(turn.sent, {LeaveNotice(name, room)})
              && Times(turn.sent, d, LeaveNotice(name, room)) == |NamesIn(st.online, Behind(st, room, name), d)|
            else turn.sent == []
  {
    if User(st, c) && st.sessions[c].currentRoom != "" {
      var name, room := st.sessions[c].username, st.sessions[c].currentRoom;
      ToldCount(st.online - {name}, Members(st.rooms, room) - {name}, {}, LeaveNotice(name, room), turn.sent, d);
      assert NamesIn(st.online - {name}, Members(st.rooms, room) - {name} - {}, d) == NamesIn(st.online, Behind(st, room, name), d);
    }
  }

  // --- Whole runs -----------------------------------------------------------------------

  /** In every run, of a private chat to a live user that user is sent the text exactly once and
      nobody else is; the sender is sent exactly one confirmation, and nobody else any. */
  lemma PrivateChatInARun(inputs: seq<Input>, k: nat, c: ConnId, target: string, text: string, turn: Turn, d: ConnId, e: ConnId)
    requires AdmissibleRun(EMPTY, inputs) && k < |inputs|
    requires var st := Run(EMPTY, inputs[..k]);
      && Served(st, inputs[k], c, PrivateChat(target, text)) && LoggedIn(st, c) && TurnOf(st, inputs[k], turn)
      && User(st, d) && st.sessions[d].username == target
    ensures var name := Run(EMPTY, inputs[..k]).sessions[c].username;
            && Times(turn.sent, e, PrivateText(name, text)) == (if e == d then 1 else 0)
            && Times(turn.sent, e, Confirmation(target, text)) == (if e == c then 1 else 0)
            && OnlyThese(turn.sent, {PrivateText(name, text), Confirmation(target, text)})
  {
    UpTo(EMPTY, inputs, k);
    EveryRunIsConsistent(inputs[..k]);
    var st := Run(EMPTY, inputs[..k]);
    PrivateChatReaches(st, inputs[k], c, target, text, turn);
    assert forall j | 0 <= j < |turn.sent| :: turn.sent[j] in multiset(turn.sent);
  }
}
