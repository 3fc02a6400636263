/** Username claiming in v3: OnMessageRecv runs on any worker with the connection's lock held,
    OnClientDisconnect inside close_conn on any thread without it. The name set has its own
    lock; the field `username` is written under one lock and read under the other.

    From v3/chatapp.h: OnMessageRecv, OnClientDisconnect; from v3/webserver.cpp: close_conn and
    the task dispatch of handle_read. Each step is what happens between two lock operations. */
module LegacyNames {
  type ConnId = nat

  /** How far the worker that holds the connection's lock has come; which worker it is makes
      no difference. */
  datatype Section =
    | Free
    | Holding(text: string) // not closed, not spam, still to look at the state
    | Claimed(text: string) // name inserted in the set, field not written yet
    | Named(text: string)   // field written, state not ACTIVE yet

  datatype Conn = Conn(
    username: string,
    active: bool,
    closed: bool,
    /** The exchange of close_conn is done, its hook is not. */
    hookDue: bool,
    section: Section,
    /** History: the names inserted for this connection. */
    claims: seq<string>)

  datatype State = State(conns: map<ConnId, Conn>, usernames: set<string>)

  const START := State(map[], {})

  datatype Action =
    | Accept(c: ConnId)
    | Begin(c: ConnId, text: string, passes: bool)
    | Look(c: ConnId)
    | WriteName(c: ConnId)
    | Activate(c: ConnId)
    | Exchange(c: ConnId)
    | Hook(c: ConnId)

  predicate Enabled(st: State, a: Action) {
    match a
    case Accept(c) => c !in st.conns
    case Begin(c, _, _) => c in st.conns && st.conns[c].section == Free
    case Look(c) => c in st.conns && st.conns[c].section.Holding?
    case WriteName(c) => c in st.conns && st.conns[c].section.Claimed?
    case Activate(c) => c in st.conns && st.conns[c].section.Named?
    case Exchange(c) => c in st.conns
    case Hook(c) => c in st.conns && st.conns[c].hookDue
  }

  /** The look at the state ends in a claim: the connection waits for a name and this one is free. */
  predicate Claims(st: State, c: ConnId) {
    && c in st.conns && st.conns[c].section.Holding? && !st.conns[c].active
    && st.conns[c].section.text !in st.usernames && st.conns[c].section.text != ""
  }

  function Next(st: State, a: Action): State
    requires Enabled(st, a)
  {
    match a
    case Accept(c) => st.(conns := st.conns[c := Conn("", false, false, false, Free, [])])
    // the closed check and the spam check; `passes` is the verdict of the latter
    case Begin(c, text, passes) =>
      var x := st.conns[c];
      if x.closed || !passes then st else st.(conns := st.conns[c := x.(section := Holding(text))])
    // a connection that waits for its name tries to insert one; an active one just chats
    case Look(c) =>
      var x := st.conns[c];
      var text := x.section.text;
      if Claims(st, c) then
        State(st.conns[c := x.(section := Claimed(text), claims := x.claims + [text])], st.usernames + {text})
      else st.(conns := st.conns[c := x.(section := Free)])
    case WriteName(c) =>
      var x := st.conns[c];
      st.(conns := st.conns[c := x.(section := Named(x.section.text), username := x.section.text)])
    case Activate(c) =>
      st.(conns := st.conns[c := st.conns[c].(section := Free, active := true)])
    case Exchange(c) =>
      var x := st.conns[c];
      if x.closed then st else st.(conns := st.conns[c := x.(closed := true, hookDue := true)])
    // erase the name the field holds by now, if any
    case Hook(c) =>
      var x := st.conns[c];
      State(st.conns[c := x.(hookDue := false)], if x.username != "" then st.usernames - {x.username} else st.usernames)
  }

  // --- Invariant ------------------------------------------------------------------------

  predicate Unhooked(x: Conn) {
    !x.closed || x.hookDue
  }

  /** The connection is why `name` is in the set. */
  predicate Holds(x: Conn, name: string) {
    name != "" && ((Unhooked(x) && x.username == name) || x.section == Claimed(name))
  }

  /** A connection is given one name at most, on the way from Claimed to ACTIVE. */
  predicate Consistent(x: Conn) {
    && (x.hookDue ==> x.closed)
    && match x.section
       case Claimed(text) => text != "" && x.username == "" && !x.active && x.claims == [text]
       case Named(text) => text != "" && x.username == text && !x.active && x.claims == [text]
       case _ => if x.active then x.username != "" && x.claims == [x.username] else x.username == "" && x.claims == []
  }

  ghost predicate Inv(st: State) {
    && (forall c | c in st.conns :: Consistent(st.conns[c]))
    && (forall c, n | c in st.conns && Holds(st.conns[c], n) :: n in st.usernames)
    && (forall c, d, n | c in st.conns && d in st.conns && Holds(st.conns[c], n) && Holds(st.conns[d], n) :: c == d)
  }

  /** A step that touches one connection and the set keeps the invariant if whatever names the
      connection comes to hold were free, and nobody else's name goes. */
  lemma OneChanged(st: State, c: ConnId, y: Conn, names: set<string>)
    requires Inv(st) && c in st.conns && Consistent(y)
    requires forall n | Holds(y, n) :: n in names && (Holds(st.conns[c], n) || n !in st.usernames)
    requires forall d, n | d in st.conns && d != c && Holds(st.conns[d], n) :: n in names
    ensures Inv(State(st.conns[c := y], names))
  {
    hide Consistent;
    hide Holds;
    var conns := st.conns[c := y];
    forall d, e, n | d in conns && e in conns && Holds(conns[d], n) && Holds(conns[e], n)
      ensures d == e
    {
      if d != c {
        assert Holds(st.conns[d], n);
      }
      if e != c {
        assert Holds(st.conns[e], n);
      }
    }
  }

  lemma AcceptKeeps(st: State, c: ConnId)
    requires Inv(st) && Enabled(st, Accept(c))
    ensures Inv(Next(st, Accept(c)))
  {
    var st' := Next(st, Accept(c));
    assert forall n :: !Holds(st'.conns[c], n);
  }

  lemma BeginKeeps(st: State, c: ConnId, text: string, passes: bool)
    requires Inv(st) && Enabled(st, Begin(c, text, passes))
    ensures Inv(Next(st, Begin(c, text, passes)))
  {
    var x := st.conns[c];
    assert Consistent(x);
    if !x.closed && passes {
      OneChanged(st, c, x.(section := Holding(text)), st.usernames);
    }
  }

  lemma LookKeeps(st: State, c: ConnId)
    requires Inv(st) && Enabled(st, Look(c))
    ensures Inv(Next(st, Look(c)))
  {
    var x := st.conns[c];
    var text := x.section.text;
    assert Consistent(x);
    if Claims(st, c) {
      var y := x.(section := Claimed(text), claims := x.claims + [text]);
      OneChanged(st, c, y, st.usernames + {text});
    } else {
      OneChanged(st, c, x.(section := Free), st.usernames);
    }
  }

  lemma WriteNameKeeps(st: State, c: ConnId)
    requires Inv(st) && Enabled(st, WriteName(c))
    ensures Inv(Next(st, WriteName(c)))
  {
    var x := st.conns[c];
    assert Consistent(x);
    OneChanged(st, c, x.(section := Named(x.section.text), username := x.section.text), st.usernames);
  }

  lemma ActivateKeeps(st: State, c: ConnId)
    requires Inv(st) && Enabled(st, Activate(c))
    ensures Inv(Next(st, Activate(c)))
  {
    var x := st.conns[c];
    assert Consistent(x);
    OneChanged(st, c, x.(section := Free, active := true), st.usernames);
  }

  lemma ExchangeKeeps(st: State, c: ConnId)
    requires Inv(st) && Enabled(st, Exchange(c))
    ensures Inv(Next(st, Exchange(c)))
  {
    var x := st.conns[c];
    assert Consistent(x);
    if !x.closed {
      OneChanged(st, c, x.(closed := true, hookDue := true), st.usernames);
    }
  }

  lemma HookKeeps(st: State, c: ConnId)
    requires Inv(st) && Enabled(st, Hook(c))
    ensures Inv(Next(st, Hook(c)))
  {
    var x := st.conns[c];
    assert Consistent(x);
    assert x.username != "" ==> Holds(x, x.username);
    OneChanged(st, c, x.(hookDue := false), Next(st, Hook(c)).usernames);
  }

  lemma NextKeeps(st: State, a: Action)
    requires Inv(st) && Enabled(st, a)
    ensures Inv(Next(st, a))
  {
    hide Inv;
    match a {
      case Accept(c) => AcceptKeeps(st, c);
      case Begin(c, text, passes) => BeginKeeps(st, c, text, passes);
      case Look(c) => LookKeeps(st, c);
      case WriteName(c) => WriteNameKeeps(st, c);
      case Activate(c) => ActivateKeeps(st, c);
      case Exchange(c) => ExchangeKeeps(st, c);
      case Hook(c) => HookKeeps(st, c);
    }
  }

  predicate IsRun(st: State, actions: seq<Action>)
    decreases |actions|
  {
    actions == [] || (Enabled(st, actions[0]) && IsRun(Next(st, actions[0]), actions[1..]))
  }

  function Run(st: State, actions: seq<Action>): State
    requires IsRun(st, actions)
    decreases |actions|
  {
    if actions == [] then st else Run(Next(st, actions[0]), actions[1..])
  }

  lemma {:induction false} RunKeeps(st: State, actions: seq<Action>)
    requires Inv(st) && IsRun(st, actions)
    ensures Inv(Run(st, actions))
    decreases |actions|
  {
    if actions != [] {
      NextKeeps(st, actions[0]);
      RunKeeps(Next(st, actions[0]), actions[1..]);
    }
  }

  predicate OpenUser(st: State, c: ConnId) {
    c in st.conns && st.conns[c].active && !st.conns[c].closed
  }

  /** In every interleaving of workers and closes: no two open active connections share a
      name, each one's name is in the set, and no connection ever claims a second name. */
  lemma EveryInterleaving(actions: seq<Action>)
    requires IsRun(START, actions)
    ensures var st := Run(START, actions);
            && (forall c | OpenUser(st, c) :: st.conns[c].username in st.usernames)
            && (forall c, d | OpenUser(st, c) && OpenUser(st, d) && st.conns[c].username == st.conns[d].username :: c == d)
            && (forall c | c in st.conns :: |st.conns[c].claims| <= 1)
  {
    RunKeeps(START, actions);
    var st := Run(START, actions);
    forall c | OpenUser(st, c)
      ensures Holds(st.conns[c], st.conns[c].username)
    {
      assert Consistent(st.conns[c]);
    }
    assert forall c | c in st.conns :: Consistent(st.conns[c]);
  }

  // --- What a message comes to -----------------------------------------------------------

  /** A message on a closed connection, or one that the limiter refuses, changes nothing. */
  lemma RefusedChangesNothing(st: State, c: ConnId, text: string, passes: bool)
    requires Enabled(st, Begin(c, text, passes)) && (st.conns[c].closed || !passes)
    ensures Next(st, Begin(c, text, passes)) == st
  {
  }

  /** The first message of an open connection claims its text as a name if that is free and not
      empty: with no other step in between, the connection ends ACTIVE under it and the name is
      in the set. Otherwise nothing changes, and the connection may try again. */
  lemma MessageClaims(st: State, c: ConnId, text: string)
    requires Inv(st) && Enabled(st, Begin(c, text, true)) && !st.conns[c].closed
    ensures var x, s1 := st.conns[c], Next(st, Begin(c, text, true));
            && Enabled(s1, Look(c))
            && var s2 := Next(s1, Look(c));
               if !x.active && text !in st.usernames && text != "" then
                 && Enabled(s2, WriteName(c)) && Enabled(Next(s2, WriteName(c)), Activate(c))
                 && var s4 := Next(Next(s2, WriteName(c)), Activate(c));
                    s4 == State(st.conns[c := Conn(text, true, false, x.hookDue, Free, x.claims + [text])],
                                st.usernames + {text})
               else s2 == st
  {
    var x, s1 := st.conns[c], Next(st, Begin(c, text, true));
    assert st.conns[c := x] == st.conns;
    assert Next(s1, Look(c)).conns == if Claims(s1, c) then Next(s1, Look(c)).conns else st.conns[c := x];
  }

  /** close_conn, with no other step in between: the connection is closed, and its name, if the
      field holds one, is free again; no other name goes and no other connection is touched. */
  lemma CloseReleases(st: State, c: ConnId)
    requires c in st.conns && !st.conns[c].closed
    ensures var st' := Next(Next(st, Exchange(c)), Hook(c));
            && st'.conns == st.conns[c := st.conns[c].(closed := true, hookDue := false)]
            && st'.usernames == st.usernames - (if st.conns[c].username == "" then {} else {st.conns[c].username})
  {
    var st' := Next(Next(st, Exchange(c)), Hook(c));
    assert st'.conns == st.conns[c := st.conns[c].(closed := true, hookDue := false)];
  }

  /** Only the first close has a hook to run. */
  lemma ClosesOnce(st: State, c: ConnId)
    requires c in st.conns && st.conns[c].closed
    ensures Next(st, Exchange(c)) == st
  {
  }

  /** A connection is closed exactly if close_conn was called on it. */
  lemma {:induction false} ClosedByExchange(st: State, actions: seq<Action>, c: ConnId)
    requires IsRun(st, actions) && c in Run(st, actions).conns
    ensures Run(st, actions).conns[c].closed <==> (c in st.conns && st.conns[c].closed) || Exchange(c) in actions
    decreases |actions|
  {
    if actions != [] {
      ClosedByExchange(Next(st, actions[0]), actions[1..], c);
      assert actions == [actions[0]] + actions[1..];
      assert c in Next(st, actions[0]).conns && c !in st.conns ==> actions[0] == Accept(c);
    }
  }

  // --- Which names are never released ---------------------------------------------------

  /** Some continuation takes the name out of the set. */
  ghost predicate Releasable(st: State, n: string) {
    exists actions :: IsRun(st, actions) && n !in Run(st, actions).usernames
  }

  /** The connection has the name, written or not, and its disconnect hook is still to come. */
  predicate Answers(x: Conn, name: string) {
    Unhooked(x) && Holds(x, name)
  }

  /** A name in the set that no connection will answer for. */
  ghost predicate Doomed(st: State, n: string) {
    n in st.usernames && forall c | c in st.conns :: !Answers(st.conns[c], n)
  }

  ghost predicate NoneDoomed(st: State) {
    forall n | n in st.usernames :: !Doomed(st, n)
  }

  /** The disconnect hook misses a name: it finds the field empty while the name is already in
      the set, or the name goes into the set after it. */
  predicate HookMisses(st: State, a: Action) {
    match a
    case Hook(c) => c in st.conns && st.conns[c].section.Claimed?
    case Look(c) => Claims(st, c) && !Unhooked(st.conns[c])
    case _ => false
  }

  lemma DoomedStays(st: State, a: Action, n: string)
    requires Inv(st) && Enabled(st, a) && Doomed(st, n)
    ensures Doomed(Next(st, a), n)
  {
    var st' := Next(st, a);
    forall d | d in st'.conns
      ensures !Answers(st'.conns[d], n)
    {
      if d in st.conns {
        assert !Answers(st.conns[d], n) && Consistent(st.conns[d]);
      }
    }
    if a.Hook? {
      assert !Answers(st.conns[a.c], n) && Consistent(st.conns[a.c]);
    }
  }

  lemma {:induction false} DoomedForGood(st: State, actions: seq<Action>, n: string)
    requires Inv(st) && IsRun(st, actions) && Doomed(st, n)
    ensures n in Run(st, actions).usernames
    decreases |actions|
  {
    if actions != [] {
      NextKeeps(st, actions[0]);
      DoomedStays(st, actions[0], n);
      DoomedForGood(Next(st, actions[0]), actions[1..], n);
    }
  }

  lemma TwoSteps(st: State, a: Action, b: Action)
    requires Enabled(st, a) && Enabled(Next(st, a), b)
    ensures IsRun(st, [a, b]) && Run(st, [a, b]) == Next(Next(st, a), b)
  {
    assert [a, b][1..] == [b] && [b][1..] == [];
    assert IsRun(Next(Next(st, a), b), []);
    assert IsRun(Next(st, a), [b]) && Run(Next(st, a), [b]) == Next(Next(st, a), b);
  }

  /** A close and its hook release a name once the field holds it. */
  lemma WrittenIsReleasable(st: State, c: ConnId)
    requires Inv(st) && c in st.conns && Unhooked(st.conns[c]) && st.conns[c].username != ""
    ensures IsRun(st, [Exchange(c), Hook(c)])
    ensures st.conns[c].username !in Run(st, [Exchange(c), Hook(c)]).usernames
  {
    assert Consistent(st.conns[c]);
    TwoSteps(st, Exchange(c), Hook(c));
  }

  lemma AnsweredIsReleasable(st: State, c: ConnId, n: string)
    requires Inv(st) && c in st.conns && Answers(st.conns[c], n)
    ensures Releasable(st, n)
  {
    assert Consistent(st.conns[c]);
    if st.conns[c].username == n {
      WrittenIsReleasable(st, c);
    } else {
      var st' := Next(st, WriteName(c));
      NextKeeps(st, WriteName(c));
      WrittenIsReleasable(st', c);
      var rest := [Exchange(c), Hook(c)];
      var actions := [WriteName(c)] + rest;
      assert actions[1..] == rest;
      assert IsRun(st, actions) && Run(st, actions) == Run(st', rest);
    }
  }

  /** A name can still be released exactly if a connection will answer for it. */
  lemma ReleasableUnlessDoomed(st: State, n: string)
    requires Inv(st) && n in st.usernames
    ensures Releasable(st, n) <==> !Doomed(st, n)
  {
    if Doomed(st, n) {
      forall actions | IsRun(st, actions)
        ensures n in Run(st, actions).usernames
      {
        DoomedForGood(st, actions, n);
      }
    } else {
      var c :| c in st.conns && Answers(st.conns[c], n);
      AnsweredIsReleasable(st, c, n);
    }
  }

  lemma MissDooms(st: State, a: Action)
    requires Inv(st) && Enabled(st, a) && HookMisses(st, a)
    ensures Doomed(Next(st, a), st.conns[a.c].section.text)
  {
    var n, st' := st.conns[a.c].section.text, Next(st, a);
    assert Consistent(st.conns[a.c]);
    assert a.Hook? ==> Holds(st.conns[a.c], n);
    forall d | d in st'.conns
      ensures !Answers(st'.conns[d], n)
    {
    }
  }

  lemma OtherwiseNotDoomed(st: State, a: Action)
    requires Inv(st) && Enabled(st, a) && NoneDoomed(st) && !HookMisses(st, a)
    ensures NoneDoomed(Next(st, a))
  {
    var st' := Next(st, a);
    forall n | n in st'.usernames
      ensures !Doomed(st', n)
    {
      if n !in st.usernames {
        assert Answers(st'.conns[a.c], n);
      } else {
        assert !Doomed(st, n);
        var d :| d in st.conns && Answers(st.conns[d], n);
        assert Consistent(st.conns[d]);
        assert Answers(st'.conns[d], n);
      }
    }
  }

  predicate HasMiss(st: State, actions: seq<Action>)
    requires IsRun(st, actions)
    decreases |actions|
  {
    actions != [] && (HookMisses(st, actions[0]) || HasMiss(Next(st, actions[0]), actions[1..]))
  }

  lemma {:induction false} DoomedRun(st: State, actions: seq<Action>)
    requires Inv(st) && IsRun(st, actions)
    ensures NoneDoomed(Run(st, actions)) <==> NoneDoomed(st) && !HasMiss(st, actions)
    decreases |actions|
  {
    if actions != [] {
      var a := actions[0];
      NextKeeps(st, a);
      if !NoneDoomed(st) {
        var n :| n in st.usernames && Doomed(st, n);
        DoomedStays(st, a, n);
      } else if HookMisses(st, a) {
        MissDooms(st, a);
      } else {
        OtherwiseNotDoomed(st, a);
      }
      DoomedRun(Next(st, a), actions[1..]);
    }
  }

  /** After any run, every name in the set can still be released if and only if no disconnect
      hook has missed a name. */
  lemma ReleasableUnlessMissed(actions: seq<Action>)
    requires IsRun(START, actions)
    ensures (forall n | n in Run(START, actions).usernames :: Releasable(Run(START, actions), n))
      <==> !HasMiss(START, actions)
  {
    RunKeeps(START, actions);
    DoomedRun(START, actions);
    var st := Run(START, actions);
    forall n | n in st.usernames
      ensures Releasable(st, n) <==> !Doomed(st, n)
    {
      ReleasableUnlessDoomed(st, n);
    }
  }

  lemma PrependStep(st: State, a: Action, rest: seq<Action>)
    requires Enabled(st, a) && IsRun(Next(st, a), rest) && HasMiss(Next(st, a), rest)
    ensures IsRun(st, [a] + rest) && HasMiss(st, [a] + rest)
  {
    assert ([a] + rest)[1..] == rest;
  }

  lemma LastStep(st: State, a: Action)
    requires Enabled(st, a) && HookMisses(st, a)
    ensures IsRun(st, [a]) && HasMiss(st, [a])
  {
    assert [a][1..] == [];
    assert IsRun(Next(st, a), []);
  }

  /** The close slips in between the insertion and the write of the field. */
  lemma HookBeforeWrite()
    ensures var actions := [Accept(0), Begin(0, "a", true), Look(0), Exchange(0), Hook(0)];
            IsRun(START, actions) && HasMiss(START, actions)
  {
    var s1 := Next(START, Accept(0));
    var s2 := Next(s1, Begin(0, "a", true));
    var s3 := Next(s2, Look(0));
    var s4 := Next(s3, Exchange(0));
    LastStep(s4, Hook(0));
    PrependStep(s3, Exchange(0), [Hook(0)]);
    PrependStep(s2, Look(0), [Exchange(0)] + [Hook(0)]);
    PrependStep(s1, Begin(0, "a", true), [Look(0)] + ([Exchange(0)] + [Hook(0)]));
    PrependStep(START, Accept(0), [Begin(0, "a", true)] + ([Look(0)] + ([Exchange(0)] + [Hook(0)])));
    assert [Accept(0), Begin(0, "a", true), Look(0), Exchange(0), Hook(0)]
      == [Accept(0)] + ([Begin(0, "a", true)] + ([Look(0)] + ([Exchange(0)] + [Hook(0)])));
  }

  /** The close slips in between the closed check and the insertion. */
  lemma HookBeforeClaim()
    ensures var actions := [Accept(0), Begin(0, "a", true), Exchange(0), Hook(0), Look(0)];
            IsRun(START, actions) && HasMiss(START, actions)
  {
    var s1 := Next(START, Accept(0));
    var s2 := Next(s1, Begin(0, "a", true));
    var s3 := Next(s2, Exchange(0));
    var s4 := Next(s3, Hook(0));
    LastStep(s4, Look(0));
    PrependStep(s3, Hook(0), [Look(0)]);
    PrependStep(s2, Exchange(0), [Hook(0)] + [Look(0)]);
    PrependStep(s1, Begin(0, "a", true), [Exchange(0)] + ([Hook(0)] + [Look(0)]));
    PrependStep(START, Accept(0), [Begin(0, "a", true)] + ([Exchange(0)] + ([Hook(0)] + [Look(0)])));
    assert [Accept(0), Begin(0, "a", true), Exchange(0), Hook(0), Look(0)]
      == [Accept(0)] + ([Begin(0, "a", true)] + ([Exchange(0)] + ([Hook(0)] + [Look(0)])));
  }
}
