/** The hand-over of broadcasts from any thread to the reactor: Broadcast pushes under the
    queue's lock and then writes the eventfd; Run waits with edge-triggered epoll, notes the
    notification while it dispatches, and swaps the queue at the end of its turn.

    From v4/webserver.cpp: Broadcast, the dispatch in Run, the swap in process_global_queue. */
module BroadcastWakeup {
  import opened Bytes

  type Tid = nat

  /** The largest value an eventfd holds; a write that would pass it fails. */
  const EVENTFD_MAX := 0xFFFF_FFFF_FFFF_FFFE

  datatype State<T> = State(
    globalQueue: seq<T>,
    /** Broadcasters between their push and their write. */
    unnotified: set<Tid>,
    /** The eventfd's counter, and its place on epoll's ready list. */
    counter: nat,
    edge: bool,
    /** The reactor: inside a turn or waiting, the notification still ahead of it in this
        turn, and pending_broadcast. */
    inTurn: bool,
    undispatched: bool,
    pendingBroadcast: bool,
    /** History: everything pushed, and the batches swapped out. */
    pushed: seq<T>,
    batches: seq<seq<T>>)

  datatype Action<T> =
    | Push(b: Tid, event: T)
    | Write(b: Tid)
    | Wait(reported: bool)
    | DispatchNotify
    | EndTurn

  function Initial<T>(): State<T> {
    State([], {}, 0, false, false, false, false, [], [])
  }

  /** epoll_wait reports a ready-listed fd only if it is still readable when it looks, and may
      leave it for later when the event array is full. */
  predicate Enabled<T>(st: State<T>, a: Action<T>) {
    match a
    case Push(b, _) => b !in st.unnotified
    case Write(b) => b in st.unnotified
    case Wait(reported) => !st.inTurn && (reported ==> st.edge && st.counter > 0)
    case DispatchNotify => st.inTurn && st.undispatched
    case EndTurn => st.inTurn && !st.undispatched
  }

  function Next<T>(st: State<T>, a: Action<T>): State<T> {
    match a
    case Push(b, event) =>
      st.(globalQueue := st.globalQueue + [event], pushed := st.pushed + [event], unnotified := st.unnotified + {b})
    case Write(b) =>
      var done := st.(unnotified := st.unnotified - {b});
      if st.counter >= EVENTFD_MAX then done else done.(counter := st.counter + 1, edge := true)
    case Wait(reported) =>
      st.(inTurn := true, undispatched := reported, pendingBroadcast := false,
        edge := st.edge && !reported && st.counter > 0)
    case DispatchNotify => st.(undispatched := false, pendingBroadcast := true, counter := 0)
    case EndTurn =>
      var over := st.(inTurn := false, pendingBroadcast := false);
      if st.pendingBroadcast && st.globalQueue != []
      then over.(globalQueue := [], batches := st.batches + [st.globalQueue])
      else over
  }

  ghost predicate Inv<T>(st: State<T>) {
    // a notification that was written is on its way
    && (st.counter > 0 ==> st.edge || st.undispatched)
    && (st.undispatched || st.pendingBroadcast ==> st.inTurn)
    // no broadcast is stranded
    && (st.globalQueue != [] ==>
          (st.edge && st.counter > 0) || st.undispatched || st.pendingBroadcast || st.unnotified != {})
    // the batches are everything pushed, once, in order
    && st.pushed == Flatten(st.batches) + st.globalQueue
  }

  lemma NextKeeps<T>(st: State<T>, a: Action<T>)
    requires Inv(st) && Enabled(st, a)
    ensures Inv(Next(st, a))
  {
    match a {
      case Push(b, event) =>
        Assoc(Flatten(st.batches), st.globalQueue, [event]);
        assert b in Next(st, a).unnotified;
      case EndTurn =>
        FlattenSnoc(st.batches, st.globalQueue);
      case _ =>
    }
  }

  predicate IsRun<T>(st: State<T>, actions: seq<Action<T>>)
    decreases |actions|
  {
    actions == [] || (Enabled(st, actions[0]) && IsRun(Next(st, actions[0]), actions[1..]))
  }

  function Run<T>(st: State<T>, actions: seq<Action<T>>): State<T>
    decreases |actions|
  {
    if actions == [] then st else Run(Next(st, actions[0]), actions[1..])
  }

  lemma {:induction false} RunKeeps<T>(st: State<T>, actions: seq<Action<T>>)
    requires Inv(st) && IsRun(st, actions)
    ensures Inv(Run(st, actions))
    decreases |actions|
  {
    if actions != [] {
      NextKeeps(st, actions[0]);
      RunKeeps(Next(st, actions[0]), actions[1..]);
    }
  }

  /** In every reachable state of a running server a queued broadcast has a wakeup coming: an
      eventfd edge not delivered or not dispatched yet, the noted notification of this turn,
      or a broadcaster that is about to write. Nothing is lost, repeated or reordered. */
  lemma NoBroadcastIsStranded<T>(actions: seq<Action<T>>)
    requires IsRun(Initial<T>(), actions)
    ensures var st := Run(Initial<T>(), actions);
            && (st.globalQueue != [] ==>
                  (st.edge && st.counter > 0) || st.undispatched || st.pendingBroadcast || st.unnotified != {})
            && st.pushed == Flatten(st.batches) + st.globalQueue
  {
    RunKeeps(Initial<T>(), actions);
  }

  /** Once every broadcaster has written and the reactor waits, one turn that hears of the
      eventfd empties the queue, and such a turn is possible. */
  lemma NextTurnDelivers<T>(actions: seq<Action<T>>)
    requires IsRun(Initial<T>(), actions)
    requires var st := Run(Initial<T>(), actions);
             st.globalQueue != [] && st.unnotified == {} && !st.inTurn
    ensures var st := Run(Initial<T>(), actions);
            var turn := [Wait(true), DispatchNotify, EndTurn];
            IsRun(st, turn) && Run(st, turn).globalQueue == [] && Flatten(Run(st, turn).batches) == st.pushed
  {
    RunKeeps(Initial<T>(), actions);
    var st := Run(Initial<T>(), actions);
    var s1 := Next(st, Wait(true));
    var s2 := Next(s1, DispatchNotify);
    FlattenSnoc(st.batches, st.globalQueue);
    var turn := [Wait(true), DispatchNotify, EndTurn];
    assert turn[1..] == [DispatchNotify, EndTurn] && turn[1..][1..] == [EndTurn] && turn[1..][1..][1..] == [];
    assert IsRun(s2, [EndTurn]) && Run(s2, [EndTurn]) == Next(s2, EndTurn);
    assert IsRun(s1, turn[1..]) && Run(s1, turn[1..]) == Next(s2, EndTurn);
  }

  // --- What a run leaves, from its actions alone ------------------------------------------

  function PushedBy<T>(actions: seq<Action<T>>): seq<T> {
    if actions == [] then []
    else (if actions[0].Push? then [actions[0].event] else []) + PushedBy(actions[1..])
  }

  /** The latest call of b is its push. */
  predicate StillToWrite<T>(actions: seq<Action<T>>, b: Tid, before: bool) {
    if actions == [] then before
    else StillToWrite(actions[1..], b,
      if actions[0].Push? && actions[0].b == b then true else if actions[0] == Write(b) then false else before)
  }

  /** Writes since the last time the reactor read the eventfd, as far as it counts. */
  function Unread<T>(actions: seq<Action<T>>, before: nat): nat {
    if actions == [] then before
    else Unread(actions[1..],
      if actions[0].Write? then (if before >= EVENTFD_MAX then before else before + 1)
      else if actions[0].DispatchNotify? then 0 else before)
  }

  /** The reactor has dispatched the notification in the turn it is in. */
  predicate Dispatched<T>(actions: seq<Action<T>>, before: bool) {
    if actions == [] then before
    else Dispatched(actions[1..],
      if actions[0].DispatchNotify? then true else if actions[0].Wait? || actions[0].EndTurn? then false else before)
  }

  lemma {:induction false} RunLeaves<T>(st: State<T>, actions: seq<Action<T>>, b: Tid)
    requires IsRun(st, actions)
    ensures var st' := Run(st, actions);
            && st'.pushed == st.pushed + PushedBy(actions)
            && (b in st'.unnotified <==> StillToWrite(actions, b, b in st.unnotified))
            && st'.counter == Unread(actions, st.counter)
            && (st'.pendingBroadcast <==> Dispatched(actions, st.pendingBroadcast))
    decreases |actions|
  {
    if actions == [] {
      assert st.pushed + [] == st.pushed;
    } else {
      var a, rest := actions[0], actions[1..];
      RunLeaves(Next(st, a), rest, b);
      Assoc(st.pushed, if a.Push? then [a.event] else [], PushedBy(rest));
      assert a.Push? || st.pushed + [] == st.pushed;
    }
  }

  /** What was pushed is what the Broadcast calls pushed, in order; a broadcaster is about to
      write exactly between its push and its write; the eventfd counts the writes that were not
      read; and the reactor notes a notification exactly in the turn that dispatched it. */
  lemma WhatARunLeaves<T>(actions: seq<Action<T>>, b: Tid)
    requires IsRun(Initial<T>(), actions)
    ensures var st := Run(Initial<T>(), actions);
            && st.pushed == PushedBy(actions)
            && (b in st.unnotified <==> StillToWrite(actions, b, false))
            && st.counter == Unread(actions, 0)
            && (st.pendingBroadcast <==> Dispatched(actions, false))
  {
    RunLeaves(Initial<T>(), actions, b);
  }

  /** A turn that dispatched the notification swaps out everything queued; another turn nothing. */
  lemma TurnsSwap<T>(actions: seq<Action<T>>)
    requires IsRun(Initial<T>(), actions) && Enabled(Run(Initial<T>(), actions), EndTurn)
    ensures var st := Run(Initial<T>(), actions);
            var st' := Next(st, EndTurn);
            if Dispatched(actions, false) then Flatten(st'.batches) == PushedBy(actions) && st'.globalQueue == []
            else st'.batches == st.batches && st'.globalQueue == st.globalQueue
  {
    RunLeaves(Initial<T>(), actions, 0);
    NoBroadcastIsStranded(actions);
    var st := Run(Initial<T>(), actions);
    FlattenSnoc(st.batches, st.globalQueue);
    assert Flatten(st.batches) + [] == Flatten(st.batches);
  }
}
