/** The shard tasks of process_global_queue under every interleaving: several batches may be
    under way on several workers while connections are accepted, sent to, written and closed.
    `Outgoing.BroadcastTo` is one delivery; here each delivery is one step. */
module BroadcastTasks {
  import opened Bytes
  import opened RingBuffers
  import opened Outgoing
  import opened Broadcasts

  type ConnId = nat

  /** What a packet was enqueued for: event `index` of a batch, or a send of its own. */
  datatype Entry = Item(batch: nat, index: nat) | Reply

  /** `queued` is the length of the outgoing queue, `log` everything ever enqueued, and `met`
      the batches delivered so far with the queue length each of them met. */
  datatype Conn = Conn(fd: nat, closed: bool, queued: nat, log: seq<Entry>, met: map<nat, nat>)

  /** The task of one batch and one shard: not begun, or with the connections it found open and
      those of them still to come. */
  datatype Task = Waiting | Running(found: set<ConnId>, left: set<ConnId>)

  datatype State = State(conns: map<ConnId, Conn>, batches: seq<seq<BroadcastEvent>>, tasks: seq<seq<Task>>)

  const START := State(map[], [], [])

  datatype Action =
    | Accept(c: ConnId, fd: nat)
    | Close(c: ConnId)
    | Send(c: ConnId)
    | Write(c: ConnId, sent: nat)
    | Dispatch(events: seq<BroadcastEvent>)
    | Snapshot(b: nat, i: nat)
    | Deliver(b: nat, i: nat, c: ConnId)

  predicate IsTask(st: State, b: nat, i: nat) {
    b < |st.tasks| && i < |st.tasks[b]|
  }

  predicate Enabled(st: State, a: Action) {
    match a
    case Accept(c, _) => c !in st.conns
    case Close(c) => c in st.conns
    case Send(c) => c in st.conns
    case Write(c, sent) => c in st.conns && sent <= st.conns[c].queued
    case Dispatch(_) => |st.tasks| == |st.batches|
    case Snapshot(b, i) => IsTask(st, b, i) && st.tasks[b][i].Waiting?
    case Deliver(b, i, c) =>
      IsTask(st, b, i) && b < |st.batches| && c in st.conns && st.tasks[b][i].Running? && c in st.tasks[b][i].left
  }

  /** Positions in the first n events that the connection's own client did not send. */
  function WantedAt(events: seq<BroadcastEvent>, fd: nat, n: nat): (w: seq<nat>)
    requires n <= |events|
    ensures forall k | 0 <= k < |w| :: w[k] < n
  {
    if n == 0 then []
    else WantedAt(events, fd, n - 1) + if Own(events[n - 1], fd) then [] else [n - 1]
  }

  /** The positions a delivery takes when the queue holds `queued` packets. */
  function TakenAt(events: seq<BroadcastEvent>, fd: nat, queued: nat): seq<nat> {
    var w := WantedAt(events, fd, |events|);
    var room := if queued < MAX_OUTGOING_QUEUE_SIZE then MAX_OUTGOING_QUEUE_SIZE - queued else 0;
    w[..Min(room, |w|)]
  }

  function Items(b: nat, at: seq<nat>): seq<Entry> {
    seq(|at|, k requires 0 <= k < |at| => Item(b, at[k]))
  }

  function Delivered(x: Conn, b: nat, events: seq<BroadcastEvent>): Conn {
    if x.closed then x
    else
      var at := TakenAt(events, x.fd, x.queued);
      x.(queued := x.queued + |at|, log := x.log + Items(b, at), met := x.met[b := x.queued])
  }

  function OpenIn(conns: map<ConnId, Conn>, i: nat): set<ConnId> {
    set c | c in conns && ShardIdx(conns[c].fd) == i && !conns[c].closed
  }

  function Next(st: State, a: Action): State
    requires Enabled(st, a)
  {
    match a
    case Accept(c, fd) => st.(conns := st.conns[c := Conn(fd, false, 0, [], map[])])
    case Close(c) => st.(conns := st.conns[c := st.conns[c].(closed := true)])
    case Send(c) =>
      var x := st.conns[c];
      if x.closed then st else st.(conns := st.conns[c := x.(queued := x.queued + 1, log := x.log + [Reply])])
    case Write(c, sent) => st.(conns := st.conns[c := st.conns[c].(queued := st.conns[c].queued - sent)])
    case Dispatch(events) =>
      st.(batches := st.batches + [events], tasks := st.tasks + [seq(NUM_SHARDS, _ => Waiting)])
    case Snapshot(b, i) =>
      var found := OpenIn(st.conns, i);
      st.(tasks := st.tasks[b := st.tasks[b][i := Running(found, found)]])
    case Deliver(b, i, c) =>
      var t := st.tasks[b][i];
      State(st.conns[c := Delivered(st.conns[c], b, st.batches[b])], st.batches,
        st.tasks[b := st.tasks[b][i := t.(left := t.left - {c})]])
  }

  // --- What a connection has of a batch -------------------------------------------------

  /** The positions of batch b that were enqueued, in order. */
  function OfBatch(log: seq<Entry>, b: nat): seq<nat> {
    if log == [] then []
    else (if log[0].Item? && log[0].batch == b then [log[0].index] else []) + OfBatch(log[1..], b)
  }

  lemma {:induction false} OfBatchAppend(xs: seq<Entry>, ys: seq<Entry>, b: nat)
    ensures OfBatch(xs + ys, b) == OfBatch(xs, b) + OfBatch(ys, b)
  {
    if xs == [] {
      assert xs + ys == ys;
    } else {
      assert (xs + ys)[0] == xs[0] && (xs + ys)[1..] == xs[1..] + ys;
      OfBatchAppend(xs[1..], ys, b);
      Assoc(if xs[0].Item? && xs[0].batch == b then [xs[0].index] else [], OfBatch(xs[1..], b), OfBatch(ys, b));
    }
  }

  lemma {:induction false} OfItems(at: seq<nat>, b: nat, d: nat)
    ensures OfBatch(Items(b, at), d) == if b == d then at else []
  {
    if at != [] {
      assert Items(b, at)[1..] == Items(b, at[1..]);
      OfItems(at[1..], b, d);
      assert [at[0]] + at[1..] == at;
    }
  }

  /** A connection has of each batch exactly what the delivery it met had room for, and of a
      batch it has not met nothing. */
  predicate Received(x: Conn, batches: seq<seq<BroadcastEvent>>, b: nat) {
    if b in x.met then b < |batches| && OfBatch(x.log, b) == TakenAt(batches[b], x.fd, x.met[b])
    else OfBatch(x.log, b) == []
  }

  /** A task's connections are of its shard; those it is done with have met the batch or are
      closed, and nobody else has. */
  ghost predicate InHand(st: State, b: nat, i: nat, c: ConnId)
    requires IsTask(st, b, i) && c in st.conns && ShardIdx(st.conns[c].fd) == i
  {
    var x, t := st.conns[c], st.tasks[b][i];
    if t.Running? && c in t.found && c !in t.left then x.closed || b in x.met else b !in x.met
  }

  ghost predicate TaskSound(st: State, b: nat, i: nat)
    requires IsTask(st, b, i)
  {
    st.tasks[b][i].Running? ==>
      && st.tasks[b][i].left <= st.tasks[b][i].found
      && forall c | c in st.tasks[b][i].found :: c in st.conns && ShardIdx(st.conns[c].fd) == i
  }

  ghost predicate Inv(st: State) {
    && |st.tasks| == |st.batches|
    && (forall b | 0 <= b < |st.tasks| :: |st.tasks[b]| == NUM_SHARDS)
    && (forall b, i | 0 <= b < |st.tasks| && 0 <= i < NUM_SHARDS :: TaskSound(st, b, i))
    && (forall c, b: nat | c in st.conns :: Received(st.conns[c], st.batches, b))
    && (forall c, b: nat | c in st.conns && b in st.conns[c].met :: b < |st.tasks|)
    && (forall c, b | c in st.conns && 0 <= b < |st.tasks| :: InHand(st, b, ShardIdx(st.conns[c].fd), c))
  }

  // --- Every step keeps it --------------------------------------------------------------

  /** What changes a connection without a delivery: nothing new of any batch. */
  predicate SameBatches(x: Conn, y: Conn) {
    y.fd == x.fd && y.met == x.met && (x.closed ==> y.closed) && (y.log == x.log || y.log == x.log + [Reply])
  }

  lemma SameReceived(x: Conn, y: Conn, batches: seq<seq<BroadcastEvent>>, b: nat)
    requires SameBatches(x, y) && Received(x, batches, b)
    ensures Received(y, batches, b)
  {
    OfBatchAppend(x.log, [Reply], b);
    assert [Reply][1..] == [] && OfBatch([Reply], b) == [] + OfBatch([Reply][1..], b);
  }

  lemma ConnChangeKeeps(st: State, c: ConnId, y: Conn)
    requires Inv(st) && c in st.conns && SameBatches(st.conns[c], y)
    ensures Inv(st.(conns := st.conns[c := y]))
  {
    var st' := st.(conns := st.conns[c := y]);
    hide Received;
    forall d, b: nat | d in st'.conns
      ensures Received(st'.conns[d], st'.batches, b)
    {
      assert Received(st.conns[d], st.batches, b);
      if d == c {
        SameReceived(st.conns[c], y, st.batches, b);
      }
    }
    forall b, i | 0 <= b < |st.tasks| && 0 <= i < NUM_SHARDS
      ensures TaskSound(st', b, i)
    {
      assert TaskSound(st, b, i);
    }
    forall d, b | d in st'.conns && 0 <= b < |st.tasks|
      ensures InHand(st', b, ShardIdx(st'.conns[d].fd), d)
    {
      assert InHand(st, b, ShardIdx(st.conns[d].fd), d);
    }
  }

  lemma AcceptKeeps(st: State, c: ConnId, fd: nat)
    requires Inv(st) && Enabled(st, Accept(c, fd))
    ensures Inv(Next(st, Accept(c, fd)))
  {
    var st' := Next(st, Accept(c, fd));
    forall d, b: nat | d in st'.conns
      ensures Received(st'.conns[d], st'.batches, b)
    {
      assert d != c ==> Received(st.conns[d], st.batches, b);
    }
    forall b, i | 0 <= b < |st.tasks| && 0 <= i < NUM_SHARDS
      ensures TaskSound(st', b, i)
      ensures st.tasks[b][i].Running? ==> c !in st.tasks[b][i].found
    {
      assert TaskSound(st, b, i);
    }
    forall d, b | d in st'.conns && 0 <= b < |st.tasks|
      ensures InHand(st', b, ShardIdx(st'.conns[d].fd), d)
    {
      assert d != c ==> InHand(st, b, ShardIdx(st.conns[d].fd), d);
    }
  }

  lemma DispatchKeeps(st: State, events: seq<BroadcastEvent>)
    requires Inv(st) && Enabled(st, Dispatch(events))
    ensures Inv(Next(st, Dispatch(events)))
  {
    var st' := Next(st, Dispatch(events));
    var n := |st.tasks|;
    forall d, b: nat | d in st'.conns
      ensures Received(st'.conns[d], st'.batches, b)
    {
      assert Received(st.conns[d], st.batches, b);
    }
    forall b, i | 0 <= b < |st'.tasks| && 0 <= i < NUM_SHARDS
      ensures TaskSound(st', b, i)
    {
      assert b < n ==> TaskSound(st, b, i);
    }
    forall d, b | d in st'.conns && 0 <= b < |st'.tasks|
      ensures InHand(st', b, ShardIdx(st'.conns[d].fd), d)
    {
      assert b < n ==> InHand(st, b, ShardIdx(st.conns[d].fd), d);
      assert n !in st.conns[d].met;
    }
  }

  lemma SnapshotKeeps(st: State, b: nat, i: nat)
    requires Inv(st) && Enabled(st, Snapshot(b, i))
    ensures Inv(Next(st, Snapshot(b, i)))
  {
    var st' := Next(st, Snapshot(b, i));
    hide Received;
    forall e, j | 0 <= e < |st'.tasks| && 0 <= j < NUM_SHARDS
      ensures TaskSound(st', e, j)
    {
      assert TaskSound(st, e, j);
    }
    forall d, e | d in st'.conns && 0 <= e < |st'.tasks|
      ensures InHand(st', e, ShardIdx(st'.conns[d].fd), d)
    {
      assert InHand(st, e, ShardIdx(st.conns[d].fd), d);
    }
  }

  lemma DeliveredReceived(x: Conn, batches: seq<seq<BroadcastEvent>>, b: nat, d: nat)
    requires b < |batches| && b !in x.met && Received(x, batches, b) && Received(x, batches, d)
    ensures Received(Delivered(x, b, batches[b]), batches, d)
  {
    if !x.closed {
      var at := TakenAt(batches[b], x.fd, x.queued);
      OfBatchAppend(x.log, Items(b, at), d);
      OfItems(at, b, d);
      assert b != d ==> OfBatch(x.log, d) + [] == OfBatch(x.log, d);
      assert b == d ==> [] + at == at;
    }
  }

  lemma DeliverKeeps(st: State, b: nat, i: nat, c: ConnId)
    requires Inv(st) && Enabled(st, Deliver(b, i, c))
    ensures Inv(Next(st, Deliver(b, i, c)))
  {
    var st' := Next(st, Deliver(b, i, c));
    assert TaskSound(st, b, i) && InHand(st, b, i, c);
    hide Received;
    forall d, e: nat | d in st'.conns
      ensures Received(st'.conns[d], st'.batches, e)
    {
      assert Received(st.conns[d], st.batches, e) && Received(st.conns[d], st.batches, b);
      if d == c {
        DeliveredReceived(st.conns[c], st.batches, b, e);
      }
    }
    forall e, j | 0 <= e < |st'.tasks| && 0 <= j < NUM_SHARDS
      ensures TaskSound(st', e, j)
    {
      assert TaskSound(st, e, j);
    }
    forall d, e | d in st'.conns && 0 <= e < |st'.tasks|
      ensures InHand(st', e, ShardIdx(st'.conns[d].fd), d)
    {
      assert InHand(st, e, ShardIdx(st.conns[d].fd), d);
    }
  }

  lemma NextKeeps(st: State, a: Action)
    requires Inv(st) && Enabled(st, a)
    ensures Inv(Next(st, a))
  {
    hide Inv;
    match a {
      case Accept(c, fd) => AcceptKeeps(st, c, fd);
      case Close(c) => ConnChangeKeeps(st, c, st.conns[c].(closed := true));
      case Send(c) =>
        var x := st.conns[c];
        ConnChangeKeeps(st, c, if x.closed then x else x.(queued := x.queued + 1, log := x.log + [Reply]));
        assert st.conns[c := x] == st.conns;
      case Write(c, sent) => ConnChangeKeeps(st, c, st.conns[c].(queued := st.conns[c].queued - sent));
      case Dispatch(events) => DispatchKeeps(st, events);
      case Snapshot(b, i) => SnapshotKeeps(st, b, i);
      case Deliver(b, i, c) => DeliverKeeps(st, b, i, c);
    }
  }

  // --- Whole runs -----------------------------------------------------------------------

  predicate IsRun(st: State, actions: seq<Action>)
    decreases |actions|
  {
    actions == [] || (Enabled(st, actions[0]) && IsRun(Next(st, actions[0]), actions[1..]))
  }

  function Run(st: State, actions: seq<Action>): State
    requires IsRun(st, actions)
    decreases |actions|
  {
    if actions == [] then st else Run(Next(st, actions[0]), actions[1..])
  }

  lemma {:induction false} RunKeeps(st: State, actions: seq<Action>)
    requires Inv(st) && IsRun(st, actions)
    ensures Inv(Run(st, actions))
    decreases |actions|
  {
    if actions != [] {
      NextKeeps(st, actions[0]);
      RunKeeps(Next(st, actions[0]), actions[1..]);
    }
  }

  /** The task has been through all it found, c among them. */
  predicate Done(t: Task, c: ConnId) {
    t.Running? && t.left == {} && c in t.found
  }

  predicate Increasing(s: seq<nat>) {
    forall j, k | 0 <= j < k < |s| :: s[j] < s[k]
  }

  lemma {:induction false} WantedIsIncreasing(events: seq<BroadcastEvent>, fd: nat, n: nat)
    requires n <= |events|
    ensures Increasing(WantedAt(events, fd, n))
  {
    if n > 0 {
      WantedIsIncreasing(events, fd, n - 1);
    }
  }

  /** However the tasks of any number of batches interleave with each other and with everything
      else: a connection has of each batch a first part of the events it wants, in order, none
      of them twice, cut short only where its queue was at the limit and never taking it past;
      and once the task of its shard is done, a connection that the task found open and that
      is still open has met the batch. */
  lemma EveryInterleaving(actions: seq<Action>, c: ConnId, b: nat)
    requires IsRun(START, actions)
    requires var st := Run(START, actions); c in st.conns && b < |st.batches|
    ensures var st := Run(START, actions);
            var x, events := st.conns[c], st.batches[b];
            var has, wanted := OfBatch(x.log, b), WantedAt(events, x.fd, |events|);
            && has <= wanted && Increasing(has)
            && (b in x.met && has != wanted ==> x.met[b] + |has| >= MAX_OUTGOING_QUEUE_SIZE)
            && (has != [] ==> b in x.met && x.met[b] + |has| <= MAX_OUTGOING_QUEUE_SIZE)
    ensures var st := Run(START, actions);
            var i := ShardIdx(st.conns[c].fd);
            && IsTask(st, b, i)
            && (Done(st.tasks[b][i], c) && !st.conns[c].closed ==> b in st.conns[c].met)
  {
    RunKeeps(START, actions);
    var st := Run(START, actions);
    var x := st.conns[c];
    WantedIsIncreasing(st.batches[b], x.fd, |st.batches[b]|);
    assert Received(x, st.batches, b) && InHand(st, b, ShardIdx(x.fd), c);
  }

  // --- The same as one delivery of the imperative code ----------------------------------

  function At(events: seq<BroadcastEvent>, at: seq<nat>): seq<BroadcastEvent>
    requires forall k | 0 <= k < |at| :: at[k] < |events|
  {
    seq(|at|, k requires 0 <= k < |at| => events[at[k]])
  }

  lemma {:induction false} WantedAtIsWanted(events: seq<BroadcastEvent>, fd: nat, n: nat)
    requires n <= |events|
    ensures At(events, WantedAt(events, fd, n)) == Wanted(events[..n], fd)
  {
    if n > 0 {
      WantedAtIsWanted(events, fd, n - 1);
      WantedSnoc(events, fd, n - 1);
    }
  }

  /** The positions taken in one step are those of the payloads that `Outgoing.BroadcastTo`
      enqueues on a queue of the same length. */
  lemma TakenIsAccepted(events: seq<BroadcastEvent>, fd: nat, queued: nat)
    ensures Payloads(At(events, TakenAt(events, fd, queued))) == Accepted(events, fd, queued)
  {
    WantedAtIsWanted(events, fd, |events|);
    assert events[..|events|] == events;
    var w, n := WantedAt(events, fd, |events|), |TakenAt(events, fd, queued)|;
    assert At(events, w[..n]) == At(events, w)[..n];
  }

  // --- What a run leaves, from its actions alone ------------------------------------------

  function DispatchedBy(actions: seq<Action>): seq<seq<BroadcastEvent>> {
    if actions == [] then []
    else (if actions[0].Dispatch? then [actions[0].events] else []) + DispatchedBy(actions[1..])
  }

  /** The packets of c that were written. */
  function Written(actions: seq<Action>, c: ConnId): nat {
    if actions == [] then 0
    else (if actions[0].Write? && actions[0].c == c then actions[0].sent else 0) + Written(actions[1..], c)
  }

  /** The sends to c that found it open. */
  function SentOpen(actions: seq<Action>, c: ConnId, open: bool): nat {
    if actions == [] then 0
    else
      var now := if open && actions[0] == Send(c) then 1 else 0;
      now + SentOpen(actions[1..], c, open && actions[0] != Close(c))
  }

  function Replies(log: seq<Entry>): nat {
    if log == [] then 0 else (if log[0].Reply? then 1 else 0) + Replies(log[1..])
  }

  lemma {:induction false} RepliesAppend(xs: seq<Entry>, ys: seq<Entry>)
    ensures Replies(xs + ys) == Replies(xs) + Replies(ys)
  {
    if xs == [] {
      assert xs + ys == ys;
    } else {
      assert (xs + ys)[0] == xs[0] && (xs + ys)[1..] == xs[1..] + ys;
      RepliesAppend(xs[1..], ys);
    }
  }

  lemma {:induction false} NoReplies(b: nat, at: seq<nat>)
    ensures Replies(Items(b, at)) == 0
  {
    if at != [] {
      assert Items(b, at)[1..] == Items(b, at[1..]);
      NoReplies(b, at[1..]);
    }
  }

  /** What one step does to a connection's account. */
  lemma StepAccounts(st: State, a: Action, c: ConnId)
    requires Enabled(st, a) && c in st.conns
    ensures c in Next(st, a).conns
    ensures var x, y := st.conns[c], Next(st, a).conns[c];
            && y.fd == x.fd && x.log <= y.log
            && (y.closed <==> x.closed || a == Close(c))
            && y.queued + Written([a], c) == x.queued + |y.log| - |x.log|
            && Replies(y.log) == Replies(x.log) + if !x.closed && a == Send(c) then 1 else 0
  {
    var x := st.conns[c];
    hide Delivered;
    assert [a][1..] == [];
    if a == Send(c) {
      RepliesAppend(x.log, [Reply]);
      assert [Reply][1..] == [] && Replies([Reply]) == 1 + Replies([Reply][1..]);
    } else if a.Deliver? && a.c == c {
      DeliveredAccount(x, a.b, st.batches[a.b]);
    }
  }

  lemma DeliveredAccount(x: Conn, b: nat, events: seq<BroadcastEvent>)
    ensures var y := Delivered(x, b, events);
            && y.fd == x.fd && y.closed == x.closed && x.log <= y.log
            && y.queued == x.queued + |y.log| - |x.log|
            && Replies(y.log) == Replies(x.log)
  {
    var at := TakenAt(events, x.fd, x.queued);
    RepliesAppend(x.log, Items(b, at));
    NoReplies(b, at);
  }

  lemma {:induction false} RunAccounts(st: State, actions: seq<Action>, c: ConnId)
    requires IsRun(st, actions) && c in st.conns
    ensures c in Run(st, actions).conns
    ensures var x, y := st.conns[c], Run(st, actions).conns[c];
            && y.fd == x.fd && x.log <= y.log
            && (y.closed <==> x.closed || Close(c) in actions)
            && y.queued + Written(actions, c) == x.queued + |y.log| - |x.log|
            && Replies(y.log) == Replies(x.log) + SentOpen(actions, c, !x.closed)
    decreases |actions|
  {
    if actions != [] {
      var a, rest := actions[0], actions[1..];
      StepAccounts(st, a, c);
      RunAccounts(Next(st, a), rest, c);
      assert [a][1..] == [] && actions == [a] + rest;
    }
  }

  /** The same for a connection accepted on the way. */
  lemma {:induction false} FreshAccounts(st: State, actions: seq<Action>, c: ConnId)
    requires IsRun(st, actions) && c !in st.conns && c in Run(st, actions).conns
    ensures var y := Run(st, actions).conns[c];
            && Accept(c, y.fd) in actions
            && (y.closed <==> Close(c) in actions)
            && y.queued + Written(actions, c) == |y.log|
            && Replies(y.log) == SentOpen(actions, c, true)
    decreases |actions|
  {
    if actions != [] {
      var a, rest := actions[0], actions[1..];
      assert actions == [a] + rest;
      if a.Accept? && a.c == c {
        RunAccounts(Next(st, a), rest, c);
      } else {
        FreshAccounts(Next(st, a), rest, c);
      }
    }
  }

  lemma {:induction false} RunDispatches(st: State, actions: seq<Action>)
    requires IsRun(st, actions)
    ensures Run(st, actions).batches == st.batches + DispatchedBy(actions)
    decreases |actions|
  {
    if actions == [] {
      assert st.batches + [] == st.batches;
    } else {
      var a, rest := actions[0], actions[1..];
      RunDispatches(Next(st, a), rest);
      Assoc(st.batches, if a.Dispatch? then [a.events] else [], DispatchedBy(rest));
      assert a.Dispatch? || st.batches + [] == st.batches;
    }
  }

  /** The batches are those dispatched; a connection has the descriptor it was accepted with and
      is closed once it was closed; its queue is everything enqueued less everything written;
      and it has a packet for each send that found it open. */
  lemma WhatARunLeaves(actions: seq<Action>, c: ConnId)
    requires IsRun(START, actions) && c in Run(START, actions).conns
    ensures Run(START, actions).batches == DispatchedBy(actions)
    ensures var x := Run(START, actions).conns[c];
            && Accept(c, x.fd) in actions && (x.closed <==> Close(c) in actions)
            && x.queued == |x.log| - Written(actions, c)
            && Replies(x.log) == SentOpen(actions, c, true)
  {
    FreshAccounts(START, actions, c);
    RunDispatches(START, actions);
  }

  /** Which positions a connection wants: those of events under another descriptor, all of them. */
  lemma {:induction false} WantedAtIs(events: seq<BroadcastEvent>, fd: nat, n: nat, k: nat)
    requires n <= |events|
    ensures k in WantedAt(events, fd, n) <==> k < n && (events[k].senderFd == -1 || events[k].senderFd != fd)
  {
    if n > 0 {
      WantedAtIs(events, fd, n - 1, k);
      var last := if Own(events[n - 1], fd) then [] else [n - 1];
      assert k in WantedAt(events, fd, n) <==> k in WantedAt(events, fd, n - 1) || k in last;
    }
  }

  /** A delivery to an open connection, in any run: it enqueues a first part of the wanted events.
      What is then enqueued and not written is at most 5000 if it enqueued anything, and at least
      5000 if it enqueued less than all. A closed connection gets nothing. */
  lemma DeliveryStopsAtTheLimit(actions: seq<Action>, b: nat, i: nat, c: ConnId)
    requires IsRun(START, actions) && Enabled(Run(START, actions), Deliver(b, i, c))
    ensures b < |DispatchedBy(actions)|
    ensures var st := Run(START, actions);
            var x, y := st.conns[c], Next(st, Deliver(b, i, c)).conns[c];
            var events := DispatchedBy(actions)[b];
            if x.closed then y == x
            else exists at ::
              && at <= WantedAt(events, x.fd, |events|) && y.log == x.log + Items(b, at)
              && (at != [] ==> |y.log| - Written(actions, c) <= MAX_OUTGOING_QUEUE_SIZE)
              && (at != WantedAt(events, x.fd, |events|) ==> |y.log| - Written(actions, c) >= MAX_OUTGOING_QUEUE_SIZE)
  {
    WhatARunLeaves(actions, c);
    var st := Run(START, actions);
    var x := st.conns[c];
    if !x.closed {
      var at := TakenAt(st.batches[b], x.fd, x.queued);
      assert at <= WantedAt(st.batches[b], x.fd, |st.batches[b]|);
    }
  }

  lemma {:induction false} FoundStays(st: State, actions: seq<Action>, b: nat, i: nat)
    requires Inv(st) && IsRun(st, actions) && IsTask(st, b, i) && st.tasks[b][i].Running?
    ensures var st' := Run(st, actions);
            IsTask(st', b, i) && st'.tasks[b][i].Running? && st'.tasks[b][i].found == st.tasks[b][i].found
    decreases |actions|
  {
    if actions != [] {
      NextKeeps(st, actions[0]);
      FoundStays(Next(st, actions[0]), actions[1..], b, i);
    }
  }

  lemma {:induction false} RunsJoin(st: State, xs: seq<Action>, ys: seq<Action>)
    requires IsRun(st, xs + ys)
    ensures IsRun(st, xs) && IsRun(Run(st, xs), ys) && Run(st, xs + ys) == Run(Run(st, xs), ys)
    decreases |xs|
  {
    if xs == [] {
      assert xs + ys == ys;
    } else {
      assert (xs + ys)[0] == xs[0] && (xs + ys)[1..] == xs[1..] + ys;
      RunsJoin(Next(st, xs[0]), xs[1..], ys);
    }
  }

  /** Every connection that is open when the task of its shard begins, and still when the task is
      done, has met the batch, once. */
  lemma OpenIsServed(before: seq<Action>, b: nat, i: nat, after: seq<Action>, c: ConnId)
    requires IsRun(START, before + ([Snapshot(b, i)] + after))
    requires IsRun(START, before) && c in Run(START, before).conns
    requires var x := Run(START, before).conns[c]; !x.closed && ShardIdx(x.fd) == i
    ensures var st := Run(START, before + ([Snapshot(b, i)] + after));
            && c in st.conns && IsTask(st, b, i) && st.tasks[b][i].Running?
            && (st.tasks[b][i].left == {} && !st.conns[c].closed ==> b in st.conns[c].met)
  {
    var s0 := Run(START, before);
    RunsJoin(START, before, [Snapshot(b, i)] + after);
    assert ([Snapshot(b, i)] + after)[1..] == after;
    var s1 := Next(s0, Snapshot(b, i));
    RunKeeps(START, before);
    NextKeeps(s0, Snapshot(b, i));
    assert c in s1.tasks[b][i].found;
    FoundStays(s1, after, b, i);
    RunKeeps(s1, after);
    RunAccounts(s1, after, c);
    var st := Run(s1, after);
    assert InHand(st, b, i, c);
  }
}
