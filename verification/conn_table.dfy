/** The connection table of v4/webserver.cpp: 16 shards, each with a map from fd to connection
    and a heap of timer events that may be stale; descriptors that live as long as somebody
    holds their Connection; and the idle sweep.

    Each method is one atomic step of one thread, so the contracts hold for every order of
    accepts, reads, closes, sweeps and reference drops. */
module ConnTables {
  import opened Broadcasts

  type ConnId = nat

  const CONNECTION_TIMEOUT_SEC := 600

  datatype TimerEvent = TimerEvent(expiresAt: int, fd: nat)

  /** The priority queue is a bag from which a least element is taken. */
  datatype Shard = Shard(connections: map<nat, ConnId>, heap: seq<TimerEvent>)

  /** The call of close_conn that has won the exchange and not yet returned. */
  datatype Closer = Nobody | Worker | Sweeper

  /** A Connection object. `stamp` is the clock when its first timer event was pushed, and
      `refs` counts the shared pointers other than those of the table, of the sweeper's list
      and of the closer. */
  datatype Conn = Conn(fd: nat, lastActivity: int, stamp: int, closed: bool, refs: nat, closer: Closer)

  function Max(a: int, b: int): int { if a < b then b else a }

  /** The time by which the sweep must have looked at a connection. */
  function Deadline(x: Conn): int {
    Max(x.stamp, x.lastActivity) + CONNECTION_TIMEOUT_SEC
  }

  /** Some event for `fd` comes up no later than `bound`. */
  predicate HasEvent(heap: seq<TimerEvent>, fd: nat, bound: int) {
    exists k :: 0 <= k < |heap| && heap[k].fd == fd && heap[k].expiresAt <= bound
  }

  // --- What holds of the table at all times ---------------------------------------------

  /** `fds`, the descriptors open for clients, each with the Connection object that owns it:
      every object owns one, and no two share it. */
  ghost predicate FdsMatch(fds: map<nat, ConnId>, conns: map<ConnId, Conn>) {
    && (forall c | c in conns :: conns[c].fd in fds && fds[conns[c].fd] == c)
    && (forall fd | fd in fds :: fds[fd] in conns && conns[fds[fd]].fd == fd)
  }

  /** The entry at key fd is the connection that owns fd, in the shard that fd names. */
  ghost predicate EntriesOwn(shard: Shard, i: nat, conns: map<ConnId, Conn>) {
    forall fd | fd in shard.connections ::
      ShardIdx(fd) == i && shard.connections[fd] in conns && conns[shard.connections[fd]].fd == fd
  }

  predicate Mapped(shards: seq<Shard>, c: ConnId, fd: nat) {
    ShardIdx(fd) < |shards| && fd in shards[ShardIdx(fd)].connections && shards[ShardIdx(fd)].connections[fd] == c
  }

  /** An open connection is in the table, with a timer event in time unless the sweeper
      already holds it; a closed one is there only until its closer has erased it. */
  ghost predicate Watched(shards: seq<Shard>, c: ConnId, x: Conn, timedOut: set<ConnId>)
    requires |shards| == NUM_SHARDS
  {
    && (!x.closed ==> Mapped(shards, c, x.fd) && x.closer == Nobody)
    && (!x.closed && c !in timedOut ==> HasEvent(shards[ShardIdx(x.fd)].heap, x.fd, Deadline(x)))
    && (x.closed && x.closer == Nobody ==> !Mapped(shards, c, x.fd))
  }

  /** Somebody holds a pointer to the connection. */
  predicate Held(shards: seq<Shard>, c: ConnId, x: Conn, timedOut: set<ConnId>) {
    x.refs > 0 || x.closer != Nobody || c in timedOut || Mapped(shards, c, x.fd)
  }

  ghost predicate Sound(shards: seq<Shard>, conns: map<ConnId, Conn>, timedOut: set<ConnId>) {
    && |shards| == NUM_SHARDS
    && (forall i | 0 <= i < NUM_SHARDS :: EntriesOwn(shards[i], i, conns))
    && (forall c {:trigger Watched(shards, c, conns[c], timedOut)} | c in conns :: Watched(shards, c, conns[c], timedOut))
  }

  ghost predicate AllHeld(shards: seq<Shard>, conns: map<ConnId, Conn>, timedOut: set<ConnId>) {
    forall c {:trigger Held(shards, c, conns[c], timedOut)} | c in conns :: Held(shards, c, conns[c], timedOut)
  }

  ghost predicate OthersHeld(shards: seq<Shard>, conns: map<ConnId, Conn>, timedOut: set<ConnId>, c: ConnId) {
    forall d {:trigger Held(shards, d, conns[d], timedOut)} | d in conns && d != c :: Held(shards, d, conns[d], timedOut)
  }

  lemma FdsAreNotShared(fds: map<nat, ConnId>, conns: map<ConnId, Conn>, c: ConnId, d: ConnId)
    requires FdsMatch(fds, conns) && c in conns && d in conns && conns[c].fd == conns[d].fd
    ensures c == d
  {
  }

  // --- The heap -------------------------------------------------------------------------

  function Due(heap: seq<TimerEvent>, now: int): nat {
    if heap == [] then 0 else (if heap[0].expiresAt <= now then 1 else 0) + Due(heap[1..], now)
  }

  lemma {:induction false} DueAppend(xs: seq<TimerEvent>, ys: seq<TimerEvent>, now: int)
    ensures Due(xs + ys, now) == Due(xs, now) + Due(ys, now)
  {
    if xs == [] {
      assert xs + ys == ys;
    } else {
      assert (xs + ys)[0] == xs[0] && (xs + ys)[1..] == xs[1..] + ys;
      DueAppend(xs[1..], ys, now);
    }
  }

  function Without(heap: seq<TimerEvent>, k: nat): seq<TimerEvent>
    requires k < |heap|
  {
    heap[..k] + heap[k + 1..]
  }

  lemma DueWithout(heap: seq<TimerEvent>, k: nat, now: int)
    requires k < |heap| && heap[k].expiresAt <= now
    ensures Due(Without(heap, k), now) == Due(heap, now) - 1
  {
    assert heap == heap[..k] + ([heap[k]] + heap[k + 1..]);
    DueAppend(heap[..k], [heap[k]] + heap[k + 1..], now);
    DueAppend([heap[k]], heap[k + 1..], now);
    DueAppend(heap[..k], heap[k + 1..], now);
    assert [heap[k]][1..] == [];
  }

  lemma DueSnoc(heap: seq<TimerEvent>, e: TimerEvent, now: int)
    requires e.expiresAt > now
    ensures Due(heap + [e], now) == Due(heap, now)
  {
    DueAppend(heap, [e], now);
    assert [e][1..] == [];
  }

  lemma OtherEventsStay(heap: seq<TimerEvent>, k: nat, fd: nat, bound: int)
    requires k < |heap| && heap[k].fd != fd && HasEvent(heap, fd, bound)
    ensures HasEvent(Without(heap, k), fd, bound)
  {
    var j :| 0 <= j < |heap| && heap[j].fd == fd && heap[j].expiresAt <= bound;
    assert Without(heap, k)[if j < k then j else j - 1] == heap[j];
  }

  lemma PushKeepsEvents(heap: seq<TimerEvent>, e: TimerEvent, fd: nat, bound: int)
    requires HasEvent(heap, fd, bound) || (e.fd == fd && e.expiresAt <= bound)
    ensures HasEvent(heap + [e], fd, bound)
  {
    if HasEvent(heap, fd, bound) {
      var j :| 0 <= j < |heap| && heap[j].fd == fd && heap[j].expiresAt <= bound;
      assert (heap + [e])[j] == heap[j];
    } else {
      assert (heap + [e])[|heap|] == e;
    }
  }

  /** priority_queue::top: the index of an event that no other precedes. */
  method Top(heap: seq<TimerEvent>) returns (k: nat)
    requires heap != []
    ensures k < |heap|
    ensures forall j | 0 <= j < |heap| :: heap[k].expiresAt <= heap[j].expiresAt
  {
    k := 0;
    for j := 1 to |heap|
      invariant k < |heap|
      invariant forall i | 0 <= i < j :: heap[k].expiresAt <= heap[i].expiresAt
    {
      if heap[j].expiresAt < heap[k].expiresAt {
        k := j;
      }
    }
  }

  /** What the sweep of one shard owes a connection that is open in it: an event in time, or
      a place among the timed out, and then only if it was idle for the full timeout. */
  ghost predicate SweptFor(shard: Shard, fd: nat, conns: map<ConnId, Conn>, timedOut: set<ConnId>)
    requires fd in shard.connections && shard.connections[fd] in conns
  {
    var c := shard.connections[fd];
    c in timedOut || conns[c].closed || HasEvent(shard.heap, fd, Deadline(conns[c]))
  }

  ghost predicate Expired(conns: map<ConnId, Conn>, timedOut: set<ConnId>, now: int) {
    forall c | c in timedOut :: c in conns && conns[c].lastActivity + CONNECTION_TIMEOUT_SEC <= now
  }

  /** The loop of check_timeouts over one shard's heap, with the shard's lock held. */
  method SweepShard(shard: Shard, conns: map<ConnId, Conn>, i: nat, now: int, before: set<ConnId>)
    returns (shard': Shard, timedOut: set<ConnId>)
    requires EntriesOwn(shard, i, conns)
    requires forall fd | fd in shard.connections :: SweptFor(shard, fd, conns, before)
    ensures shard'.connections == shard.connections
    ensures before <= timedOut && Expired(conns, timedOut - before, now)
    ensures forall fd | fd in shard.connections :: SweptFor(shard', fd, conns, timedOut)
    // nothing due is left
    ensures forall k | 0 <= k < |shard'.heap| :: shard'.heap[k].expiresAt > now
  {
    shard', timedOut := shard, before;
    while shard'.heap != []
      invariant shard'.connections == shard.connections
      invariant before <= timedOut && Expired(conns, timedOut - before, now)
      invariant forall fd | fd in shard.connections :: SweptFor(shard', fd, conns, timedOut)
      decreases Due(shard'.heap, now)
    {
      var k := Top(shard'.heap);
      var event := shard'.heap[k];
      if event.expiresAt > now {
        break;
      }
      shard', timedOut := SweepEvent(shard', conns, i, now, k, timedOut);
    }
  }

  /** One turn of that loop: the due event goes, and unless its fd is free by now either a
      later event replaces it or the connection is timed out. */
  method SweepEvent(shard: Shard, conns: map<ConnId, Conn>, i: nat, now: int, k: nat, before: set<ConnId>)
    returns (shard': Shard, timedOut: set<ConnId>)
    requires EntriesOwn(shard, i, conns)
    requires k < |shard.heap| && shard.heap[k].expiresAt <= now
    requires forall fd | fd in shard.connections :: SweptFor(shard, fd, conns, before)
    ensures shard'.connections == shard.connections
    ensures before <= timedOut && Expired(conns, timedOut - before, now)
    ensures forall fd | fd in shard.connections :: SweptFor(shard', fd, conns, timedOut)
    ensures Due(shard'.heap, now) < Due(shard.heap, now)
  {
    var fd := shard.heap[k].fd;
    var rest := Without(shard.heap, k);
    DueWithout(shard.heap, k, now);
    shard', timedOut := shard.(heap := rest), before;
    if fd in shard.connections {
      var c := shard.connections[fd];
      var expectedExpiry := conns[c].lastActivity + CONNECTION_TIMEOUT_SEC;
      if expectedExpiry > now {
        var e := TimerEvent(expectedExpiry, fd);
        DueSnoc(rest, e, now);
        shard' := shard.(heap := rest + [e]);
      } else {
        timedOut := timedOut + {c};
      }
    }
    forall f | f in shard.connections
      ensures SweptFor(shard', f, conns, timedOut)
    {
      var c := shard.connections[f];
      if f != fd {
        if HasEvent(shard.heap, f, Deadline(conns[c])) {
          OtherEventsStay(shard.heap, k, f, Deadline(conns[c]));
          if |shard'.heap| > |rest| {
            PushKeepsEvents(rest, shard'.heap[|rest|], f, Deadline(conns[c]));
          }
        }
      } else if |shard'.heap| > |rest| {
        PushKeepsEvents(rest, shard'.heap[|rest|], f, Deadline(conns[c]));
      }
    }
  }

  // --- What each step does to the invariant ----------------------------------------------

  lemma NewEntryKeeps(shards: seq<Shard>, d: ConnId, x: Conn, timedOut: set<ConnId>, fd: nat, c: ConnId, e: TimerEvent)
    requires |shards| == NUM_SHARDS && x.fd != fd
    requires Watched(shards, d, x, timedOut) && Held(shards, d, x, timedOut)
    ensures var i := ShardIdx(fd);
            var shards' := shards[i := Shard(shards[i].connections[fd := c], shards[i].heap + [e])];
            Watched(shards', d, x, timedOut) && Held(shards', d, x, timedOut)
  {
    hide HasEvent;
    hide Deadline;
    if HasEvent(shards[ShardIdx(fd)].heap, x.fd, Deadline(x)) {
      PushKeepsEvents(shards[ShardIdx(fd)].heap, e, x.fd, Deadline(x));
    }
  }

  lemma AcceptKeeps(shards: seq<Shard>, conns: map<ConnId, Conn>, timedOut: set<ConnId>, fds: map<nat, ConnId>,
                    c: ConnId, x: Conn, e: TimerEvent)
    requires Sound(shards, conns, timedOut) && AllHeld(shards, conns, timedOut) && FdsMatch(fds, conns)
    requires c !in conns && x.fd !in fds && !x.closed && x.refs > 0 && x.closer == Nobody
    requires e.fd == x.fd && e.expiresAt == x.stamp + CONNECTION_TIMEOUT_SEC
    ensures x.fd !in shards[ShardIdx(x.fd)].connections
    ensures var i := ShardIdx(x.fd);
            var shards' := shards[i := Shard(shards[i].connections[x.fd := c], shards[i].heap + [e])];
            var conns' := conns[c := x];
            Sound(shards', conns', timedOut) && AllHeld(shards', conns', timedOut) && FdsMatch(fds[x.fd := c], conns')
  {
    var i := ShardIdx(x.fd);
    var shards' := shards[i := Shard(shards[i].connections[x.fd := c], shards[i].heap + [e])];
    var conns' := conns[c := x];
    hide HasEvent;
    FdComes(fds, conns, c, x);
    hide FdsMatch;
    assert EntriesOwn(shards[i], i, conns);
    forall d | d in conns'
      ensures Watched(shards', d, conns'[d], timedOut) && Held(shards', d, conns'[d], timedOut)
    {
      if d == c {
        PushKeepsEvents(shards[i].heap, e, x.fd, Deadline(x));
      } else {
        assert Watched(shards, d, conns[d], timedOut) && Held(shards, d, conns[d], timedOut);
        NewEntryKeeps(shards, d, conns[d], timedOut, x.fd, c, e);
      }
    }
    forall j | 0 <= j < NUM_SHARDS
      ensures EntriesOwn(shards'[j], j, conns')
    {
      assert EntriesOwn(shards[j], j, conns);
    }
  }

  lemma EventStillInTime(heap: seq<TimerEvent>, fd: nat, bound: int, later: int)
    requires HasEvent(heap, fd, bound) && bound <= later
    ensures HasEvent(heap, fd, later)
  {
    var k :| 0 <= k < |heap| && heap[k].fd == fd && heap[k].expiresAt <= bound;
  }

  lemma UpdateKeeps(shards: seq<Shard>, conns: map<ConnId, Conn>, timedOut: set<ConnId>, fds: map<nat, ConnId>,
                    c: ConnId, y: Conn)
    requires Sound(shards, conns, timedOut) && AllHeld(shards, conns, timedOut) && FdsMatch(fds, conns)
    requires c in conns && y.fd == conns[c].fd
    requires Watched(shards, c, y, timedOut)
    ensures Sound(shards, conns[c := y], timedOut) && FdsMatch(fds, conns[c := y])
    ensures OthersHeld(shards, conns[c := y], timedOut, c)
    ensures Held(shards, c, y, timedOut) ==> AllHeld(shards, conns[c := y], timedOut)
  {
    hide HasEvent;
    hide Mapped;
    hide Deadline;
    forall i | 0 <= i < NUM_SHARDS
      ensures EntriesOwn(shards[i], i, conns[c := y])
    {
      assert EntriesOwn(shards[i], i, conns);
    }
    forall d | d in conns
      ensures Watched(shards, d, conns[c := y][d], timedOut)
      ensures d != c ==> Held(shards, d, conns[c := y][d], timedOut)
    {
      assert Watched(shards, d, conns[d], timedOut) && Held(shards, d, conns[d], timedOut);
    }
  }

  /** connections.erase(fd) in the shard that fd names. */
  function Unmap(shards: seq<Shard>, fd: nat): (r: seq<Shard>)
    requires |shards| == NUM_SHARDS
    ensures |r| == NUM_SHARDS
  {
    var i := ShardIdx(fd);
    shards[i := shards[i].(connections := shards[i].connections - {fd})]
  }

  /** Erasing by descriptor removes the entry of the connection that owns it and no other. */
  lemma EraseUnmapsOne(shards: seq<Shard>, conns: map<ConnId, Conn>, timedOut: set<ConnId>, fds: map<nat, ConnId>, c: ConnId)
    requires Sound(shards, conns, timedOut) && FdsMatch(fds, conns) && c in conns
    ensures var shards' := Unmap(shards, conns[c].fd);
            !Mapped(shards', c, conns[c].fd) && forall d, f | d != c :: Mapped(shards', d, f) == Mapped(shards, d, f)
  {
    hide Watched;
    var fd := conns[c].fd;
    assert EntriesOwn(shards[ShardIdx(fd)], ShardIdx(fd), conns);
    forall d, f | d != c
      ensures Mapped(Unmap(shards, fd), d, f) == Mapped(shards, d, f)
    {
      if f == fd && Mapped(shards, d, f) {
        assert false;
      }
    }
  }

  lemma UnmapKeepsRest(shards: seq<Shard>, conns: map<ConnId, Conn>, fd: nat, j: nat)
    requires |shards| == NUM_SHARDS && j < NUM_SHARDS && EntriesOwn(shards[j], j, conns)
    ensures EntriesOwn(Unmap(shards, fd)[j], j, conns) && Unmap(shards, fd)[j].heap == shards[j].heap
  {
  }

  lemma EntriesStay(shard: Shard, j: nat, conns: map<ConnId, Conn>, c: ConnId, y: Conn)
    requires EntriesOwn(shard, j, conns) && c in conns && y.fd == conns[c].fd
    ensures EntriesOwn(shard, j, conns[c := y])
  {
  }

  lemma FdStays(fds: map<nat, ConnId>, conns: map<ConnId, Conn>, c: ConnId, y: Conn)
    requires FdsMatch(fds, conns) && c in conns && y.fd == conns[c].fd
    ensures FdsMatch(fds, conns[c := y])
  {
  }

  lemma ErasedIsDone(shards: seq<Shard>, shards': seq<Shard>, c: ConnId, x: Conn, timedOut: set<ConnId>)
    requires |shards| == |shards'| == NUM_SHARDS
    requires Watched(shards, c, x, timedOut) && x.closer != Nobody && !Mapped(shards', c, x.fd)
    ensures Watched(shards', c, x.(closer := Nobody), timedOut)
  {
    hide HasEvent;
    hide Mapped;
  }

  lemma MappedIsAll(shards: seq<Shard>, shards': seq<Shard>, d: ConnId, x: Conn, timedOut: set<ConnId>)
    requires |shards| == |shards'| == NUM_SHARDS
    requires Watched(shards, d, x, timedOut) && Held(shards, d, x, timedOut)
    requires Mapped(shards', d, x.fd) == Mapped(shards, d, x.fd)
    requires shards'[ShardIdx(x.fd)].heap == shards[ShardIdx(x.fd)].heap
    ensures Watched(shards', d, x, timedOut) && Held(shards', d, x, timedOut)
  {
    hide HasEvent;
    hide Mapped;
  }

  lemma EraseKeeps(shards: seq<Shard>, conns: map<ConnId, Conn>, timedOut: set<ConnId>, fds: map<nat, ConnId>, c: ConnId)
    requires Sound(shards, conns, timedOut) && AllHeld(shards, conns, timedOut) && FdsMatch(fds, conns)
    requires c in conns && conns[c].closer != Nobody
    ensures var shards' := Unmap(shards, conns[c].fd);
            var conns' := conns[c := conns[c].(closer := Nobody)];
            Sound(shards', conns', timedOut) && FdsMatch(fds, conns') && OthersHeld(shards', conns', timedOut, c)
  {
    var shards', y := Unmap(shards, conns[c].fd), conns[c].(closer := Nobody);
    EraseUnmapsOne(shards, conns, timedOut, fds, c);
    FdStays(fds, conns, c, y);
    hide Watched;
    hide Held;
    hide EntriesOwn;
    hide FdsMatch;
    hide Unmap;
    hide ShardIdx;
    forall j | 0 <= j < NUM_SHARDS
      ensures EntriesOwn(shards'[j], j, conns[c := y]) && shards'[j].heap == shards[j].heap
    {
      UnmapKeepsRest(shards, conns, conns[c].fd, j);
      EntriesStay(shards'[j], j, conns, c, y);
    }
    forall d | d in conns
      ensures Watched(shards', d, conns[c := y][d], timedOut)
      ensures d != c ==> Held(shards', d, conns[c := y][d], timedOut)
    {
      assert Watched(shards, d, conns[d], timedOut) && Held(shards, d, conns[d], timedOut);
      if d == c {
        ErasedIsDone(shards, shards', c, conns[c], timedOut);
      } else {
        MappedIsAll(shards, shards', d, conns[d], timedOut);
      }
    }
  }

  lemma CollectKeeps(shards: seq<Shard>, conns: map<ConnId, Conn>, timedOut: set<ConnId>, fds: map<nat, ConnId>, c: ConnId)
    requires Sound(shards, conns, timedOut) && FdsMatch(fds, conns)
    requires c in conns && !Held(shards, c, conns[c], timedOut)
    requires OthersHeld(shards, conns, timedOut, c)
    ensures Sound(shards, conns - {c}, timedOut) && AllHeld(shards, conns - {c}, timedOut)
    ensures FdsMatch(fds - {conns[c].fd}, conns - {c})
  {
    hide Watched;
    FdGoes(fds, conns, c);
    hide FdsMatch;
    forall i | 0 <= i < NUM_SHARDS
      ensures EntriesOwn(shards[i], i, conns - {c})
    {
      assert EntriesOwn(shards[i], i, conns);
    }
  }

  lemma FdGoes(fds: map<nat, ConnId>, conns: map<ConnId, Conn>, c: ConnId)
    requires FdsMatch(fds, conns) && c in conns
    ensures FdsMatch(fds - {conns[c].fd}, conns - {c})
  {
  }

  lemma FdComes(fds: map<nat, ConnId>, conns: map<ConnId, Conn>, c: ConnId, x: Conn)
    requires FdsMatch(fds, conns) && c !in conns && x.fd !in fds
    ensures FdsMatch(fds[x.fd := c], conns[c := x])
    ensures forall d | d in conns :: conns[d].fd != x.fd
  {
  }

  lemma SweepKeeps(shards: seq<Shard>, conns: map<ConnId, Conn>, timedOut: set<ConnId>,
                   i: nat, shard: Shard, timedOut': set<ConnId>)
    requires Sound(shards, conns, timedOut) && AllHeld(shards, conns, timedOut)
    requires i < NUM_SHARDS && shard.connections == shards[i].connections
    requires timedOut <= timedOut' && forall c | c in timedOut' - timedOut :: c in conns
    requires EntriesOwn(shard, i, conns)
    requires forall fd | fd in shard.connections :: SweptFor(shard, fd, conns, timedOut')
    ensures Sound(shards[i := shard], conns, timedOut') && AllHeld(shards[i := shard], conns, timedOut')
  {
    hide HasEvent;
    hide Deadline;
    var shards' := shards[i := shard];
    forall c | c in conns
      ensures Watched(shards', c, conns[c], timedOut') && Held(shards', c, conns[c], timedOut')
    {
      assert Watched(shards, c, conns[c], timedOut) && Held(shards, c, conns[c], timedOut);
      if !conns[c].closed && ShardIdx(conns[c].fd) == i {
        assert SweptFor(shard, conns[c].fd, conns, timedOut');
      }
    }
    forall j | 0 <= j < NUM_SHARDS
      ensures EntriesOwn(shards'[j], j, conns)
    {
      assert EntriesOwn(shards[j], j, conns);
    }
  }

  lemma ReleasedOne(shards: seq<Shard>, d: ConnId, x: Conn, timedOut: set<ConnId>, c: ConnId)
    requires |shards| == NUM_SHARDS && Watched(shards, d, x, timedOut)
    requires d == c ==> x.closed
    ensures Watched(shards, d, x, timedOut - {c})
    ensures d != c && Held(shards, d, x, timedOut) ==> Held(shards, d, x, timedOut - {c})
  {
    hide HasEvent;
    hide Mapped;
  }

  lemma ReleaseKeeps(shards: seq<Shard>, conns: map<ConnId, Conn>, timedOut: set<ConnId>, c: ConnId)
    requires Sound(shards, conns, timedOut) && AllHeld(shards, conns, timedOut)
    requires c in timedOut && c in conns && conns[c].closed
    ensures Sound(shards, conns, timedOut - {c})
    ensures OthersHeld(shards, conns, timedOut - {c}, c)
  {
    hide HasEvent;
    hide EntriesOwn;
    hide Mapped;
    hide Deadline;
    hide Watched;
    hide Held;
    forall d | d in conns
      ensures Watched(shards, d, conns[d], timedOut - {c})
      ensures d != c ==> Held(shards, d, conns[d], timedOut - {c})
    {
      ReleasedOne(shards, d, conns[d], timedOut, c);
    }
  }

  // --- Steps of other threads -----------------------------------------------------------

  datatype Action =
    | Accept(fd: nat, made: int, stamped: int)
    | Retain(c: ConnId)
    | Drop(c: ConnId)
    | Touch(c: ConnId, at: int)
    | Exchange(c: ConnId)
    | Erase(c: ConnId)

  predicate Possible(conns: map<ConnId, Conn>, fds: map<nat, ConnId>, clock: int, a: Action) {
    match a
    case Accept(fd, made, stamped) => fd !in fds && clock <= made <= stamped
    case Retain(c) => c in conns
    case Drop(c) => c in conns && conns[c].refs > 0
    case Touch(c, at) => c in conns && clock <= at
    case Exchange(c) => c in conns
    case Erase(c) => c in conns && conns[c].closer == Worker
  }

  /** c, if it still exists, is now y; no other connection is changed, made or destroyed. */
  predicate BecomesOrGoes(conns: map<ConnId, Conn>, conns': map<ConnId, Conn>, c: ConnId, y: Conn) {
    conns' - {c} == conns - {c} && (c in conns' ==> conns'[c] == y)
  }

  /** What a possible step does to the connections and the clock. */
  predicate Effect(conns: map<ConnId, Conn>, clock: int, nextId: ConnId, a: Action, conns': map<ConnId, Conn>, clock': int) {
    match a
    case Accept(fd, made, stamped) =>
      conns' == conns[nextId := Conn(fd, made, stamped, false, 1, Nobody)] && clock' == stamped
    case Retain(c) =>
      c in conns && conns' == conns[c := conns[c].(refs := conns[c].refs + 1)] && clock' == clock
    case Drop(c) =>
      && c in conns && conns[c].refs > 0 && clock' == clock
      && BecomesOrGoes(conns, conns', c, conns[c].(refs := conns[c].refs - 1))
    case Touch(c, at) =>
      c in conns && conns' == conns[c := conns[c].(lastActivity := at)] && clock' == at
    case Exchange(c) =>
      && c in conns && clock' == clock
      && conns' == if conns[c].closed then conns else conns[c := conns[c].(closed := true, closer := Worker)]
    case Erase(c) =>
      && c in conns && clock' == clock
      && BecomesOrGoes(conns, conns', c, conns[c].(closer := Nobody))
  }

  /** A connection that outlives a stretch of time keeps its descriptor, never becomes
      younger, and is not reopened; one made meanwhile is no older than the stretch. */
  ghost predicate Later(conns: map<ConnId, Conn>, clock: int, nextId: ConnId,
                        conns': map<ConnId, Conn>, clock': int, nextId': ConnId)
  {
    && clock <= clock' && nextId <= nextId'
    && (forall c | c in conns' && c < nextId ::
          && c in conns && conns'[c].fd == conns[c].fd && conns'[c].stamp == conns[c].stamp
          && conns[c].lastActivity <= conns'[c].lastActivity
          && (conns[c].closed ==> conns'[c].closed))
    && (forall c | c in conns' && nextId <= c :: clock <= conns'[c].lastActivity && clock <= conns'[c].stamp)
  }

  lemma LaterTrans(conns: map<ConnId, Conn>, clock: int, nextId: ConnId,
                   conns': map<ConnId, Conn>, clock': int, nextId': ConnId,
                   conns'': map<ConnId, Conn>, clock'': int, nextId'': ConnId)
    requires Later(conns, clock, nextId, conns', clock', nextId')
    requires Later(conns', clock', nextId', conns'', clock'', nextId'')
    ensures Later(conns, clock, nextId, conns'', clock'', nextId'')
  {
  }

  /** No open connection of shard `i` outside `timedOut` is due at `now`. */
  ghost predicate Cleared(conns: map<ConnId, Conn>, timedOut: set<ConnId>, i: nat, now: int) {
    forall c | c in conns && !conns[c].closed && ShardIdx(conns[c].fd) == i :: c in timedOut || Deadline(conns[c]) > now
  }

  /** Whatever happens in the meantime, a shard that was cleared stays so: new connections
      and new activity only move deadlines back. */
  lemma ClearedStays(conns: map<ConnId, Conn>, clock: int, nextId: ConnId,
                     conns': map<ConnId, Conn>, clock': int, nextId': ConnId,
                     timedOut: set<ConnId>, i: nat, now: int)
    requires Later(conns, clock, nextId, conns', clock', nextId') && now <= clock
    requires Cleared(conns, timedOut, i, now)
    ensures Cleared(conns', timedOut, i, now)
  {
  }

  /** An open connection that no step of `acts` sets out to close is open afterwards. */
  ghost predicate SpareOpen(conns: map<ConnId, Conn>, conns': map<ConnId, Conn>, acts: seq<Action>) {
    forall c | c in conns && !conns[c].closed && Exchange(c) !in acts :: c in conns' && !conns'[c].closed
  }

  /** Only the sweeper finishes what the sweeper has begun. */
  ghost predicate SweeperStillErases(conns: map<ConnId, Conn>, conns': map<ConnId, Conn>) {
    forall c | c in conns && conns[c].closer == Sweeper :: c in conns' && conns'[c].closer == Sweeper
  }

  lemma ReplacedOne(conns: map<ConnId, Conn>, clock: int, nextId: ConnId, c: ConnId, y: Conn, clock': int, a: Action)
    requires c in conns && c < nextId && clock <= clock'
    requires var x := conns[c];
      && y.fd == x.fd && y.stamp == x.stamp && x.lastActivity <= y.lastActivity
      && (x.closed ==> y.closed) && (a != Exchange(c) ==> y.closed == x.closed)
      && (x.closer == Sweeper ==> y.closer == Sweeper)
    requires forall d | d in conns :: d < nextId
    ensures Later(conns, clock, nextId, conns[c := y], clock', nextId)
    ensures SpareOpen(conns, conns[c := y], [a])
    ensures SweeperStillErases(conns, conns[c := y])
  {
  }

  lemma RemovedOne(conns: map<ConnId, Conn>, clock: int, nextId: ConnId, c: ConnId, a: Action)
    requires c in conns && conns[c].closed && conns[c].closer != Sweeper
    requires forall d | d in conns :: d < nextId
    ensures Later(conns, clock, nextId, conns - {c}, clock, nextId)
    ensures SpareOpen(conns, conns - {c}, [a])
    ensures SweeperStillErases(conns, conns - {c})
  {
  }

  lemma AddedOne(conns: map<ConnId, Conn>, clock: int, nextId: ConnId, y: Conn, clock': int, a: Action)
    requires clock <= clock' && clock <= y.lastActivity && clock <= y.stamp
    requires forall d | d in conns :: d < nextId
    ensures Later(conns, clock, nextId, conns[nextId := y], clock', nextId + 1)
    ensures SpareOpen(conns, conns[nextId := y], [a])
    ensures SweeperStillErases(conns, conns[nextId := y])
  {
  }

  lemma UnchangedConns(conns: map<ConnId, Conn>, clock: int, nextId: ConnId, a: Action)
    requires forall d | d in conns :: d < nextId
    ensures Later(conns, clock, nextId, conns, clock, nextId)
    ensures SpareOpen(conns, conns, [a])
    ensures SweeperStillErases(conns, conns)
  {
  }

  /** The same over the whole sweep, for connections outside `except`. */
  ghost predicate Spares(conns: map<ConnId, Conn>, conns': map<ConnId, Conn>, except: set<ConnId>,
                         others: nat -> seq<Action>)
  {
    forall c | c in conns && !conns[c].closed && c !in except && (forall k :: Exchange(c) !in others(k)) ::
      c in conns' && !conns'[c].closed
  }

  ghost predicate AllCleared(conns: map<ConnId, Conn>, timedOut: set<ConnId>, now: int) {
    forall c | c in conns && !conns[c].closed :: c in timedOut || Deadline(conns[c]) > now
  }

  lemma SweptIsCleared(shards: seq<Shard>, conns: map<ConnId, Conn>, timedOut: set<ConnId>, i: nat, now: int)
    requires Sound(shards, conns, timedOut) && i < NUM_SHARDS
    requires forall k | 0 <= k < |shards[i].heap| :: shards[i].heap[k].expiresAt > now
    ensures Cleared(conns, timedOut, i, now)
  {
    forall c | c in conns && !conns[c].closed && ShardIdx(conns[c].fd) == i && c !in timedOut
      ensures Deadline(conns[c]) > now
    {
      assert Watched(shards, c, conns[c], timedOut);
    }
  }

  class ConnTable {
    var shards: seq<Shard>
    /** The Connection objects that exist. */
    var conns: map<ConnId, Conn>
    /** The descriptors that are open, with their owners. */
    var fds: map<nat, ConnId>
    /** The sweeper's list. */
    var timedOut: set<ConnId>
    var clock: int
    var nextId: ConnId

    ghost predicate Valid()
      reads this
    {
      && Sound(shards, conns, timedOut) && AllHeld(shards, conns, timedOut) && FdsMatch(fds, conns)
      && (forall c | c in conns :: c < nextId && conns[c].lastActivity <= clock)
      && (forall c | c in timedOut :: c in conns)
    }

    constructor ()
      ensures Valid() && conns == map[] && fds == map[] && timedOut == {}
    {
      shards := seq(NUM_SHARDS, _ => Shard(map[], []));
      conns, fds, timedOut, clock, nextId := map[], map[], {}, 0, 0;
    }

    /** One turn of accept_loop. The kernel hands out a descriptor nobody has open; then the
        assignment in the shard's map never replaces an entry. */
    method AcceptOne(fd: nat, made: int, stamped: int) returns (c: ConnId)
      requires Valid() && fd !in fds && clock <= made <= stamped
      modifies this
      ensures Valid()
      ensures fd !in old(shards[ShardIdx(fd)].connections)
      ensures c == old(nextId) && c !in old(conns) && nextId == c + 1 && clock == stamped
      ensures conns == old(conns)[c := Conn(fd, made, stamped, false, 1, Nobody)]
      ensures fds == old(fds)[fd := c] && timedOut == old(timedOut)
      ensures shards == old(shards)[ShardIdx(fd) := Shard(old(shards[ShardIdx(fd)].connections)[fd := c],
                old(shards[ShardIdx(fd)].heap) + [TimerEvent(stamped + CONNECTION_TIMEOUT_SEC, fd)])]
    {
      hide HasEvent;
      hide EntriesOwn;
      hide Watched;
      c := nextId;
      nextId := nextId + 1;
      ghost var before, conns0, fds0 := shards, conns, fds;
      var i := ShardIdx(fd);
      var e := TimerEvent(stamped + CONNECTION_TIMEOUT_SEC, fd);
      conns := conns[c := Conn(fd, made, stamped, false, 1, Nobody)];
      fds := fds[fd := c];
      shards := shards[i := Shard(shards[i].connections[fd := c], shards[i].heap + [e])];
      clock := stamped;
      AcceptKeeps(before, conns0, timedOut, fds0, c, conns[c], e);
    }

    /** A shared pointer is copied: taken from the table, from a list or from another copy. */
    method RetainOne(c: ConnId)
      requires Valid() && c in conns
      modifies `conns
      ensures Valid()
      ensures conns == old(conns)[c := old(conns[c]).(refs := old(conns[c].refs) + 1)]
    {
      hide HasEvent;
      hide EntriesOwn;
      hide FdsMatch;
      hide Mapped;
      var y := conns[c].(refs := conns[c].refs + 1);
      assert Watched(shards, c, conns[c], timedOut);
      UpdateKeeps(shards, conns, timedOut, fds, c, y);
      conns := conns[c := y];
    }

    /** ~Socket runs when the last pointer to a Connection goes: its descriptor is closed. */
    method Collect(c: ConnId)
      requires Sound(shards, conns, timedOut) && FdsMatch(fds, conns) && c in conns
      requires OthersHeld(shards, conns, timedOut, c)
      requires forall d | d in conns :: d < nextId && conns[d].lastActivity <= clock
      requires forall d | d in timedOut :: d in conns
      modifies `conns, `fds
      ensures Valid()
      ensures old(Held(shards, c, conns[c], timedOut)) ==> conns == old(conns) && fds == old(fds)
      ensures !old(Held(shards, c, conns[c], timedOut)) ==>
                conns == old(conns) - {c} && fds == old(fds) - {old(conns[c].fd)}
    {
      if !Held(shards, c, conns[c], timedOut) {
        CollectKeeps(shards, conns, timedOut, fds, c);
        fds := fds - {conns[c].fd};
        conns := conns - {c};
      }
    }

    method DropOne(c: ConnId)
      requires Valid() && c in conns && conns[c].refs > 0
      modifies `conns, `fds
      ensures Valid()
      ensures var y := old(conns[c]).(refs := old(conns[c].refs) - 1);
              if Held(shards, c, y, timedOut) then conns == old(conns)[c := y] && fds == old(fds)
              else conns == old(conns) - {c} && fds == old(fds) - {y.fd}
      ensures c !in conns ==> old(conns[c].closed) && old(conns[c].closer) == Nobody
    {
      hide HasEvent;
      hide EntriesOwn;
      hide FdsMatch;
      hide Mapped;
      ghost var before := conns;
      var y := conns[c].(refs := conns[c].refs - 1);
      assert Watched(shards, c, conns[c], timedOut);
      UpdateKeeps(shards, conns, timedOut, fds, c, y);
      conns := conns[c := y];
      Collect(c);
      assert before[c := y] - {c} == before - {c};
    }

    /** update_activity: the clock never runs backwards. */
    method TouchOne(c: ConnId, at: int)
      requires Valid() && c in conns && clock <= at
      modifies `conns, `clock
      ensures Valid()
      ensures clock == at && conns == old(conns)[c := old(conns[c]).(lastActivity := at)]
    {
      hide HasEvent;
      hide EntriesOwn;
      hide FdsMatch;
      hide Mapped;
      var y := conns[c].(lastActivity := at);
      assert Watched(shards, c, conns[c], timedOut) && Held(shards, c, conns[c], timedOut);
      if !y.closed && c !in timedOut {
        EventStillInTime(shards[ShardIdx(y.fd)].heap, y.fd, Deadline(conns[c]), Deadline(y));
      }
      UpdateKeeps(shards, conns, timedOut, fds, c, y);
      conns, clock := conns[c := y], at;
    }

    /** The head of close_conn: only the first closer goes on. */
    method ExchangeOne(c: ConnId, caller: Closer) returns (first: bool)
      requires Valid() && c in conns && caller != Nobody
      modifies `conns
      ensures Valid()
      ensures first == !old(conns[c].closed) && (first ==> old(conns[c].closer) == Nobody)
      ensures conns == if first then old(conns)[c := old(conns[c]).(closed := true, closer := caller)] else old(conns)
    {
      hide HasEvent;
      hide EntriesOwn;
      hide FdsMatch;
      hide Mapped;
      first := !conns[c].closed;
      if first {
        var y := conns[c].(closed := true, closer := caller);
        assert Watched(shards, c, conns[c], timedOut);
        UpdateKeeps(shards, conns, timedOut, fds, c, y);
        conns := conns[c := y];
      }
    }

    /** The rest of close_conn. It erases by descriptor, yet what it removes is the entry of
        the connection being closed and of no other, and that entry is still there. */
    method EraseOne(c: ConnId)
      requires Valid() && c in conns && conns[c].closer != Nobody
      modifies `shards, `conns, `fds
      ensures Valid()
      ensures old(conns[c].closed)
      ensures !Mapped(shards, c, old(conns[c].fd))
      ensures forall d, fd | d != c :: Mapped(shards, d, fd) == old(Mapped(shards, d, fd))
      ensures var y := old(conns[c]).(closer := Nobody);
              if y.refs > 0 || c in timedOut then conns == old(conns)[c := y] && fds == old(fds)
              else conns == old(conns) - {c} && fds == old(fds) - {y.fd}
    {
      hide HasEvent;
      hide EntriesOwn;
      hide FdsMatch;
      ghost var before := conns;
      var y := conns[c].(closer := Nobody);
      assert Watched(shards, c, conns[c], timedOut);
      var i := ShardIdx(y.fd);
      var shards' := shards[i := shards[i].(connections := shards[i].connections - {y.fd})];
      EraseKeeps(shards, conns, timedOut, fds, c);
      EraseUnmapsOne(shards, conns, timedOut, fds, c);
      shards := shards';
      conns := conns[c := y];
      Collect(c);
      assert before[c := y] - {c} == before - {c};
    }

    /** A step of another thread; one that is not possible now does nothing. */
    method Perform(a: Action)
      requires Valid()
      modifies this
      ensures Valid() && timedOut == old(timedOut)
      ensures Later(old(conns), old(clock), old(nextId), conns, clock, nextId)
      ensures SpareOpen(old(conns), conns, [a])
      ensures SweeperStillErases(old(conns), conns)
      ensures if old(Possible(conns, fds, clock, a)) then Effect(old(conns), old(clock), old(nextId), a, conns, clock)
        else conns == old(conns) && clock == old(clock)
    {
      hide Sound;
      hide AllHeld;
      hide FdsMatch;
      hide Held;
      hide Mapped;
      hide Later;
      hide SpareOpen;
      hide SweeperStillErases;
      UnchangedConns(conns, clock, nextId, a);
      match a
      case Accept(fd, made, stamped) =>
        if fd !in fds && clock <= made <= stamped {
          AddedOne(conns, clock, nextId, Conn(fd, made, stamped, false, 1, Nobody), stamped, a);
          var _ := AcceptOne(fd, made, stamped);
        }
      case Retain(c) =>
        if c in conns {
          ReplacedOne(conns, clock, nextId, c, conns[c].(refs := conns[c].refs + 1), clock, a);
          RetainOne(c);
        }
      case Drop(c) =>
        if c in conns && conns[c].refs > 0 {
          ReplacedOne(conns, clock, nextId, c, conns[c].(refs := conns[c].refs - 1), clock, a);
          DropOne(c);
          if c !in conns {
            RemovedOne(old(conns), clock, nextId, c, a);
          }
        }
      case Touch(c, at) =>
        if c in conns && clock <= at {
          ReplacedOne(conns, clock, nextId, c, conns[c].(lastActivity := at), at, a);
          TouchOne(c, at);
        }
      case Exchange(c) =>
        if c in conns {
          ghost var y := conns[c].(closed := true, closer := Worker);
          if conns[c].closer != Sweeper {
            ReplacedOne(conns, clock, nextId, c, y, clock, a);
          }
          var _ := ExchangeOne(c, Worker);
        }
      case Erase(c) =>
        if c in conns && conns[c].closer == Worker {
          ReplacedOne(conns, clock, nextId, c, conns[c].(closer := Nobody), clock, a);
          EraseOne(c);
          if c !in conns {
            RemovedOne(old(conns), clock, nextId, c, a);
          }
        }
    }

    method RunActions(acts: seq<Action>)
      requires Valid()
      modifies this
      ensures Valid() && timedOut == old(timedOut)
      ensures Later(old(conns), old(clock), old(nextId), conns, clock, nextId)
      ensures SpareOpen(old(conns), conns, acts)
      ensures SweeperStillErases(old(conns), conns)
    {
      hide Sound;
      hide AllHeld;
      hide FdsMatch;
      for k := 0 to |acts|
        invariant Valid() && timedOut == old(timedOut)
        invariant Later(old(conns), old(clock), old(nextId), conns, clock, nextId)
        invariant SpareOpen(old(conns), conns, acts)
        invariant SweeperStillErases(old(conns), conns)
      {
        ghost var conns0, clock0, nextId0 := conns, clock, nextId;
        Perform(acts[k]);
        LaterTrans(old(conns), old(clock), old(nextId), conns0, clock0, nextId0, conns, clock, nextId);
      }
    }

    // --- check_timeouts ------------------------------------------------------------------

    /** The critical section of check_timeouts for one shard. */
    method SweepOne(i: nat, now: int)
      requires Valid() && i < NUM_SHARDS
      modifies `shards, `timedOut
      ensures Valid()
      ensures old(timedOut) <= timedOut && Expired(conns, timedOut - old(timedOut), now)
      ensures Cleared(conns, timedOut, i, now)
    {
      assert EntriesOwn(shards[i], i, conns);
      forall fd | fd in shards[i].connections
        ensures SweptFor(shards[i], fd, conns, timedOut)
      {
        assert Watched(shards, shards[i].connections[fd], conns[shards[i].connections[fd]], timedOut);
      }
      var shard, held := SweepShard(shards[i], conns, i, now, timedOut);
      SweepKeeps(shards, conns, timedOut, i, shard, held);
      shards, timedOut := shards[i := shard], held;
      SweptIsCleared(shards, conns, timedOut, i, now);
    }

    /** All sixteen, with steps of other threads in between. */
    method SweepAll(others: nat -> seq<Action>)
      requires Valid() && timedOut == {}
      modifies this
      ensures Valid()
      ensures Later(old(conns), old(clock), old(nextId), conns, clock, nextId)
      ensures forall i | 0 <= i < NUM_SHARDS :: Cleared(conns, timedOut, i, old(clock))
      ensures Expired(old(conns), timedOut, old(clock))
      ensures Spares(old(conns), conns, {}, others)
    {
      hide Sound;
      hide AllHeld;
      hide FdsMatch;
      var now := clock;
      for i := 0 to NUM_SHARDS
        invariant Valid()
        invariant Later(old(conns), now, old(nextId), conns, clock, nextId)
        invariant forall j | 0 <= j < i :: Cleared(conns, timedOut, j, now)
        invariant Expired(old(conns), timedOut, now)
        invariant Spares(old(conns), conns, {}, others)
      {
        ghost var held := timedOut;
        SweepOne(i, now);
        forall j | 0 <= j < i
          ensures Cleared(conns, timedOut, j, now)
        {
          assert Cleared(conns, held, j, now);
        }
        assert Expired(old(conns), timedOut, now);
        ghost var conns0, clock0, nextId0 := conns, clock, nextId;
        RunActions(others(i));
        LaterTrans(old(conns), now, old(nextId), conns0, clock0, nextId0, conns, clock, nextId);
        forall j | 0 <= j <= i
          ensures Cleared(conns, timedOut, j, now)
        {
          ClearedStays(conns0, clock0, nextId0, conns, clock, nextId, timedOut, j, now);
        }
      }
    }

    /** The loop over timed_out: close_conn for each, again with others in between. */
    method CloseAll(now: int, others: nat -> seq<Action>, start: nat)
      requires Valid() && now <= clock
      requires forall c | c in conns && !conns[c].closed :: c in timedOut || Deadline(conns[c]) > now
      modifies this
      ensures Valid() && timedOut == old(timedOut)
      ensures Later(old(conns), old(clock), old(nextId), conns, clock, nextId)
      ensures forall c | c in timedOut :: c in conns && conns[c].closed
      ensures AllCleared(conns, {}, now)
      ensures Spares(old(conns), conns, timedOut, others)
    {
      hide Sound;
      hide AllHeld;
      hide FdsMatch;
      var todo, k := timedOut, start;
      while todo != {}
        invariant Valid() && timedOut == old(timedOut) && todo <= timedOut
        invariant Later(old(conns), old(clock), old(nextId), conns, clock, nextId)
        invariant forall c | c in timedOut - todo :: c in conns && conns[c].closed
        invariant AllCleared(conns, todo, now)
        invariant Spares(old(conns), conns, timedOut, others)
      {
        var c :| c in todo;
        ghost var conns0, clock0, nextId0 := conns, clock, nextId;
        CloseTimedOut(c, others(k));
        LaterTrans(old(conns), old(clock), old(nextId), conns0, clock0, nextId0, conns, clock, nextId);
        todo, k := todo - {c}, k + 1;
      }
    }

    /** close_conn by the sweeper; other threads may step between its exchange and its erase. */
    method CloseTimedOut(c: ConnId, others: seq<Action>)
      requires Valid() && c in timedOut && c in conns
      modifies this
      ensures Valid() && timedOut == old(timedOut)
      ensures Later(old(conns), old(clock), old(nextId), conns, clock, nextId)
      ensures c in conns && conns[c].closed
      ensures forall d | d in conns && d in old(conns) && old(conns[d].closed) :: conns[d].closed
      ensures forall d | d in old(conns) && d != c && !old(conns[d].closed) && Exchange(d) !in others ::
                d in conns && !conns[d].closed
    {
      hide Sound;
      hide AllHeld;
      hide FdsMatch;
      var first := ExchangeOne(c, Sweeper);
      ghost var conns0, clock0, nextId0 := conns, clock, nextId;
      RunActions(others);
      if first {
        EraseOne(c);
      }
    }

    /** The vector goes out of scope: its pointers are dropped, and connections nobody else
        holds are destroyed. Only closed ones are. */
    method ReleaseAll()
      requires Valid()
      requires forall c | c in timedOut :: conns[c].closed
      modifies `conns, `fds, `timedOut
      ensures Valid() && timedOut == {}
      ensures forall c | c in conns :: c in old(conns) && conns[c] == old(conns[c])
      ensures forall c | c in old(conns) && !old(conns[c].closed) :: c in conns
    {
      hide Sound;
      hide AllHeld;
      hide FdsMatch;
      while timedOut != {}
        invariant Valid() && timedOut <= old(timedOut)
        invariant forall c | c in timedOut :: conns[c].closed
        invariant forall c | c in conns :: c in old(conns) && conns[c] == old(conns[c])
        invariant forall c | c in old(conns) && !old(conns[c].closed) :: c in conns
        decreases timedOut
      {
        var c :| c in timedOut;
        ReleaseKeeps(shards, conns, timedOut, c);
        timedOut := timedOut - {c};
        Collect(c);
      }
    }

    /** The idle sweep, whatever other threads do meanwhile. Afterwards no open connection is
        due; the sweep chose only connections idle for the full timeout when it began, has
        closed all of those, and has closed no other. */
    method CheckTimeouts(others: nat -> seq<Action>) returns (timed: set<ConnId>)
      requires Valid() && timedOut == {}
      modifies this
      ensures Valid() && timedOut == {}
      ensures forall c | c in conns && !conns[c].closed :: Deadline(conns[c]) > old(clock)
      ensures forall c | c in timed :: c in old(conns) && old(conns[c].lastActivity) + CONNECTION_TIMEOUT_SEC <= old(clock)
      ensures forall c | c in timed && c in conns :: conns[c].closed
      ensures Spares(old(conns), conns, timed, others)
    {
      hide Sound;
      hide AllHeld;
      hide FdsMatch;
      var now := clock;
      SweepAll(others);
      timed := timedOut;
      ghost var swept := conns;
      assert AllCleared(conns, timed, now) by {
        forall c | c in conns && !conns[c].closed
          ensures c in timed || Deadline(conns[c]) > now
        {
          assert Cleared(conns, timedOut, ShardIdx(conns[c].fd), now);
        }
      }
      CloseAll(now, others, NUM_SHARDS);
      ReleaseAll();
    }
  }
}
