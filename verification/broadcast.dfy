/** process_global_queue of v4/webserver.cpp: one task per shard, each walking the open
    connections of its shard. The tasks run one after the other here; every step inside
    them is one critical section of a connection. */
module Broadcasts {
  import opened Connections
  import opened Outgoing

  const NUM_SHARDS := 16

  function ShardIdx(fd: nat): nat { fd % NUM_SHARDS }

  ghost predicate InPlace(shard: map<nat, Connection>, i: nat) {
    forall fd <- shard :: shard[fd].fd == fd && ShardIdx(fd) == i
  }

  /** Connections sit in the shard and under the key that their fd names. */
  ghost predicate Sharded(shards: seq<map<nat, Connection>>) {
    && |shards| == NUM_SHARDS
    && forall i | 0 <= i < NUM_SHARDS :: InPlace(shards[i], i)
  }

  ghost function Members(shard: map<nat, Connection>): set<Connection> {
    set fd | fd in shard :: shard[fd]
  }

  ghost function AllMembers(shards: seq<map<nat, Connection>>): set<Connection> {
    set i, fd | 0 <= i < |shards| && fd in shards[i] :: shards[i][fd]
  }

  /** The shards partition the connections: a connection is reached through one entry only. */
  lemma EntryIsUnique(shards: seq<map<nat, Connection>>, i: nat, fd: nat, j: nat, fd': nat)
    requires Sharded(shards)
    requires i < NUM_SHARDS && fd in shards[i] && j < NUM_SHARDS && fd' in shards[j]
    requires shards[i][fd] == shards[j][fd']
    ensures i == j && fd == fd'
  {
    assert InPlace(shards[i], i) && InPlace(shards[j], j);
  }

  lemma MembersOfShard(shards: seq<map<nat, Connection>>, i: nat)
    requires Sharded(shards) && i < NUM_SHARDS
    ensures Members(shards[i]) <= AllMembers(shards)
    ensures forall conn <- AllMembers(shards) :: conn in Members(shards[i]) <==> ShardIdx(conn.fd) == i
    ensures forall conn <- AllMembers(shards) | ShardIdx(conn.fd) == i :: exists fd :: fd in shards[i] && shards[i][fd] == conn
  {
    forall conn <- AllMembers(shards)
      ensures conn in Members(shards[i]) <==> ShardIdx(conn.fd) == i
    {
      var j, fd :| 0 <= j < NUM_SHARDS && fd in shards[j] && shards[j][fd] == conn;
      assert InPlace(shards[j], j) && InPlace(shards[i], i);
    }
  }

  /** The effect of one batch on one connection, from the earlier state to this one. */
  twostate predicate Delivered(conn: Connection, events: seq<BroadcastEvent>)
    reads conn
  {
    && conn.closed == old(conn.closed)
    && old(conn.wire) <= conn.wire
    && conn.enqueued == old(conn.enqueued) +
         if conn.closed then [] else Accepted(events, conn.fd, |old(conn.outgoingQueue)|)
  }

  twostate predicate Untouched(conn: Connection)
    reads conn
  {
    && conn.closed == old(conn.closed)
    && conn.wire == old(conn.wire)
    && conn.enqueued == old(conn.enqueued)
    && conn.outgoingQueue == old(conn.outgoingQueue)
  }

  /** One connection of a shard task; the others are untouched. */
  method DeliverTo(shard: map<nat, Connection>, fd: nat, events: seq<BroadcastEvent>)
    requires fd in shard
    requires forall f <- shard :: shard[f].fd == f && shard[f].Released()
    modifies shard[fd]
    ensures forall f <- shard :: shard[f].Released()
    ensures forall f <- shard.Keys - {fd} :: Untouched(shard[f])
    ensures Delivered(shard[fd], events)
  {
    hide Accepted;
    hide Connection.Valid;
    hide Connection.Watched;
    BroadcastTo(shard[fd], events);
    forall f <- shard.Keys - {fd}
      ensures shard[f] != shard[fd] && shard[f].Released()
    {
      assert old(shard[f].Released());
    }
  }

  /** The task of one shard. */
  method ShardTask(shard: map<nat, Connection>, events: seq<BroadcastEvent>)
    requires forall fd <- shard :: shard[fd].fd == fd && shard[fd].Released()
    modifies Members(shard)
    ensures forall fd <- shard :: shard[fd].Released() && Delivered(shard[fd], events)
  {
    hide Accepted;
    hide Connection.Valid;
    hide Connection.Watched;
    var todo := shard.Keys;
    while todo != {}
      invariant todo <= shard.Keys
      invariant forall fd <- shard :: shard[fd].Released()
      invariant forall fd <- todo :: Untouched(shard[fd])
      invariant forall fd <- shard.Keys - todo :: Delivered(shard[fd], events)
      decreases todo
    {
      var fd :| fd in todo;
      label before:
      DeliverTo(shard, fd, events);
      forall f <- shard.Keys - todo
        ensures Delivered(shard[f], events)
      {
        assert Untouched@before(shard[f]);
      }
      assert Delivered(shard[fd], events);
      todo := todo - {fd};
    }
  }

  /** process_global_queue: whatever was queued goes, once, to every open connection. */
  method ProcessGlobalQueue(shards: seq<map<nat, Connection>>, globalQueue: seq<BroadcastEvent>)
    returns (left: seq<BroadcastEvent>)
    requires Sharded(shards)
    requires forall conn <- AllMembers(shards) :: conn.Released()
    modifies AllMembers(shards)
    ensures left == []
    ensures forall conn <- AllMembers(shards) :: conn.Released() && Delivered(conn, globalQueue)
  {
    if globalQueue == [] {
      forall conn <- AllMembers(shards)
        ensures Delivered(conn, [])
      {
        assert Payloads([]) == [] && Accepted([], conn.fd, |conn.outgoingQueue|) == [];
      }
      return [];
    }
    var events := globalQueue;
    left := [];
    for i := 0 to NUM_SHARDS
      invariant forall conn <- AllMembers(shards) :: conn.Released()
      invariant forall conn <- AllMembers(shards) | ShardIdx(conn.fd) >= i :: unchanged(conn)
      invariant forall conn <- AllMembers(shards) | ShardIdx(conn.fd) < i :: Delivered(conn, events)
    {
      MembersOfShard(shards, i);
      label before:
      ShardTask(shards[i], events);
      forall conn <- AllMembers(shards) | conn !in Members(shards[i])
        ensures conn.Released()
      {
        assert old@before(conn.Released());
      }
    }
  }
}
