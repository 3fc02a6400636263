/** SafeQueue of v4/safe_queue.h (v3/safe_queue.h is the same file) as a monitor.

    A method of the class is one critical section, or one notify call, of one thread; the
    condition variable is the two sets of threads that sleep on it and that were woken but
    do not hold the lock yet. Threads may wake for no reason at any time. */
module SafeQueues {
  import opened Bytes

  type Tid = nat

  datatype State<T> = State(
    queue: seq<T>,
    finished: bool,
    sleeping: set<Tid>,
    woken: set<Tid>,
    /** Calls of push and of stop that have released the lock and not notified yet. */
    owedOne: nat,
    owedAll: nat,
    /** History: everything pushed and everything returned by pop. */
    pushed: seq<T>,
    popped: seq<T>)

  datatype Action<T> =
    | Push(item: T)
    | NotifyOne(chosen: Option<Tid>)
    | Attempt(c: Tid)
    | Spurious(c: Tid)
    | Stop
    | NotifyAll

  predicate Enabled<T>(st: State<T>, a: Action<T>) {
    match a
    case NotifyOne(chosen) =>
      st.owedOne > 0 && if chosen.Some? then chosen.value in st.sleeping else st.sleeping == {}
    case Attempt(c) => c !in st.sleeping
    case Spurious(c) => c in st.sleeping
    case NotifyAll => st.owedAll > 0
    case _ => true
  }

  /** A thread that holds the lock in pop checks the predicate: it takes an item, gives up,
      or goes to sleep. */
  function AfterAttempt<T>(st: State<T>, c: Tid): State<T> {
    if st.queue != [] then
      st.(queue := st.queue[1..], woken := st.woken - {c}, popped := st.popped + [st.queue[0]])
    else if st.finished then st.(woken := st.woken - {c})
    else st.(woken := st.woken - {c}, sleeping := st.sleeping + {c})
  }

  function Next<T>(st: State<T>, a: Action<T>): State<T> {
    match a
    case Push(item) =>
      st.(queue := st.queue + [item], owedOne := st.owedOne + 1, pushed := st.pushed + [item])
    case NotifyOne(chosen) =>
      var paid := st.(owedOne := if st.owedOne > 0 then st.owedOne - 1 else 0);
      if chosen.Some? then
        paid.(sleeping := st.sleeping - {chosen.value}, woken := st.woken + {chosen.value})
      else paid
    case Attempt(c) => AfterAttempt(st, c)
    case Spurious(c) => st.(sleeping := st.sleeping - {c}, woken := st.woken + {c})
    case Stop => st.(finished := true, owedAll := st.owedAll + 1)
    case NotifyAll =>
      st.(sleeping := {}, woken := st.woken + st.sleeping, owedAll := if st.owedAll > 0 then st.owedAll - 1 else 0)
  }

  ghost predicate Inv<T>(st: State<T>) {
    && st.sleeping !! st.woken
    // first in, first out, each item once, none lost
    && st.pushed == st.popped + st.queue
    // no lost wakeup
    && (st.sleeping != {} ==> |st.queue| <= |st.woken| + st.owedOne)
    && (st.sleeping != {} && st.finished ==> st.owedAll > 0)
  }

  function Initial<T>(): State<T> {
    State([], false, {}, {}, 0, 0, [], [])
  }

  lemma NextKeeps<T>(st: State<T>, a: Action<T>)
    requires Inv(st) && Enabled(st, a)
    ensures Inv(Next(st, a))
  {
    match a {
      case Push(item) =>
        Assoc(st.popped, st.queue, [item]);
      case NotifyOne(chosen) =>
        if chosen.Some? {
          assert |st.woken + {chosen.value}| == |st.woken| + 1;
        }
      case Attempt(c) =>
        if st.queue != [] {
          assert st.queue == [st.queue[0]] + st.queue[1..];
          Assoc(st.popped, [st.queue[0]], st.queue[1..]);
        }
        RemoveOne(st.woken, c);
      case Spurious(c) =>
        assert |st.woken + {c}| == |st.woken| + 1;
      case Stop =>
      case NotifyAll =>
    }
  }

  lemma RemoveOne(s: set<Tid>, c: Tid)
    ensures |s - {c}| >= |s| - 1
  {
    if c in s {
      assert s == (s - {c}) + {c};
    } else {
      assert s - {c} == s;
    }
  }

  predicate IsRun<T>(st: State<T>, actions: seq<Action<T>>)
    decreases |actions|
  {
    actions == [] || (Enabled(st, actions[0]) && IsRun(Next(st, actions[0]), actions[1..]))
  }

  function Run<T>(st: State<T>, actions: seq<Action<T>>): State<T>
    decreases |actions|
  {
    if actions == [] then st else Run(Next(st, actions[0]), actions[1..])
  }

  lemma {:induction false} RunKeeps<T>(st: State<T>, actions: seq<Action<T>>)
    requires Inv(st) && IsRun(st, actions)
    ensures Inv(Run(st, actions))
    decreases |actions|
  {
    if actions != [] {
      NextKeeps(st, actions[0]);
      RunKeeps(Next(st, actions[0]), actions[1..]);
    }
  }

  /** For any number of producers, consumers and stops, in any interleaving, with any
      spurious wakeups: items come out in the order they went in, each once; no item waits
      beside a sleeper unless a wakeup is on its way; and after stop no one sleeps for good. */
  lemma EveryRunIsSound<T>(actions: seq<Action<T>>)
    requires IsRun(Initial<T>(), actions)
    ensures var st := Run(Initial<T>(), actions);
            && st.pushed == st.popped + st.queue
            && (st.sleeping != {} ==> |st.queue| <= |st.woken| + st.owedOne)
            && (st.sleeping != {} && st.finished ==> st.owedAll > 0)
  {
    RunKeeps(Initial<T>(), actions);
  }

  /** When nothing more is under way, nobody sleeps beside an item, and nobody sleeps at all
      once the queue is stopped. */
  lemma QuietMeansEmpty<T>(st: State<T>)
    requires Inv(st) && st.owedOne == 0 && st.owedAll == 0 && st.woken == {} && st.sleeping != {}
    ensures st.queue == [] && !st.finished
  {
  }

  // --- What a run leaves, from its actions alone ------------------------------------------

  function PushedBy<T>(actions: seq<Action<T>>): seq<T> {
    if actions == [] then []
    else (if actions[0].Push? then [actions[0].item] else []) + PushedBy(actions[1..])
  }

  function Count<T>(actions: seq<Action<T>>, counts: Action<T> -> bool): nat {
    if actions == [] then 0 else (if counts(actions[0]) then 1 else 0) + Count(actions[1..], counts)
  }

  function Pushes<T>(actions: seq<Action<T>>): nat { Count(actions, (a: Action<T>) => a.Push?) }
  function NotifyOnes<T>(actions: seq<Action<T>>): nat { Count(actions, (a: Action<T>) => a.NotifyOne?) }
  function Stops<T>(actions: seq<Action<T>>): nat { Count(actions, (a: Action<T>) => a.Stop?) }
  function NotifyAlls<T>(actions: seq<Action<T>>): nat { Count(actions, (a: Action<T>) => a.NotifyAll?) }

  lemma {:induction false} RunLeaves<T>(st: State<T>, actions: seq<Action<T>>)
    requires IsRun(st, actions)
    ensures Run(st, actions).pushed == st.pushed + PushedBy(actions)
    ensures Run(st, actions).finished <==> st.finished || Action.Stop in actions
    ensures Run(st, actions).owedOne + NotifyOnes(actions) == st.owedOne + Pushes(actions)
    ensures Run(st, actions).owedAll + NotifyAlls(actions) == st.owedAll + Stops(actions)
    decreases |actions|
  {
    if actions == [] {
      assert st.pushed + [] == st.pushed;
    } else {
      var a, rest := actions[0], actions[1..];
      RunLeaves(Next(st, a), rest);
      Assoc(st.pushed, if a.Push? then [a.item] else [], PushedBy(rest));
      assert actions == [a] + rest;
      assert a.Push? || st.pushed + [] == st.pushed;
    }
  }

  /** What was pushed is what the push calls pushed, in order; the queue is stopped exactly if
      stop was called; a notify is owed for every push and every stop that has not made it. */
  lemma WhatARunLeaves<T>(actions: seq<Action<T>>)
    requires IsRun(Initial<T>(), actions)
    ensures var st := Run(Initial<T>(), actions);
            && st.pushed == PushedBy(actions)
            && (st.finished <==> Action.Stop in actions)
            && st.owedOne == Pushes(actions) - NotifyOnes(actions)
            && st.owedAll == Stops(actions) - NotifyAlls(actions)
  {
    RunLeaves(Initial<T>(), actions);
  }

  /** pop returns after a stop, whatever happens in between, and nobody stays asleep then. */
  lemma StoppedMeansAwake<T>(actions: seq<Action<T>>, c: Tid)
    requires IsRun(Initial<T>(), actions) && Action.Stop in actions
    ensures var st := Run(Initial<T>(), actions);
            && (Enabled(st, Attempt(c)) ==> c !in Next(st, Attempt(c)).sleeping)
            && (Stops(actions) == NotifyAlls(actions) ==> st.sleeping == {})
  {
    EveryRunIsSound(actions);
    WhatARunLeaves(actions);
  }

  /** A thread in pop's wait stays in it, asleep or woken, until it gets the lock itself. */
  lemma WaitersStay<T>(st: State<T>, a: Action<T>, c: Tid)
    requires Enabled(st, a) && c in st.sleeping + st.woken && a != Attempt(c)
    ensures c in Next(st, a).sleeping + Next(st, a).woken
    ensures a.NotifyAll? || a == Spurious(c) || a == NotifyOne(Some(c)) ==> c in Next(st, a).woken
  {
  }

  /** An attempt takes the oldest item if there is one, ends pop on a stopped empty queue, and
      otherwise waits. */
  lemma AttemptTakesTheOldest<T>(actions: seq<Action<T>>, c: Tid)
    requires IsRun(Initial<T>(), actions) && Enabled(Run(Initial<T>(), actions), Attempt(c))
    ensures var st := Run(Initial<T>(), actions);
            var st' := Next(st, Attempt(c));
            if |st.popped| < |PushedBy(actions)| then
              st'.popped == st.popped + [PushedBy(actions)[|st.popped|]] && c !in st'.sleeping + st'.woken
            else
              && st'.popped == st.popped
              && (c in st'.sleeping <==> Action.Stop !in actions) && c !in st'.woken
  {
    EveryRunIsSound(actions);
    WhatARunLeaves(actions);
    var st := Run(Initial<T>(), actions);
    if st.queue != [] {
      assert (st.popped + st.queue)[|st.popped|] == st.queue[0];
    }
  }

  // --- The class ------------------------------------------------------------------------

  datatype PopResult<+T> = Item(value: T) | Stopped | Asleep

  class SafeQueue<T> {
    var queue: seq<T>
    var finished: bool
    var sleeping: set<Tid>
    var woken: set<Tid>
    ghost var owedOne: nat
    ghost var owedAll: nat
    ghost var pushed: seq<T>
    ghost var popped: seq<T>

    ghost function Now(): State<T>
      reads this
    {
      State(queue, finished, sleeping, woken, owedOne, owedAll, pushed, popped)
    }

    constructor ()
      ensures Now() == Initial()
    {
      queue, finished, sleeping, woken := [], false, {}, {};
      owedOne, owedAll, pushed, popped := 0, 0, [], [];
    }

    /** push, up to the release of the lock. */
    method Push(item: T)
      modifies this
      ensures Now() == Next(old(Now()), Action.Push(item))
    {
      queue := queue + [item];
      pushed := pushed + [item];
      owedOne := owedOne + 1;
    }

    /** cv_.notify_one(): one sleeper, any one, if there is one. */
    method NotifyOne() returns (chosen: Option<Tid>)
      requires owedOne > 0
      modifies this
      ensures Enabled(old(Now()), Action.NotifyOne(chosen))
      ensures Now() == Next(old(Now()), Action.NotifyOne(chosen))
    {
      owedOne := owedOne - 1;
      chosen := None;
      if sleeping != {} {
        var c :| c in sleeping;
        sleeping := sleeping - {c};
        woken := woken + {c};
        chosen := Some(c);
      }
    }

    /** pop by thread c, from taking the lock to releasing it: on entry, or after waking. */
    method Attempt(c: Tid) returns (r: PopResult<T>)
      requires c !in sleeping
      modifies this
      ensures Now() == Next(old(Now()), Action.Attempt(c))
      ensures r.Item? <==> old(queue) != []
      ensures r.Item? ==> r.value == old(queue)[0] && popped == old(popped) + [r.value]
      // false comes back only from a stopped and empty queue
      ensures r.Stopped? <==> old(queue) == [] && finished
      ensures r.Asleep? <==> c in sleeping
    {
      woken := woken - {c};
      if !(queue != [] || finished) {
        sleeping := sleeping + {c};
        return Asleep;
      }
      if queue == [] && finished {
        return Stopped;
      }
      r := Item(queue[0]);
      popped := popped + [queue[0]];
      queue := queue[1..];
    }

    /** stop, up to the release of the lock. */
    method Stop()
      modifies this
      ensures Now() == Next(old(Now()), Action.Stop)
    {
      finished := true;
      owedAll := owedAll + 1;
    }

    /** cv_.notify_all(). */
    method NotifyAll()
      requires owedAll > 0
      modifies this
      ensures Now() == Next(old(Now()), Action.NotifyAll)
    {
      owedAll := owedAll - 1;
      woken := woken + sleeping;
      sleeping := {};
    }
  }
}
