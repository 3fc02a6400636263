/** The rate limiter of HandleMessage in v4/chatapp.h and of OnMessageRecv in v3/chatapp.h:
    a bucket of 60 tokens that gains one a second and loses one a message. */
module TokenBucket {

  const BURST := 60.0

  datatype Bucket = Bucket(tokens: real, lastRefill: real)

  function Fresh(now: real): Bucket { Bucket(BURST, now) }

  function Refill(b: Bucket, now: real): Bucket {
    var tokens := b.tokens + (now - b.lastRefill);
    Bucket(if tokens > BURST then BURST else tokens, now)
  }

  /** Whether a message at `now` passes, and the bucket afterwards. */
  function Charge(b: Bucket, now: real): (bool, Bucket) {
    var r := Refill(b, now);
    if r.tokens < 1.0 then (false, r) else (true, r.(tokens := r.tokens - 1.0))
  }

  /** Messages at `times`, one after the other; the bucket is closed at the first rejection. */
  predicate AllAccepted(b: Bucket, times: seq<real>)
    decreases |times|
  {
    times == [] || (var (ok, b') := Charge(b, times[0]); ok && AllAccepted(b', times[1..]))
  }

  function After(b: Bucket, times: seq<real>): Bucket
    decreases |times|
  {
    if times == [] then b else After(Charge(b, times[0]).1, times[1..])
  }

  /** Time does not run backwards, from the session's start on. */
  predicate Chronological(start: real, times: seq<real>) {
    && (times != [] ==> start <= times[0])
    && (forall i, j | 0 <= i <= j < |times| :: times[i] <= times[j])
  }

  /** Messages i to k are more than 60 plus the seconds they span. */
  predicate TooMany(times: seq<real>, i: nat, k: nat)
    requires i <= k < |times|
  {
    (k - i + 1) as real > BURST + (times[k] - times[i])
  }

  predicate BurstAt(times: seq<real>, k: nat)
    requires k < |times|
  {
    exists i: nat | i <= k :: TooMany(times, i, k)
  }

  lemma {:induction false} ChargeSnoc(b: Bucket, times: seq<real>, t: real)
    ensures After(b, times + [t]) == Charge(After(b, times), t).1
    ensures AllAccepted(b, times + [t]) == (AllAccepted(b, times) && Charge(After(b, times), t).0)
    decreases |times|
  {
    if times == [] {
      assert times + [t] == [t];
      assert [t][1..] == [];
    } else {
      assert (times + [t])[1..] == times[1..] + [t];
      ChargeSnoc(Charge(b, times[0]).1, times[1..], t);
    }
  }

  /** What is left after message n - 1 if the bucket was last full at message i. */
  function Slack(times: seq<real>, i: nat, n: nat): real
    requires i < n <= |times|
  {
    BURST - (n - i) as real + (times[n - 1] - times[i])
  }

  /** The level after n accepted messages is the least of the slacks. */
  predicate IsLevel(times: seq<real>, n: nat, level: real)
    requires 0 < n <= |times|
  {
    && (forall i: nat | i < n :: level <= Slack(times, i, n))
    && (exists i: nat | i < n :: level == Slack(times, i, n))
  }

  lemma LevelStep(times: seq<real>, n: nat, level: real, b: Bucket)
    requires 0 < n < |times| && IsLevel(times, n, level) && b == Bucket(level, times[n - 1])
    ensures Charge(b, times[n]).0 <==> !BurstAt(times, n)
    ensures Charge(b, times[n]).0 ==> IsLevel(times, n + 1, Charge(b, times[n]).1.tokens)
  {
    var gain := times[n] - times[n - 1];
    forall i: nat | i < n
      ensures Slack(times, i, n + 1) == Slack(times, i, n) + gain - 1.0
      ensures TooMany(times, i, n) <==> Slack(times, i, n) + gain < 1.0
    {
    }
    assert Slack(times, n, n + 1) == BURST - 1.0;
    assert !TooMany(times, n, n);
    var least: nat :| least < n && level == Slack(times, least, n);
    assert Slack(times, least, n + 1) == level + gain - 1.0;
    assert TooMany(times, least, n) <==> level + gain < 1.0;
    var tokens, m := Charge(b, times[n]).1.tokens, n + 1;
    if Charge(b, times[n]).0 {
      forall i: nat | i < m
        ensures tokens <= Slack(times, i, m)
      {
        if i < n {
          assert level <= Slack(times, i, n);
        }
      }
    }
  }

  /** The bucket after a run of accepted messages, and which run that is. */
  lemma {:induction false} LevelAfter(start: real, times: seq<real>, n: nat)
    requires Chronological(start, times) && n <= |times|
    ensures AllAccepted(Fresh(start), times[..n]) <==> forall k: nat | k < n :: !BurstAt(times, k)
    ensures AllAccepted(Fresh(start), times[..n]) && n > 0 ==>
      var b := After(Fresh(start), times[..n]);
      IsLevel(times, n, b.tokens) && b.lastRefill == times[n - 1]
  {
    if n > 0 {
      LevelAfter(start, times, n - 1);
      assert times[..n] == times[..n - 1] + [times[n - 1]];
      ChargeSnoc(Fresh(start), times[..n - 1], times[n - 1]);
      if n == 1 {
        assert times[..0] == [];
        assert !TooMany(times, 0, 0);
        assert Slack(times, 0, 1) == BURST - 1.0;
      } else if AllAccepted(Fresh(start), times[..n - 1]) {
        var b := After(Fresh(start), times[..n - 1]);
        LevelStep(times, n - 1, b.tokens, b);
      }
    }
  }

  /** The limiter is exact: everything passes if and only if no stretch of messages is longer
      than 60 plus the seconds it spans. */
  lemma ExactlyTheBursts(start: real, times: seq<real>)
    requires Chronological(start, times)
    ensures AllAccepted(Fresh(start), times) <==>
      forall i: nat, k: nat | i <= k < |times| :: !TooMany(times, i, k)
  {
    LevelAfter(start, times, |times|);
    assert times[..|times|] == times;
    forall i: nat, k: nat | i <= k < |times| && TooMany(times, i, k)
      ensures BurstAt(times, k)
    {
    }
  }

  /** The first message rejected is the first one that ends such a stretch. */
  lemma FirstRejection(start: real, times: seq<real>, k: nat)
    requires Chronological(start, times) && k < |times|
    ensures AllAccepted(Fresh(start), times[..k]) && !AllAccepted(Fresh(start), times[..k + 1])
      <==> BurstAt(times, k) && forall j: nat | j < k :: !BurstAt(times, j)
  {
    LevelAfter(start, times, k);
    LevelAfter(start, times, k + 1);
  }
}
