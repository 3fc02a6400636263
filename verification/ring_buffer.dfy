/** The byte ring of v4/ringbuffer.h (v3/ringbuffer.h is the same file).

    `Live` is the abstract value, a plain byte queue; the class keeps it in a fixed
    array and updates that array in place. */
module RingBuffers {
  import opened Bytes

  function Min(a: nat, b: nat): nat { if a < b then a else b }

  /** A region of the underlying storage, as a struct iovec points to it. */
  datatype IoVec = IoVec(base: nat, len: nat)

  /** The index `k` places after `start` on a ring of `cap` slots. */
  function Pos(cap: nat, start: nat, k: nat): nat
    requires start < cap && k <= cap
  {
    if start + k < cap then start + k else start + k - cap
  }

  /** The bytes stored from `start` on, oldest first. */
  function Live(mem: seq<byte>, start: nat, count: nat): (q: seq<byte>)
    requires start < |mem| && count <= |mem|
    ensures |q| == count
  {
    seq(count, k requires 0 <= k < count => mem[Pos(|mem|, start, k)])
  }

  /** Storage after `data` is copied to index `at`. */
  function Patch(mem: seq<byte>, at: nat, data: seq<byte>): (r: seq<byte>)
    requires at + |data| <= |mem|
    ensures |r| == |mem|
  {
    seq(|mem|, k requires 0 <= k < |mem| => if at <= k < at + |data| then data[k - at] else mem[k])
  }

  predicate Within(iovecs: seq<IoVec>, size: nat) {
    forall v <- iovecs :: v.base + v.len <= size
  }

  function Total(iovecs: seq<IoVec>): nat {
    if iovecs == [] then 0 else iovecs[0].len + Total(iovecs[1..])
  }

  /** The kernel's side of readv: `data` fills the regions in order. */
  function Scattered(mem: seq<byte>, iovecs: seq<IoVec>, data: seq<byte>): (r: seq<byte>)
    requires Within(iovecs, |mem|)
    ensures |r| == |mem|
    decreases |iovecs|
  {
    if iovecs == [] then mem
    else
      var n := Min(iovecs[0].len, |data|);
      Scattered(Patch(mem, iovecs[0].base, data[..n]), iovecs[1..], data[n..])
  }

  /** The storage indices the regions cover, in order. */
  function Slots(iovecs: seq<IoVec>): seq<nat> {
    if iovecs == [] then []
    else seq(iovecs[0].len, k requires 0 <= k => iovecs[0].base + k) + Slots(iovecs[1..])
  }

  /** The regions get_writeable_iovecs builds. */
  function FreeRegions(cap: nat, writePos: nat, count: nat): (v: seq<IoVec>)
    requires writePos < cap && count <= cap
    ensures Within(v, cap)
  {
    var free := cap - count;
    if free == 0 then [] else
      var len1 := Min(free, cap - writePos);
      if len1 < free then [IoVec(writePos, len1), IoVec(0, free - len1)] else [IoVec(writePos, len1)]
  }

  /** The writeable regions are exactly the free slots, in the order the queue will use
      them, and none of them holds live data. */
  lemma FreeRegionsAreTheFreeSlots(cap: nat, start: nat, count: nat)
    requires start < cap && count <= cap
    ensures var slots := Slots(FreeRegions(cap, (start + count) % cap, count));
            && |slots| == cap - count
            && (forall k | 0 <= k < cap - count :: slots[k] == (start + count + k) % cap)
            && (forall k, j | 0 <= k < cap - count && 0 <= j < count :: slots[k] != Pos(cap, start, j))
  {
    WrapOnce(cap, start, count);
    var w := (start + count) % cap;
    var regions := FreeRegions(cap, w, count);
    var slots := Slots(regions);
    if count < cap {
      assert Slots(regions[1..]) == if |regions| == 1 then [] else
        seq(regions[1].len, k requires 0 <= k => regions[1].base + k) + Slots(regions[1..][1..]);
      forall k | 0 <= k < cap - count
        ensures slots[k] == (start + count + k) % cap == Pos(cap, w, k)
      {
        WrapOnce(cap, w, k);
        WrapTwice(cap, start, count, k);
      }
    }
  }

  lemma WrapOnce(cap: nat, start: nat, k: nat)
    requires start < cap && k <= cap
    ensures (start + k) % cap == Pos(cap, start, k)
  {
    if start + k < cap {
      ModOf(start + k, cap, 0);
    } else {
      ModOf(start + k, cap, 1);
    }
  }

  lemma ModOf(x: int, cap: int, q: int)
    requires cap > 0 && q * cap <= x < q * cap + cap
    ensures x % cap == x - q * cap
  {
    var d := x / cap - q;
    assert x == (x / cap) * cap + x % cap;
    assert d * cap == (x / cap) * cap - q * cap;
    SmallMultiple(d, cap);
  }

  lemma SmallMultiple(d: int, cap: int)
    requires -cap < d * cap < cap
    ensures d == 0
  {
    assert d >= 1 ==> (d - 1) * cap >= 0;
    assert d <= -1 ==> (-1 - d) * cap >= 0;
  }

  lemma WrapTwice(cap: nat, start: nat, j: nat, k: nat)
    requires start < cap && j + k <= cap
    ensures (start + j + k) % cap == Pos(cap, Pos(cap, start, j), k) == Pos(cap, start, j + k)
  {
    WrapOnce(cap, start, j + k);
    assert start + j + k == start + (j + k);
  }

  /** The two memcpy calls of `write`: up to the end of the storage, then from its start. */
  function TwoCopies(mem: seq<byte>, w: nat, data: seq<byte>): (r: seq<byte>)
    requires w < |mem| && |data| <= |mem|
    ensures |r| == |mem|
  {
    var n := Min(|data|, |mem| - w);
    Patch(Patch(mem, w, data[..n]), 0, data[n..])
  }

  lemma NoCopy(mem: seq<byte>, at: nat, data: seq<byte>)
    requires at <= |mem| && data == []
    ensures Patch(mem, at, data) == mem
  {
  }

  lemma ScatterOne(mem: seq<byte>, regions: seq<IoVec>, data: seq<byte>)
    requires |regions| == 1 && Within(regions, |mem|) && |data| <= regions[0].len
    ensures Scattered(mem, regions, data) == Patch(mem, regions[0].base, data)
  {
    assert regions[1..] == [];
    assert data[..|data|] == data;
  }

  lemma ScatterTwo(mem: seq<byte>, regions: seq<IoVec>, data: seq<byte>)
    requires |regions| == 2 && Within(regions, |mem|) && |data| <= regions[0].len + regions[1].len
    ensures var n := Min(regions[0].len, |data|);
            Scattered(mem, regions, data) == Patch(Patch(mem, regions[0].base, data[..n]), regions[1].base, data[n..])
  {
    var n := Min(regions[0].len, |data|);
    assert Within(regions[1..], |mem|);
    ScatterOne(Patch(mem, regions[0].base, data[..n]), regions[1..], data[n..]);
  }

  /** Scattering into the free regions amounts to the two copies of `write`. */
  lemma ScatterIsTwoCopies(mem: seq<byte>, w: nat, count: nat, regions: seq<IoVec>, data: seq<byte>)
    requires w < |mem| && count + |data| <= |mem|
    requires regions == FreeRegions(|mem|, w, count)
    ensures Scattered(mem, regions, data) == TwoCopies(mem, w, data)
  {
    var n := Min(|data|, |mem| - w);
    if regions == [] {
      NoCopy(mem, w, data[..n]);
      NoCopy(mem, 0, data[n..]);
    } else if |regions| == 1 {
      ScatterOne(mem, regions, data);
      assert data[..n] == data;
      NoCopy(Patch(mem, w, data), 0, data[n..]);
    } else {
      ScatterTwo(mem, regions, data);
    }
  }

  lemma TwoCopiesAppend(mem: seq<byte>, start: nat, count: nat, data: seq<byte>)
    requires start < |mem| && count + |data| <= |mem|
    ensures var mem' := TwoCopies(mem, Pos(|mem|, start, count), data);
            && Live(mem', start, count) == Live(mem, start, count)
            && Live(mem', start, count + |data|) == Live(mem, start, count) + data
  {
    var cap, w := |mem|, Pos(|mem|, start, count);
    var n := Min(|data|, cap - w);
    var mem' := TwoCopies(mem, w, data);
    forall i | 0 <= i < cap
      ensures mem'[i] == if i < |data| - n then data[n + i] else if w <= i < w + n then data[i - w] else mem[i]
    {
    }
    forall k | 0 <= k < count + |data|
      ensures mem'[Pos(cap, start, k)] == if k < count then mem[Pos(cap, start, k)] else data[k - count]
    {
    }
  }

  /** Scattering into the free regions appends to the queue and leaves the rest alone. */
  lemma ScatterAppends(mem: seq<byte>, start: nat, count: nat, data: seq<byte>)
    requires start < |mem| && count + |data| <= |mem|
    ensures var mem' := Scattered(mem, FreeRegions(|mem|, Pos(|mem|, start, count), count), data);
            && Live(mem', start, count) == Live(mem, start, count)
            && Live(mem', start, count + |data|) == Live(mem, start, count) + data
  {
    var cap, w := |mem|, Pos(|mem|, start, count);
    ScatterIsTwoCopies(mem, w, count, FreeRegions(cap, w, count), data);
    TwoCopiesAppend(mem, start, count, data);
  }

  /** Reading on from a later start is reading less. */
  lemma DropLive(mem: seq<byte>, start: nat, count: nat, n: nat)
    requires start < |mem| && n <= count <= |mem|
    ensures Live(mem, Pos(|mem|, start, n), count - n) == Live(mem, start, count)[n..]
  {
  }

  /** What the one or two copies of `write` leave behind. */
  lemma CopiesMade(mem: seq<byte>, w: nat, count: nat, data: seq<byte>, written: nat, mem': seq<byte>)
    requires w < |mem| && written <= |data| && count + written <= |mem|
    requires var first := Min(written, |mem| - w);
             mem' == if first == written then Patch(mem, w, data[..first])
                     else Patch(Patch(mem, w, data[..first]), 0, data[first..written])
    ensures mem' == Scattered(mem, FreeRegions(|mem|, w, count), data[..written])
  {
    var first, d := Min(written, |mem| - w), data[..written];
    assert d[..first] == data[..first] && d[first..] == data[first..written];
    NoCopy(Patch(mem, w, data[..first]), 0, []);
    ScatterIsTwoCopies(mem, w, count, FreeRegions(|mem|, w, count), d);
  }

  class RingBuffer {
    const buf: array<byte>
    var readPos: nat
    var writePos: nat
    var count: nat

    ghost predicate Valid()
      reads this
    {
      && readPos < buf.Length
      && count <= buf.Length
      && writePos == Pos(buf.Length, readPos, count)
    }

    ghost function Contents(): (q: seq<byte>)
      requires Valid()
      reads this, buf
      ensures |q| == count
    {
      Live(buf[..], readPos, count)
    }

    constructor (capacity: nat)
      requires capacity > 0
      ensures Valid() && fresh(buf) && buf.Length == capacity && Contents() == []
    {
      buf := new byte[capacity](_ => 0);
      readPos, writePos, count := 0, 0, 0;
    }

    /** memcpy into the storage. */
    method Copy(at: nat, data: seq<byte>)
      requires at + |data| <= buf.Length
      modifies buf
      ensures buf[..] == Patch(old(buf[..]), at, data)
    {
      forall k | 0 <= k < |data| {
        buf[at + k] := data[k];
      }
    }

    /** Appends as much of `data` as fits. */
    method Write(data: seq<byte>) returns (written: nat)
      requires Valid()
      modifies this`writePos, this`count, buf
      ensures Valid()
      ensures written == Min(|data|, buf.Length - old(count))
      ensures Contents() == old(Contents()) + data[..written]
      // the very storage that scattering the same bytes into the writeable regions leaves
      ensures buf[..] == Scattered(old(buf[..]), FreeRegions(buf.Length, old(writePos), old(count)), data[..written])
      ensures writePos == (old(writePos) + written) % buf.Length && count == old(count) + written
    {
      hide Live;
      hide Patch;
      hide Scattered;
      hide FreeRegions;
      var capacity := buf.Length;
      ghost var mem := buf[..];
      written := Min(|data|, capacity - count);
      var firstChunk := Min(written, capacity - writePos);
      Copy(writePos, data[..firstChunk]);
      var secondChunk := written - firstChunk;
      if secondChunk > 0 {
        Copy(0, data[firstChunk..firstChunk + secondChunk]);
      }
      CopiesMade(mem, writePos, count, data, written, buf[..]);
      ScatterAppends(mem, readPos, count, data[..written]);
      WrapOnce(capacity, writePos, written);
      WrapTwice(capacity, readPos, count, written);
      writePos := (writePos + written) % capacity;
      count := count + written;
    }

    method GetWriteableIovecs() returns (iovecs: seq<IoVec>)
      requires Valid()
      ensures iovecs == FreeRegions(buf.Length, writePos, count)
      ensures Total(iovecs) == buf.Length - count
      ensures iovecs == [] <==> count == buf.Length
    {
      var capacity := buf.Length;
      var freeSpace := capacity - count;
      if freeSpace == 0 {
        return [];
      }
      iovecs := [];
      var contiguousToEnd := capacity - writePos;
      var len1 := Min(freeSpace, contiguousToEnd);
      iovecs := iovecs + [IoVec(writePos, len1)];
      if len1 < freeSpace {
        var len2 := freeSpace - len1;
        iovecs := iovecs + [IoVec(0, len2)];
        assert iovecs[1..] == [IoVec(0, len2)];
        assert Total(iovecs[1..]) == len2 + Total([]);
      } else {
        assert iovecs[1..] == [];
      }
    }

    /** The kernel fills the regions it was given, in order, with the bytes it has. */
    method Scatter(iovecs: seq<IoVec>, data: seq<byte>)
      requires Within(iovecs, buf.Length) && |data| <= Total(iovecs)
      modifies buf
      ensures buf[..] == Scattered(old(buf[..]), iovecs, data)
    {
      var regions, left := iovecs, data;
      while regions != []
        invariant Within(regions, buf.Length)
        invariant Scattered(buf[..], regions, left) == Scattered(old(buf[..]), iovecs, data)
      {
        var n := Min(regions[0].len, |left|);
        Copy(regions[0].base, left[..n]);
        regions, left := regions[1..], left[n..];
      }
    }

    method CommitWrite(len: nat)
      requires Valid() && count + len <= buf.Length
      modifies this`writePos, this`count
      ensures Valid()
      ensures writePos == (old(writePos) + len) % buf.Length && count == old(count) + len
    {
      WrapOnce(buf.Length, writePos, len);
      WrapTwice(buf.Length, readPos, count, len);
      writePos := (writePos + len) % buf.Length;
      count := count + len;
    }

    /** readv into the writeable regions followed by commit_write, as both readers do it. */
    method Receive(data: seq<byte>)
      requires Valid() && count + |data| <= buf.Length
      modifies this`writePos, this`count, buf
      ensures Valid()
      ensures Contents() == old(Contents()) + data
    {
      var iovecs := GetWriteableIovecs();
      Scatter(iovecs, data);
      ScatterAppends(old(buf[..]), readPos, count, data);
      CommitWrite(|data|);
    }

    method Peek(len: nat) returns (out: seq<byte>)
      requires Valid()
      ensures out == Contents()[..Min(len, count)]
    {
      var bytesToRead := Min(len, count);
      var capacity := buf.Length;
      var firstChunk := Min(bytesToRead, capacity - readPos);
      out := buf[readPos..readPos + firstChunk];
      var secondChunk := bytesToRead - firstChunk;
      if secondChunk > 0 {
        out := out + buf[..secondChunk];
      }
    }

    method Consume(len: nat)
      requires Valid()
      modifies this`readPos, this`count
      ensures Valid()
      ensures Contents() == old(Contents())[Min(len, old(count))..]
    {
      var toRemove := Min(len, count);
      WrapOnce(buf.Length, readPos, toRemove);
      WrapTwice(buf.Length, readPos, toRemove, count - toRemove);
      DropLive(buf[..], readPos, count, toRemove);
      readPos := (readPos + toRemove) % buf.Length;
      count := count - toRemove;
    }

    /** get_read_ptr with get_contiguous_read_size: the bytes one may read from the pointer. */
    method ContiguousRead() returns (view: seq<byte>)
      requires Valid()
      ensures view <= Contents()
      // all of it, unless it wraps, and then up to the end of the storage
      ensures view == Contents() || readPos + |view| == buf.Length
    {
      var size := 0;
      if count != 0 {
        size := if writePos > readPos then writePos - readPos else buf.Length - readPos;
      }
      view := buf[readPos..readPos + size];
    }

    predicate Full()
      reads this
    {
      count == buf.Length
    }
  }

  // --- Refinement over whole runs -------------------------------------------------------

  datatype Op = OpWrite(data: seq<byte>) | OpReceive(bytes: seq<byte>) | OpPeek(len: nat) | OpConsume(n: nat)

  /** What a caller observes of a bounded byte queue: the answers, then the contents. */
  datatype Trace = Trace(answers: seq<seq<byte>>, contents: seq<byte>)

  /** The bounded byte queue. Each answer is the bytes accepted or seen. */
  function QueueStep(cap: nat, q: seq<byte>, op: Op): (seq<byte>, seq<byte>)
    requires |q| <= cap
  {
    match op
    case OpWrite(data) =>
      var taken := data[..Min(|data|, cap - |q|)];
      (taken, q + taken)
    case OpReceive(bytes) =>
      var taken := bytes[..Min(|bytes|, cap - |q|)];
      (taken, q + taken)
    case OpPeek(len) => (q[..Min(len, |q|)], q)
    case OpConsume(n) => ([], q[Min(n, |q|)..])
  }

  function QueueRun(cap: nat, q: seq<byte>, ops: seq<Op>): Trace
    requires |q| <= cap
    decreases |ops|
  {
    if ops == [] then Trace([], q)
    else
      var (answer, q') := QueueStep(cap, q, ops[0]);
      var more := QueueRun(cap, q', ops[1..]);
      Trace([answer] + more.answers, more.contents)
  }

  /** One operation answers and moves as the queue does. */
  method Apply(ring: RingBuffer, op: Op) returns (answer: seq<byte>)
    requires ring.Valid()
    modifies ring, ring.buf
    ensures ring.Valid()
    ensures (answer, ring.Contents()) == QueueStep(ring.buf.Length, old(ring.Contents()), op)
  {
    match op {
      case OpWrite(data) =>
        var n := ring.Write(data);
        answer := data[..n];
      case OpReceive(bytes) =>
        answer := bytes[..Min(|bytes|, ring.buf.Length - ring.count)];
        ring.Receive(answer);
      case OpPeek(len) =>
        answer := ring.Peek(len);
      case OpConsume(n) =>
        ring.Consume(n);
        answer := [];
    }
  }

  lemma QueueRunStep(cap: nat, q: seq<byte>, ops: seq<Op>, i: nat, before: seq<seq<byte>>)
    requires |q| <= cap && i < |ops|
    ensures var (answer, q') := QueueStep(cap, q, ops[i]);
            var more, more' := QueueRun(cap, q, ops[i..]), QueueRun(cap, q', ops[i + 1..]);
            before + more.answers == before + [answer] + more'.answers && more.contents == more'.contents
  {
    assert ops[i..][0] == ops[i] && ops[i..][1..] == ops[i + 1..];
  }

  /** Every sequence of operations on a fresh ring is observed as on the bounded queue. */
  method Replay(capacity: nat, ops: seq<Op>) returns (answers: seq<seq<byte>>, contents: seq<byte>)
    requires capacity > 0
    ensures Trace(answers, contents) == QueueRun(capacity, [], ops)
  {
    var ring := new RingBuffer(capacity);
    answers := [];
    var i := 0;
    ghost var whole := QueueRun(capacity, [], ops);
    assert ops[0..] == ops;
    while i < |ops|
      invariant 0 <= i <= |ops|
      invariant ring.Valid() && ring.buf.Length == capacity && fresh(ring) && fresh(ring.buf)
      invariant whole.answers == answers + QueueRun(capacity, ring.Contents(), ops[i..]).answers
      invariant whole.contents == QueueRun(capacity, ring.Contents(), ops[i..]).contents
    {
      QueueRunStep(capacity, ring.Contents(), ops, i, answers);
      var answer := Apply(ring, ops[i]);
      answers := answers + [answer];
      i := i + 1;
    }
    contents := ring.Peek(ring.count);
  }
}
