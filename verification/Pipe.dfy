/** The pipe's ring buffer as a byte stream. */
module Pipes {
  import opened Layout

  const CAPACITY: nat := 4096

  datatype Got = Bytes(data: seq<Byte>) | Eof | Again
  datatype Gave = Wrote(count: nat) | NoReaders | Full

  /** A pipe as its users see it: the descriptors at each end, the descriptions that name it, the
      bytes in the ring, and every byte that ever went in or came out. */
  datatype PipeRec = PipeRec(readers: nat, writers: nat, refs: nat, buffer: seq<Byte>, written: seq<Byte>,
    taken: seq<Byte>)

  function Least(a: nat, b: nat): nat { if a < b then a else b }

  // One round of a read: the oldest bytes, or the reason why there are none.
  function GotOf(q: PipeRec, len: nat): Got {
    if q.buffer != [] then Bytes(q.buffer[..Least(len, |q.buffer|)]) else if q.writers == 0 then Eof else Again
  }

  function Pulled(q: PipeRec, len: nat): PipeRec {
    var n := Least(len, |q.buffer|);
    q.(buffer := q.buffer[n..], taken := q.taken + q.buffer[..n])
  }

  // One round of a write: as many bytes as fit, or the reason why none do.
  function GaveOf(q: PipeRec, data: seq<Byte>): Gave {
    if q.readers == 0 then NoReaders
    else if |q.buffer| >= CAPACITY then Full
    else Wrote(Least(|data|, CAPACITY - |q.buffer|))
  }

  function Pushed(q: PipeRec, data: seq<Byte>): PipeRec {
    if q.readers == 0 || |q.buffer| >= CAPACITY then q
    else var more := data[..Least(|data|, CAPACITY - |q.buffer|)]; q.(buffer := q.buffer + more,
      written := q.written + more)
  }

  // One more or one less descriptor at one end.
  function Counted(q: PipeRec, writing: bool, more: bool): PipeRec
    requires !more ==> if writing then q.writers > 0 else q.readers > 0
  {
    if writing then q.(writers := if more then q.writers + 1 else q.writers - 1)
    else q.(readers := if more then q.readers + 1 else q.readers - 1)
  }

  /** The bytes in the ring, oldest first. */
  function Ring(b: seq<Byte>, head: nat, count: nat): (r: seq<Byte>)
    requires head < |b| && count <= |b|
    ensures |r| == count
  {
    if head + count <= |b| then b[head..head + count] else b[head..] + b[..head + count - |b|]
  }

  function Wrapped(x: nat, n: nat): nat { if x < n then x else x - n }

  lemma WrappedIs(x: nat, n: nat)
    requires n > 0 && x < 2 * n
    ensures Wrapped(x, n) == x % n
  {
    if x >= n { WrapOnce(x - n, n); } else { WrapOnce(x, n); }
  }

  lemma RingAt(b: seq<Byte>, head: nat, count: nat, i: nat)
    requires head < |b| && count <= |b| && i < count
    ensures Wrapped(head + i, |b|) < |b| && Ring(b, head, count)[i] == b[Wrapped(head + i, |b|)]
  { }

  /** Taking from the front moves the head. */
  lemma RingTake(b: seq<Byte>, head: nat, count: nat, k: nat)
    requires head < |b| && count <= |b| && k <= count
    ensures Wrapped(head + k, |b|) < |b|
    ensures Ring(b, head, count) == Ring(b, head, k) + Ring(b, Wrapped(head + k, |b|), count - k)
  {
    var w, l, r := Ring(b, head, count), Ring(b, head, k), Ring(b, Wrapped(head + k, |b|), count - k);
    forall i | 0 <= i < count ensures w[i] == (l + r)[i] {
      RingAt(b, head, count, i);
      if i < k { RingAt(b, head, k, i); } else { RingAt(b, Wrapped(head + k, |b|), count - k, i - k); }
    }
  }

  // New bytes at the tail: up to the end of the buffer, then from its start.
  function Stored(b: seq<Byte>, tail: nat, data: seq<Byte>): (r: seq<Byte>)
    requires tail < |b| && |data| <= |b|
    ensures |r| == |b|
  {
    if tail + |data| <= |b| then b[..tail] + data + b[tail + |data|..]
    else data[|b| - tail..] + b[tail + |data| - |b|..tail] + data[..|b| - tail]
  }

  lemma StoredAt(b: seq<Byte>, tail: nat, data: seq<Byte>, j: nat)
    requires tail < |b| && |data| <= |b| && j < |b|
    ensures var i := if j >= tail then j - tail else j + |b| - tail;
            Stored(b, tail, data)[j] == if i < |data| then data[i] else b[j]
  { }

  lemma RingStoreAt(b: seq<Byte>, head: nat, count: nat, data: seq<Byte>, i: nat)
    requires head < |b| && count + |data| <= |b| && i < count + |data| && Wrapped(head + count, |b|) < |b|
    ensures Ring(Stored(b, Wrapped(head + count, |b|), data), head, count + |data|)[i] ==
            if i < count then Ring(b, head, count)[i] else data[i - count]
  {
    hide Ring, Stored;
    var tail := Wrapped(head + count, |b|);
    RingAt(Stored(b, tail, data), head, count + |data|, i);
    StoredAt(b, tail, data, Wrapped(head + i, |b|));
    if i < count { RingAt(b, head, count, i); }
  }

  // The two copies of a write.
  lemma StoredBy(b: seq<Byte>, tail: nat, data: seq<Byte>, first: nat, s: seq<Byte>)
    requires tail < |b| && |data| <= |b| == |s| && first == if |b| - tail > |data| then |data| else |b| - tail
    requires forall j | 0 <= j < |b| ::
      s[j] == if j < |data| - first then data[first + j] else if tail <= j < tail + first then data[j - tail] else b[j]
    ensures s == Stored(b, tail, data)
  {
    hide Stored;
    forall j | 0 <= j < |b| ensures s[j] == Stored(b, tail, data)[j] { StoredAt(b, tail, data, j); }
  }

  /** Storing at the tail appends. */
  lemma RingStore(b: seq<Byte>, head: nat, count: nat, data: seq<Byte>)
    requires head < |b| && count + |data| <= |b|
    ensures Wrapped(head + count, |b|) < |b|
    ensures Ring(Stored(b, Wrapped(head + count, |b|), data), head, count + |data|) == Ring(b, head, count) + data
  {
    var tail := Wrapped(head + count, |b|);
    var s := Stored(b, tail, data);
    var w, l := Ring(s, head, count + |data|), Ring(b, head, count);
    hide Ring, Stored;
    forall i | 0 <= i < count + |data| ensures w[i] == (l + data)[i] { RingStoreAt(b, head, count, data, i); }
  }

  // The two copies of a read.
  lemma RingSplit(b: seq<Byte>, head: nat, count: nat)
    requires head < |b| && count <= |b|
    ensures var first := if |b| - head > count then count else |b| - head;
            Ring(b, head, count) == b[head..head + first] + b[..count - first]
  { }

  lemma WrappedLess(head: nat, count: nat, n: nat)
    requires head < n && count <= n
    ensures Wrapped(head + count, n) < n
  { }

  // Where the tail stays.
  lemma HeadMoves(head: nat, count: nat, k: nat, n: nat)
    requires head < n && k <= count <= n
    ensures Wrapped(Wrapped(head + k, n) + (count - k), n) == Wrapped(head + count, n)
  { }

  // Where the tail goes.
  lemma TailMoves(head: nat, count: nat, k: nat, n: nat)
    requires head < n && count + k <= n
    ensures (Wrapped(head + count, n) + k) % n == Wrapped(head + count + k, n)
  {
    WrappedIs(Wrapped(head + count, n) + k, n);
  }

  /** struct pipe: the ring buffer with its counters. */
  class Pipe {
    const buffer: array<Byte>
    var head: nat
    var tail: nat
    var count: nat
    var readers: nat
    var writers: nat
    var refs: nat
    ghost var written: seq<Byte>
    ghost var taken: seq<Byte>

    ghost predicate Valid()
      reads this, buffer
    {
      buffer.Length == CAPACITY && head < CAPACITY && count <= CAPACITY && tail == Wrapped(head + count, CAPACITY)
    }

    ghost function Contents(): seq<Byte>
      reads this, buffer
    { if Valid() then Ring(buffer[..], head, count) else [] }

    ghost function Rec(): PipeRec
      reads this, buffer
    { PipeRec(readers, writers, refs, Contents(), written, taken) }

    /** pipe_create: empty, without ends, with the creator's reference. */
    constructor ()
      ensures Valid() && fresh(buffer) && Rec() == PipeRec(0, 0, 1, [], [], [])
    {
      buffer := new Byte[CAPACITY];
      head, tail, count, readers, writers, refs, written, taken := 0, 0, 0, 0, 0, 1, [], [];
    }

    /** One round of pipe_read under the lock. */
    method Read(len: nat) returns (r: Got)
      requires Valid() && len > 0
      modifies this`head, this`count, this`taken
      ensures Valid() && r == GotOf(old(Rec()), len) && Rec() == Pulled(old(Rec()), len)
    {
      hide Ring, Wrapped;
      if count == 0 {
        assert old(Contents()) == [] && Rec() == Pulled(old(Rec()), len);
        return if writers == 0 then Eof else Again;
      }
      var copied := if len < count then len else count;
      var first := if CAPACITY - head > copied then copied else CAPACITY - head;
      var data := buffer[head..head + first] + buffer[..copied - first];
      RingTake(buffer[..], head, count, copied);
      WrappedIs(head + copied, CAPACITY);
      RingSplit(buffer[..], head, copied);
      HeadMoves(head, count, copied, CAPACITY);
      head := (head + copied) % CAPACITY;
      count := count - copied;
      taken := taken + data;
      r := Bytes(data);
      assert old(Contents()) == data + Contents();
    }

    /** One round of pipe_write under the lock: as many bytes as fit. */
    method Write(data: seq<Byte>) returns (r: Gave)
      requires Valid()
      modifies this`tail, this`count, this`written, buffer
      ensures Valid() && r == GaveOf(old(Rec()), data) && Rec() == Pushed(old(Rec()), data)
    {
      hide Ring, Wrapped, Stored;
      if readers == 0 { return NoReaders; }
      if count == CAPACITY { return Full; }
      ghost var b := buffer[..];
      var copied := if |data| > CAPACITY - count then CAPACITY - count else |data|;
      WrappedLess(head, count, CAPACITY);
      RingStore(b, head, count, data[..copied]);
      TailMoves(head, count, copied, CAPACITY);
      Store(data[..copied]);
      tail := (tail + copied) % CAPACITY;
      count := count + copied;
      written := written + data[..copied];
      r := Wrote(copied);
    }

    // The two copies.
    method Store(data: seq<Byte>)
      requires buffer.Length == CAPACITY && tail < CAPACITY && |data| <= CAPACITY
      modifies buffer
      ensures buffer[..] == Stored(old(buffer[..]), tail, data)
    {
      var first := if CAPACITY - tail > |data| then |data| else CAPACITY - tail;
      hide Stored;
      ghost var b := buffer[..];
      forall i | 0 <= i < first { buffer[tail + i] := data[i]; }
      assert forall j | 0 <= j < CAPACITY :: buffer[j] == if tail <= j < tail + first then data[j - tail] else b[j];
      forall i | 0 <= i < |data| - first { buffer[i] := data[first + i]; }
      StoredBy(b, tail, data, first, buffer[..]);
    }

    /** pipe_endpoint_open and pipe_endpoint_close for one end. */
    method CountEnd(writing: bool, more: bool)
      requires !more ==> if writing then writers > 0 else readers > 0
      modifies this`readers, this`writers
      ensures Valid() == old(Valid()) && Rec() == Counted(old(Rec()), writing, more)
    {
      if writing {
        writers := if more then writers + 1 else writers - 1;
      } else {
        readers := if more then readers + 1 else readers - 1;
      }
    }

    // pipe_get, and pipe_put while others remain
    method CountRef(more: bool)
      requires !more ==> refs > 0
      modifies this`refs
      ensures Valid() == old(Valid()) && Rec() == old(Rec()).(refs := if more then old(refs) + 1 else old(refs) - 1)
    {
      refs := if more then refs + 1 else refs - 1;
    }
  }

  /** Reading and writing rounds keep the stream: what came out and what is in the ring is what went
      in. */
  lemma RoundsStream(q: PipeRec, len: nat, data: seq<Byte>)
    requires q.taken + q.buffer == q.written && |q.buffer| <= CAPACITY
    ensures Pulled(q, len).taken + Pulled(q, len).buffer == q.written == Pulled(q, len).written
    ensures Pushed(q, data).taken + Pushed(q, data).buffer == Pushed(q, data).written
        && Pushed(q, data).taken == q.taken
    ensures |Pulled(q, len).buffer| <= CAPACITY && |Pushed(q, data).buffer| <= CAPACITY
  {
    var n := Least(len, |q.buffer|);
    assert q.buffer == q.buffer[..n] + q.buffer[n..];
    Regroup(q.taken, q.buffer[..n], q.buffer[n..]);
    if q.readers > 0 && |q.buffer| < CAPACITY {
      var more := data[..Least(|data|, CAPACITY - |q.buffer|)];
      Regroup(q.taken, q.buffer, more);
    }
  }
}
