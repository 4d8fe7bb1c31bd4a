/** The single-producer ring of pkg/util/ringbuffer.go, as a window onto an append-only log. */
module RingBuffer {

  datatype ReadResult<T> = NoData | Read(value: T, overwritten: nat, next: nat)

  /** First retained position of a log of n items in a ring of the given size. */
  function Oldest(n: nat, size: nat): nat {
    if n > size then n - size else 0
  }

  /** What a read at `cursor` reports when the writer stands still. */
  function ReadAt<T>(log: seq<T>, size: nat, cursor: nat): (r: ReadResult<T>)
    requires size > 0
    ensures r.Read? ==> Oldest(|log|, size) <= r.next - 1 < |log| && r.value == log[r.next - 1]
    ensures r.Read? ==> r.overwritten == r.next - 1 - cursor
    ensures r.Read? && r.overwritten > 0 ==> r.next - 1 == Oldest(|log|, size)
  {
    if cursor >= |log| then NoData
    else
      var c := if cursor < Oldest(|log|, size) then Oldest(|log|, size) else cursor;
      Read(log[c], c - cursor, c + 1)
  }

  lemma {:induction false} MultipleIsFar(n: nat, d: nat)
    requires 0 < n && 1 <= d
    ensures n * d >= n
    decreases d
  {
    if d > 1 {
      MultipleIsFar(n, d - 1);
      assert n * d == n * (d - 1) + n;
    }
  }

  /** Two positions less than one lap apart never share a slot. */
  lemma SlotsDiffer(i: nat, j: nat, n: nat)
    requires 0 < n && i < j < i + n
    ensures i % n != j % n
  {
    var a, b := i / n, j / n;
    if a < b {
      MultipleIsFar(n, b - a);
      assert n * b == n * a + n * (b - a);
    } else if b < a {
      MultipleIsFar(n, a - b);
      assert n * a == n * b + n * (a - b);
    }
  }

  class Ring<T(0)> {
    const size: nat
    const buf: array<T>
    var writeCursor: nat
    var closed: bool
    ghost var log: seq<T>

    ghost predicate Valid()
      reads this, buf
    {
      && size > 0 && buf.Length == size
      && writeCursor == |log|
      && (forall k :: Oldest(|log|, size) <= k < |log| ==> buf[k % size] == log[k])
    }

    /** A non-positive capacity becomes one slot. */
    constructor (capacity: int)
      ensures Valid() && fresh(buf) && log == [] && !closed
      ensures size == if capacity <= 0 then 1 else capacity
    {
      size := if capacity <= 0 then 1 else capacity;
      buf := new T[if capacity <= 0 then 1 else capacity];
      writeCursor, closed, log := 0, false, [];
    }

    method Write(value: T)
      requires Valid()
      modifies this, buf
      ensures Valid() && closed == old(closed)
      ensures log == if closed then old(log) else old(log) + [value]
    {
      if closed {
        return;
      }
      var pos := writeCursor;
      forall k | Oldest(|log| + 1, size) <= k < |log| ensures k % size != pos % size {
        SlotsDiffer(k, pos, size);
      }
      buf[pos % size] := value;
      writeCursor := pos + 1;
      log := log + [value];
    }

    method Close()
      requires Valid()
      modifies this`closed
      ensures Valid() && closed
    {
      closed := true;
    }

    /** TryReadResult while the caller excludes the writer. */
    method TryRead(cursor: nat) returns (r: ReadResult<T>)
      requires Valid()
      ensures r == ReadAt(log, size, cursor)
    {
      if cursor >= writeCursor {
        return NoData;
      }
      var c, overwritten := cursor, 0;
      if writeCursor > size && c < writeCursor - size {
        overwritten := writeCursor - size - c;
        c := writeCursor - size;
      }
      r := Read(buf[c % size], overwritten, c + 1);
    }

    method WriteAll(values: seq<T>)
      requires Valid()
      modifies this, buf
      ensures Valid() && closed == old(closed)
      ensures log == if closed then old(log) else old(log) + values
    {
      for i := 0 to |values|
        invariant Valid() && closed == old(closed)
        invariant log == if closed then old(log) else old(log) + values[..i]
      {
        Write(values[i]);
      }
    }

    /** TryReadResult against a running writer: `batches[k]` is what it publishes
        between the k-th cursor load and the slot lock that follows. A lapped read
        retries, so the value always is the one logged at the position consumed
        and `overwritten` counts exactly the positions skipped to reach it. */
    method TryReadAgainstWriter(cursor: nat, batches: seq<seq<T>>) returns (r: ReadResult<T>)
      requires Valid()
      modifies this, buf
      ensures Valid() && old(log) <= log
      ensures r.NoData? <==> cursor >= |old(log)|
      ensures r.Read? ==> Oldest(|log|, size) <= r.next - 1 < |log| && r.value == log[r.next - 1]
      ensures r.Read? ==> r.overwritten == r.next - 1 - cursor
      ensures r.Read? && r.overwritten == 0 ==> cursor < |old(log)| && r.value == old(log)[cursor]
    {
      var c, overwritten, k := cursor, 0, 0;
      if c >= writeCursor {
        return NoData;
      }
      while true
        invariant Valid() && old(log) <= log
        invariant 0 <= k <= |batches| && 0 <= overwritten && c == cursor + overwritten < |log|
        decreases |batches| - k, Oldest(|log|, size) > c
      {
        var oldest := if writeCursor > size then writeCursor - size else 0;
        if c < oldest {
          overwritten := overwritten + (oldest - c);
          c := oldest;
        }
        if k < |batches| {
          WriteAll(batches[k]);
          k := k + 1;
        }
        var lapped := writeCursor > size && c < writeCursor - size;
        if !lapped {
          return Read(buf[c % size], overwritten, c + 1);
        }
      }
    }
  }
}
