/** The consumer side of the perf ring buffer: pmu/sample_process.cpp, pmu/sample_process.h and the read
    loop of pmu/sampler.cpp, against a kernel that publishes records concurrently.

    Positions (`data_head`, `data_tail`, `prev`, `start`) are running byte counts; the buffer has
    `N = mask + 1` bytes, a power of two. */
module RingBuffer {
  import opened Words
  import opened LittleEndian

  type Bytes = seq<byte>

  const HEADER: nat := 8
  const EVENT_SIZE: nat := 4168     // sizeof(union PerfEvent), set by PerfRecordMmap2
  const COPY_MAX: nat := 0x1_0000   // PERF_SAMPLE_MAX_SIZE

  /** The byte at running position `pos`. */
  ghost function At(data: Bytes, pos: nat): byte
    requires |data| > 0
  {
    data[pos % |data|]
  }

  /** The `len` bytes that follow position `pos` around the ring. */
  ghost function RingSlice(data: Bytes, pos: nat, len: nat): Bytes
    requires |data| > 0
  {
    seq<byte>(len, i requires 0 <= i < len => At(data, pos + i))
  }

  /** header.size of a record whose first byte is at index `at`. */
  function SizeField(data: Bytes, at: nat): nat
    requires at + HEADER <= |data|
  {
    var low: int, high: int := data[at + 6], data[at + 7];
    low + 256 * high
  }

  /** It is the 16-bit little-endian number in bytes 6 and 7. */
  lemma SizeFieldIsDec(data: Bytes, at: nat)
    requires at + HEADER <= |data|
    ensures SizeField(data, at) == Dec(data[at + 6..at + 8])
  {
    var b := data[at + 6..at + 8];
    assert b[1..][1..] == [];
    assert Dec(b[1..]) == data[at + 7];
  }

  /** What the consumer gets to see: nothing, a record in place, or the copy in `copiedEvent`. */
  datatype Ptr = Null | InRing(at: nat, size: nat) | Copied(size: nat)

  datatype Outcome = Outcome(ptr: Ptr, start: nat, copied: Bytes, corrupted: bool)

  /** Reading one record, as a function of the buffer and the two positions. */
  ghost function ReadSpec(data: Bytes, start: nat, end: nat, copied: Bytes): Outcome
    requires |data| > 0 && start <= end && start % |data| + HEADER <= |data| && |copied| == COPY_MAX
  {
    var at := start % |data|;
    var size := SizeField(data, at);
    if end - start < HEADER then Outcome(Null, start, copied, false)
    else if size == 0 then Outcome(Null, start, copied, true)
    else if size < HEADER || end - start < size then Outcome(Null, start, copied, false)
    else if at + size != (start + size) % |data| then
      var len := if EVENT_SIZE < size then EVENT_SIZE else size;
      Outcome(Copied(size), start + size, RingSlice(data, start, len) + copied[len..], false)
    else Outcome(InRing(at, size), start + size, copied, false)
  }

  class PerfMmap {
    const order: nat              // the buffer has 2^order bytes
    const mask: nat
    var prev: nat
    var start: nat
    var end: nat
    const copiedEvent: array<byte>

    constructor (order: nat)
      ensures Valid() && this.order == order && prev == 0 && fresh(copiedEvent)
    {
      this.order, mask := order, Pow2(order) - 1;
      prev, start, end := 0, 0, 0;
      copiedEvent := new byte[COPY_MAX];
    }

    ghost predicate Valid() {
      mask + 1 == Pow2(order) && copiedEvent.Length == COPY_MAX
    }

    /** Copy `len` bytes from ring position `offset` into `copiedEvent`, wrapping as often as needed. */
    method CopyDataInWhileLoop(offset0: nat, data: Bytes, len0: nat)
      requires Valid() && |data| == mask + 1 && len0 <= COPY_MAX
      modifies copiedEvent
      ensures copiedEvent[..] == RingSlice(data, offset0, len0) + old(copiedEvent[..])[len0..]
    {
      var offset, len, tmp := offset0, len0, 0;
      while len > 0
        invariant 0 <= len <= len0 && tmp == len0 - len && offset == offset0 + tmp
        invariant forall i :: 0 <= i < tmp ==> copiedEvent[i] == At(data, offset0 + i)
        invariant forall i :: tmp <= i < COPY_MAX ==> copiedEvent[i] == old(copiedEvent[i])
      {
        var rest := BitAnd(offset, mask);
        MaskIsRemainder(offset, order);
        var n := if mask + 1 - rest < len then mask + 1 - rest else len;
        MemCpy(tmp, data, rest, n);
        forall i | tmp <= i < tmp + n
          ensures copiedEvent[i] == At(data, offset0 + i)
        {
          AtInPlace(data, offset, i - tmp);
        }
        offset, tmp, len := offset + n, tmp + n, len - n;
      }
    }

    /** memcpy(copiedEvent + to, data + from, n). */
    method MemCpy(to: nat, data: Bytes, from: nat, n: nat)
      requires to + n <= copiedEvent.Length && from + n <= |data|
      modifies copiedEvent
      ensures forall i :: to <= i < to + n ==> copiedEvent[i] == data[from + (i - to)]
      ensures forall i :: 0 <= i < copiedEvent.Length && !(to <= i < to + n) ==> copiedEvent[i] == old(copiedEvent[i])
    {
      var j := 0;
      while j < n
        invariant 0 <= j <= n
        invariant forall i :: to <= i < to + j ==> copiedEvent[i] == data[from + (i - to)]
        invariant forall i :: 0 <= i < copiedEvent.Length && !(to <= i < to + j) ==>
                    copiedEvent[i] == old(copiedEvent[i])
      {
        copiedEvent[to + j] := data[from + j];
        j := j + 1;
      }
    }

    /** PerfMmapRead: the record at `start`, if a whole one lies before `end`. */
    method PerfMmapRead(data: Bytes) returns (event: Ptr, corrupted: bool)
      requires Valid() && |data| == mask + 1 && start <= end && start % |data| + HEADER <= |data|
      modifies `start, copiedEvent
      ensures Outcome(event, start, copiedEvent[..], corrupted) == ReadSpec(data, old(start), end, old(copiedEvent[..]))
    {
      event, corrupted := Null, false;
      var diff := end - start;
      if diff >= HEADER {
        var at := BitAnd(start, mask);
        MaskIsRemainder(start, order);
        var size := SizeField(data, at);
        if size == 0 {
          corrupted := true;
          return;
        }
        if size < HEADER || diff < size { return; }
        MaskIsRemainder(start + size, order);
        event := InRing(at, size);
        if BitAnd(start, mask) + size != BitAnd(start + size, mask) {
          var len := if EVENT_SIZE < size then EVENT_SIZE else size;
          CopyDataInWhileLoop(start, data, len);
          event := Copied(size);
        }
        start := start + size;
      }
    }

    /** ReadEvent: reload the head, read one record, remember how far we got. */
    method ReadEvent(data: Bytes, head: nat) returns (event: Ptr, corrupted: bool)
      requires Valid() && |data| == mask + 1 && start <= head && start % |data| + HEADER <= |data|
      modifies `start, `end, `prev, copiedEvent
      ensures end == head && prev == start
      ensures Outcome(event, start, copiedEvent[..], corrupted)
              == ReadSpec(data, old(start), head, old(copiedEvent[..]))
    {
      end := head;
      event, corrupted := PerfMmapRead(data);
      prev := start;
    }

    /** RingbufferReadInit: a lost-data jump of `prev` and `data_tail` happens only past a full buffer. */
    method RingbufferReadInit(head: nat) returns (tail: Option<nat>)
      requires Valid() && prev <= head
      modifies `start, `end, `prev
      ensures start == old(prev) && end == head
      ensures head - old(prev) <= mask + 1 ==> tail == None && prev == old(prev)
      ensures head - old(prev) > mask + 1 ==> tail == Some(head) && prev == head
    {
      start, end := prev, head;
      tail := None;
      if end - start > mask + 1 {
        prev := head;
        tail := Some(prev);
      }
    }

    method PerfMmapReadDone(head: nat)
      modifies `prev
      ensures prev == head
    {
      prev := head;
    }
  }

  // ----- Ring arithmetic -----

  lemma ModAdd(x: nat, i: nat, n: nat)
    requires n > 0 && x % n + i < n
    ensures (x + i) % n == x % n + i
  {
    RemainderUnique(x + i, n, x / n, x % n + i);
  }

  lemma AtInPlace(data: Bytes, pos: nat, i: nat)
    requires |data| > 0 && pos % |data| + i < |data|
    ensures At(data, pos + i) == data[pos % |data| + i]
  {
    ModAdd(pos, i, |data|);
  }

  /** Positions less than a buffer apart use different bytes. */
  lemma ModDistinct(p: nat, q: nat, n: nat)
    requires n > 0 && p < q < p + n
    ensures p % n != q % n
  {
    var k := q / n - p / n;
    assert q - p == n * k + (q % n - p % n);
    assert k >= 1 ==> n * k >= n;
    assert k <= 0 ==> n * k <= 0;
  }
}
