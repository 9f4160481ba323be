/** Every interleaving of the kernel publishing records with the consumer loop of pmu/sampler.cpp. */
module RingProtocol {
  import opened Words
  import opened LittleEndian
  import opened RingBuffer

  /** struct perf_event_header: type, misc and size. */
  function HeaderBytes(kind: u32, misc: u16, size: u16): (b: Bytes)
    ensures |b| == HEADER
  {
    Enc(kind, 4) + Enc(misc, 2) + Enc(size, 2)
  }

  /** A record as the kernel writes it: a header with its own size, a multiple of eight bytes, and a body. */
  ghost predicate Whole(r: Bytes) {
    && HEADER <= |r| < 0x1_0000 && |r| % 8 == 0
    && exists kind: u32, misc: u16 :: r[..HEADER] == HeaderBytes(kind, misc, |r|)
  }

  /** The size field of a record is its length. */
  lemma SizeOfRecord(r: Bytes)
    requires Whole(r)
    ensures SizeField(r, 0) == |r|
  {
    var kind: u32, misc: u16 :| r[..HEADER] == HeaderBytes(kind, misc, |r|);
    assert r[6..8] == r[..HEADER][6..8] == Enc(|r|, 2);
    Widths();
    DecEnc(|r|, 2);
    SizeFieldIsDec(r, 0);
  }

  /** Everything ever published, end to end. */
  ghost function Flat(log: seq<Bytes>): Bytes {
    if log == [] then [] else Flat(log[..|log| - 1]) + log[|log| - 1]
  }

  /** Position at which record `i` starts. */
  ghost function Off(log: seq<Bytes>, i: nat): nat
    requires i <= |log|
  {
    |Flat(log[..i])|
  }

  /** The kernel's copy of `r` into the ring from position `pos`. */
  ghost function Write(data: Bytes, pos: nat, r: Bytes): (d: Bytes)
    requires |data| > 0
    ensures |d| == |data|
    decreases |r|
  {
    if r == [] then data else Write(data[pos % |data| := r[0]], pos + 1, r[1..])
  }

  /** Where the consumer stands: outside Read, about to read an event, holding one, about to publish the
      tail, or past an empty read that saw `seen` records published. */
  datatype Pc = Idle | Reading | Holding(ptr: Ptr) | Consuming | Drained(seen: nat)

  /** Bytes handed to the sample handlers, tagged with the record they were read for. */
  datatype Delivery = Delivery(index: nat, bytes: Bytes)

  /** Shared page and buffer, consumer fields, and the history of the run. `gaps` records, for each
      PerfMmapReadDone, how many records had been published at the last empty read and at that call. */
  datatype Sys = Sys(
    data: Bytes, head: nat, tail: nat,
    prev: nat, start: nat, copied: Bytes, pc: Pc,
    log: seq<Bytes>, next: nat, delivered: seq<Delivery>, gaps: seq<(nat, nat)>)

  datatype Step = Publish(r: Bytes) | Begin | Read | Deliver | Consume | Done

  ghost predicate Guard(s: Sys, step: Step) {
    match step
    case Publish(r) => Whole(r) && |s.data| > 0 && s.tail <= s.head && s.head + |r| <= s.tail + |s.data|
    case Begin => s.pc.Idle?
    case Read => && s.pc.Reading? && |s.data| > 0 && s.start <= s.head
                 && s.start % |s.data| + HEADER <= |s.data| && |s.copied| == COPY_MAX
    case Deliver => s.pc.Holding? && s.next > 0 && Readable(s, s.pc.ptr)
    case Consume => s.pc.Consuming?
    case Done => s.pc.Drained?
  }

  ghost predicate Readable(s: Sys, p: Ptr) {
    match p
    case Null => false
    case InRing(at, size) => at + size <= |s.data|
    case Copied(size) => size <= |s.copied|
  }

  /** The bytes behind an event pointer at this moment. */
  ghost function Seen(s: Sys, p: Ptr): Bytes
    requires Readable(s, p)
  {
    if p.InRing? then s.data[p.at..p.at + p.size] else s.copied[..p.size]
  }

  ghost function Apply(s: Sys, step: Step): Sys
    requires Guard(s, step)
  {
    match step
    case Publish(r) => s.(data := Write(s.data, s.head, r), head := s.head + |r|, log := s.log + [r])
    case Begin => s.(start := s.prev, pc := Reading)
    case Read =>
      var o := ReadSpec(s.data, s.start, s.head, s.copied);
      var t := s.(start := o.start, prev := o.start, copied := o.copied);
      if o.ptr.Null? then t.(pc := Drained(|s.log|)) else t.(pc := Holding(o.ptr), next := s.next + 1)
    case Deliver => s.(delivered := s.delivered + [Delivery(s.next - 1, Seen(s, s.pc.ptr))], pc := Consuming)
    case Consume => s.(tail := s.prev, pc := Reading)
    case Done => s.(prev := s.head, next := |s.log|, gaps := s.gaps + [(s.pc.seen, |s.log|)], pc := Idle)
  }

  ghost predicate Initial(s: Sys) {
    && |s.data| > 0 && |s.data| % 8 == 0 && |s.copied| == COPY_MAX
    && s.head == s.tail == s.prev == s.start == s.next == 0
    && s.pc == Idle && s.log == [] && s.delivered == [] && s.gaps == []
  }

  /** A run: states and the steps between them. */
  ghost predicate Run(ss: seq<Sys>, steps: seq<Step>) {
    && |ss| == |steps| + 1 && Initial(ss[0])
    && forall i :: 0 <= i < |steps| ==> Guard(ss[i], steps[i]) && ss[i + 1] == Apply(ss[i], steps[i])
  }

  // ----- The invariant -----

  /** Bytes of a record that always survive: all of them in place, `sizeof(PerfEvent)` when copied. A
      record that ends exactly at the end of the buffer is copied too. */
  function Intact(n: nat, off: nat, size: nat): nat
    requires n > 0
  {
    if off % n + size < n || size <= EVENT_SIZE then size else EVENT_SIZE
  }

  ghost predicate PtrOk(s: Sys, p: Ptr, i: nat)
    requires i < |s.log| && |s.data| > 0
  {
    var off, size := Off(s.log, i), |s.log[i]|;
    match p
    case Null => false
    case InRing(at, z) => z == size && at == off % |s.data| && at + size < |s.data|
    case Copied(z) =>
      && z == size && off % |s.data| + size >= |s.data| && |s.copied| == COPY_MAX
      && s.copied[..Intact(|s.data|, off, size)] == s.log[i][..Intact(|s.data|, off, size)]
  }

  /** The unread part of the ring holds what was published, and the consumer stands on a record start. */
  ghost predicate BufferOk(s: Sys) {
    && |s.data| > 0 && |s.data| % 8 == 0 && |s.copied| == COPY_MAX
    && (forall i :: 0 <= i < |s.log| ==> Whole(s.log[i]))
    && s.head == |Flat(s.log)| && s.tail <= s.head <= s.tail + |s.data|
    && (forall p :: s.tail <= p < s.head ==> At(s.data, p) == Flat(s.log)[p])
    && s.next <= |s.log| && s.prev == Off(s.log, s.next)
    && (!s.pc.Idle? ==> s.start == s.prev)
    && (if s.pc.Holding?
        then s.next > 0 && s.tail <= Off(s.log, s.next - 1) && PtrOk(s, s.pc.ptr, s.next - 1)
        else s.tail <= s.prev)
    && (s.pc.Drained? ==> s.pc.seen == s.next)
  }

  /** Number of records that are dealt with. */
  ghost function Settled(s: Sys): int { if s.pc.Holding? then s.next - 1 else s.next }

  ghost predicate InGap(s: Sys, i: nat) {
    exists g :: g in s.gaps && g.0 <= i < g.1
  }

  ghost predicate Delivered(s: Sys, i: nat) {
    exists j :: 0 <= j < |s.delivered| && s.delivered[j].index == i
  }

  ghost predicate DeliveryOk(s: Sys, d: Delivery) {
    && |s.data| > 0 && d.index < |s.log| && |d.bytes| == |s.log[d.index]|
    && var k := Intact(|s.data|, Off(s.log, d.index), |s.log[d.index]|);
       d.bytes[..k] == s.log[d.index][..k]
  }

  /** In order, never twice, never torn; what is missing fell into a gap. */
  ghost predicate HistoryOk(s: Sys) {
    && (forall j :: 0 <= j < |s.delivered| ==> DeliveryOk(s, s.delivered[j]) && s.delivered[j].index < Settled(s))
    && (forall j, k :: 0 <= j < k < |s.delivered| ==> s.delivered[j].index < s.delivered[k].index)
    && (forall g :: g in s.gaps ==> g.1 <= Settled(s))
    && (forall i: nat :: i < Settled(s) ==> Delivered(s, i) || InGap(s, i))
    && (forall i: nat :: !(Delivered(s, i) && InGap(s, i)))
    && ((forall g :: g in s.gaps ==> g.0 == g.1) ==>
          |s.delivered| == Settled(s) && forall j :: 0 <= j < |s.delivered| ==> s.delivered[j].index == j)
  }

  // ----- The log -----

  lemma {:induction false} FlatRecord(log: seq<Bytes>, i: nat)
    requires i < |log|
    ensures Off(log, i + 1) == Off(log, i) + |log[i]| <= |Flat(log)|
    ensures Flat(log)[Off(log, i)..Off(log, i + 1)] == log[i]
    decreases |log|
  {
    var n := |log| - 1;
    assert log[..|log|] == log;
    assert log[..i + 1][..i] == log[..i] && log[..i + 1][i] == log[i];
    if i < n {
      FlatRecord(log[..n], i);
      assert log[..n][..i] == log[..i] && log[..n][..i + 1] == log[..i + 1];
      assert Flat(log) == Flat(log[..n]) + log[n];
    }
  }

  lemma FlatSnoc(log: seq<Bytes>, r: Bytes, i: nat)
    requires i <= |log|
    ensures Flat(log + [r]) == Flat(log) + r
    ensures Off(log + [r], i) == Off(log, i)
    ensures Off(log, |log|) == |Flat(log)|
  {
    assert (log + [r])[..|log|] == log;
    assert (log + [r])[..i] == log[..i];
    assert log[..|log|] == log;
  }

  lemma {:induction false} OffAligned(log: seq<Bytes>, i: nat)
    requires i <= |log| && forall k :: 0 <= k < |log| ==> Whole(log[k])
    ensures Off(log, i) % 8 == 0
    decreases i
  {
    if i > 0 {
      OffAligned(log, i - 1);
      FlatRecord(log, i - 1);
      assert Whole(log[i - 1]);
      hide Off, Flat;
      SumAligned(Off(log, i - 1), |log[i - 1]|);
    } else {
      assert log[..0] == [];
    }
  }

  lemma SumAligned(a: nat, b: nat)
    requires a % 8 == 0 && b % 8 == 0
    ensures (a + b) % 8 == 0
  {
  }

  lemma {:induction false} OffMonotone(log: seq<Bytes>, i: nat, j: nat)
    requires i <= j <= |log|
    ensures Off(log, i) <= Off(log, j)
    decreases j
  {
    if i < j {
      OffMonotone(log, i, j - 1);
      FlatRecord(log, j - 1);
    }
  }

  // ----- Ring facts -----

  /** Writing `r` at `pos` changes exactly its own positions, within one turn of the ring. */
  lemma {:induction false} WriteAt(data: Bytes, pos: nat, r: Bytes, lo: nat, p: nat)
    requires |data| > 0 && lo <= pos && pos + |r| <= lo + |data| && lo <= p < lo + |data|
    ensures At(Write(data, pos, r), p) == if pos <= p < pos + |r| then r[p - pos] else At(data, p)
    decreases |r|
  {
    if r != [] {
      var d := data[pos % |data| := r[0]];
      WriteAt(d, pos + 1, r[1..], lo, p);
      if p < pos { ModDistinct(p, pos, |data|); }
      if p > pos { ModDistinct(pos, p, |data|); }
    }
  }

  /** A record start leaves room for its header before the end of the buffer. */
  lemma HeaderFits(pos: nat, n: nat)
    requires n > 0 && n % 8 == 0 && pos % 8 == 0
    ensures pos % n + HEADER <= n
  {
    var m, q, k := n / 8, pos / n, pos / 8;
    assert pos % n == 8 * k - 8 * m * q;
    assert pos % n == 8 * (k - m * q);
  }

  // ----- Each step keeps the invariant -----

  lemma PublishKeeps(s: Sys, r: Bytes)
    requires BufferOk(s) && HistoryOk(s) && Guard(s, Publish(r))
    ensures BufferOk(Apply(s, Publish(r))) && HistoryOk(Apply(s, Publish(r)))
  {
    var t := Apply(s, Publish(r));
    FlatSnoc(s.log, r, s.next);
    forall p | t.tail <= p < t.head
      ensures At(t.data, p) == Flat(t.log)[p]
    {
      WriteAt(s.data, s.head, r, s.tail, p);
    }
    forall i: nat | i <= |s.log|
      ensures Off(t.log, i) == Off(s.log, i)
    {
      FlatSnoc(s.log, r, i);
    }
    HistoryGrows(s, t);
  }

  /** Publishing more records leaves what was delivered right. */
  lemma HistoryGrows(s: Sys, t: Sys)
    requires HistoryOk(s) && |s.log| <= |t.log| && |t.data| == |s.data|
    requires forall i: nat :: i < |s.log| ==> t.log[i] == s.log[i]
    requires forall i: nat :: i <= |s.log| ==> Off(t.log, i) == Off(s.log, i)
    requires t.delivered == s.delivered && t.gaps == s.gaps && Settled(t) == Settled(s)
    ensures HistoryOk(t)
  {
    forall j | 0 <= j < |t.delivered|
      ensures DeliveryOk(t, t.delivered[j]) && t.delivered[j].index < Settled(t)
    {
      assert DeliveryOk(s, s.delivered[j]);
    }
    forall i: nat
      ensures Delivered(t, i) <==> Delivered(s, i)
      ensures InGap(t, i) <==> InGap(s, i)
    {
    }
  }

  /** The unread bytes of record `i` are in the ring. */
  lemma RecordBytes(s: Sys, i: nat)
    requires BufferOk(s) && i < |s.log| && s.tail <= Off(s.log, i)
    ensures Off(s.log, i) + |s.log[i]| <= s.head
    ensures forall k :: 0 <= k < |s.log[i]| ==> At(s.data, Off(s.log, i) + k) == s.log[i][k]
  {
    var off, r := Off(s.log, i), s.log[i];
    FlatRecord(s.log, i);
    hide Off, Flat, At;
    forall k | 0 <= k < |r|
      ensures At(s.data, off + k) == r[k]
    {
      assert r[k] == Flat(s.log)[off..off + |r|][k];
    }
  }

  /** The size field read in place is the record's size. */
  lemma SizeInPlace(data: Bytes, off: nat, r: Bytes)
    requires |data| > 0 && off % |data| + HEADER <= |data| && Whole(r)
    requires At(data, off + 6) == r[6] && At(data, off + 7) == r[7]
    ensures SizeField(data, off % |data|) == |r|
  {
    AtInPlace(data, off, 6);
    AtInPlace(data, off, 7);
    SizeOfRecord(r);
  }

  /** The record under the consumer is in the ring, header first. */
  lemma RecordInRing(s: Sys, i: nat)
    requires BufferOk(s) && i < |s.log| && s.tail <= Off(s.log, i)
    ensures Off(s.log, i) + |s.log[i]| <= s.head
    ensures Off(s.log, i) % |s.data| + HEADER <= |s.data|
    ensures SizeField(s.data, Off(s.log, i) % |s.data|) == |s.log[i]|
    ensures forall k :: 0 <= k < |s.log[i]| ==> At(s.data, Off(s.log, i) + k) == s.log[i][k]
  {
    RecordBytes(s, i);
    OffAligned(s.log, i);
    HeaderFits(Off(s.log, i), |s.data|);
    assert Whole(s.log[i]);
    SizeInPlace(s.data, Off(s.log, i), s.log[i]);
  }

  /** Bytes in place are the record's bytes. */
  lemma InPlace(s: Sys, i: nat)
    requires BufferOk(s) && i < |s.log| && s.tail <= Off(s.log, i)
    requires Off(s.log, i) % |s.data| + |s.log[i]| <= |s.data|
    ensures var at := Off(s.log, i) % |s.data|; s.data[at..at + |s.log[i]|] == s.log[i]
  {
    RecordBytes(s, i);
    var off, r, n := Off(s.log, i), s.log[i], |s.data|;
    hide Off, Flat, At, BufferOk;
    forall k | 0 <= k < |r|
      ensures s.data[off % n + k] == r[k]
    {
      AtInPlace(s.data, off, k);
      assert At(s.data, off + k) == r[k];
    }
  }

  /** The consumer can always read, and between records nothing is found. */
  lemma ReadIsSafe(s: Sys)
    requires BufferOk(s) && s.pc.Reading?
    ensures Guard(s, Read)
    ensures s.next == |s.log| ==> s.start == s.head
    ensures s.next < |s.log| ==> s.head - s.start >= HEADER
  {
    OffAligned(s.log, s.next);
    HeaderFits(s.start, |s.data|);
    OffMonotone(s.log, s.next, |s.log|);
    FlatSnoc(s.log, [], s.next);
    if s.next < |s.log| { RecordInRing(s, s.next); }
  }

  /** A read finds the next record, whole, exactly when one has been published; it never sees corruption. */
  lemma ReadFinds(s: Sys)
    requires BufferOk(s) && s.pc.Reading?
    ensures Guard(s, Read)
    ensures var o := ReadSpec(s.data, s.start, s.head, s.copied);
            && !o.corrupted
            && (s.next == |s.log| ==> o.ptr == Null && o.start == s.start && o.copied == s.copied)
            && (s.next < |s.log| ==>
                  && o.start == Off(s.log, s.next + 1)
                  && PtrOk(s.(copied := o.copied), o.ptr, s.next))
  {
    ReadIsSafe(s);
    if s.next < |s.log| {
      RecordInRing(s, s.next);
      FlatRecord(s.log, s.next);
      assert Whole(s.log[s.next]);
      SpecOfRecord(s.data, s.start, s.head, s.copied, s.log[s.next]);
    }
  }

  /** What `ReadSpec` yields when record `r` starts at `start`. */
  lemma SpecOfRecord(data: Bytes, start: nat, end: nat, copied: Bytes, r: Bytes)
    requires |data| > 0 && start + |r| <= end && start % |data| + HEADER <= |data| && |copied| == COPY_MAX
    requires Whole(r) && SizeField(data, start % |data|) == |r|
    requires forall k :: 0 <= k < |r| ==> At(data, start + k) == r[k]
    ensures var o := ReadSpec(data, start, end, copied);
            var len := Intact(|data|, start, |r|);
            && !o.corrupted && o.start == start + |r|
            && (start % |data| + |r| < |data| ==> o.ptr == InRing(start % |data|, |r|) && o.copied == copied)
            && (start % |data| + |r| >= |data| ==> o.ptr == Copied(|r|) && o.copied == r[..len] + copied[len..])
  {
    if start % |data| + |r| < |data| {
      ModAdd(start, |r|, |data|);
    } else {
      var len := Intact(|data|, start, |r|);
      assert RingSlice(data, start, len) == r[..len];
    }
  }

  lemma ReadKeeps(s: Sys)
    requires BufferOk(s) && HistoryOk(s) && Guard(s, Read)
    ensures BufferOk(Apply(s, Read)) && HistoryOk(Apply(s, Read))
  {
    ReadFinds(s);
    HistoryGrows(s, Apply(s, Read));
    if s.next == |s.log| { FlatSnoc(s.log, [], s.next); }
  }

  lemma DeliverKeeps(s: Sys)
    requires BufferOk(s) && HistoryOk(s) && Guard(s, Deliver)
    ensures BufferOk(Apply(s, Deliver)) && HistoryOk(Apply(s, Deliver))
  {
    var t, i := Apply(s, Deliver), s.next - 1;
    var d := Delivery(i, Seen(s, s.pc.ptr));
    if s.pc.ptr.InRing? { InPlace(s, i); }
    OffMonotone(s.log, i, s.next);
    assert DeliveryOk(t, d);
    forall j | 0 <= j < |t.delivered|
      ensures DeliveryOk(t, t.delivered[j]) && t.delivered[j].index < Settled(t)
    {
      if j < |s.delivered| { assert DeliveryOk(s, s.delivered[j]); }
    }
    DeliveredSnoc(s, t, d);
  }

  /** One more delivery, of the record after all settled ones, keeps the accounts straight. */
  lemma DeliveredSnoc(s: Sys, t: Sys, d: Delivery)
    requires HistoryOk(s) && t.delivered == s.delivered + [d] && t.gaps == s.gaps
    requires d.index == Settled(s) && Settled(t) == Settled(s) + 1
    requires forall j :: 0 <= j < |t.delivered| ==> DeliveryOk(t, t.delivered[j]) && t.delivered[j].index < Settled(t)
    ensures HistoryOk(t)
  {
    forall i: nat
      ensures Delivered(t, i) <==> Delivered(s, i) || i == d.index
      ensures InGap(t, i) <==> InGap(s, i)
    {
      if Delivered(s, i) {
        var j :| 0 <= j < |s.delivered| && s.delivered[j].index == i;
        assert t.delivered[j].index == i;
      }
      if i == d.index { assert t.delivered[|s.delivered|].index == i; }
    }
  }

  lemma DoneKeeps(s: Sys)
    requires BufferOk(s) && HistoryOk(s) && Guard(s, Done)
    ensures BufferOk(Apply(s, Done)) && HistoryOk(Apply(s, Done))
  {
    var t := Apply(s, Done);
    FlatSnoc(s.log, [], s.next);
    OffMonotone(s.log, s.next, |s.log|);
    var gap := (s.pc.seen, |s.log|);
    assert gap in t.gaps;
    forall i: nat
      ensures Delivered(t, i) <==> Delivered(s, i)
      ensures InGap(t, i) <==> InGap(s, i) || gap.0 <= i < gap.1
    {
    }
    forall j | 0 <= j < |t.delivered|
      ensures DeliveryOk(t, t.delivered[j]) && t.delivered[j].index < Settled(t)
    {
      assert DeliveryOk(s, s.delivered[j]);
    }
    assert forall g :: g in s.gaps ==> g in t.gaps;
  }

  lemma QuietKeeps(s: Sys, step: Step)
    requires BufferOk(s) && HistoryOk(s) && Guard(s, step) && (step.Begin? || step.Consume?)
    ensures BufferOk(Apply(s, step)) && HistoryOk(Apply(s, step))
  {
    OffMonotone(s.log, s.next, |s.log|);
    FlatSnoc(s.log, [], s.next);
    HistoryGrows(s, Apply(s, step));
  }

  /** Every step of either side keeps the invariant. */
  lemma StepKeeps(s: Sys, step: Step)
    requires BufferOk(s) && HistoryOk(s) && Guard(s, step)
    ensures BufferOk(Apply(s, step)) && HistoryOk(Apply(s, step))
  {
    match step
    case Publish(r) => PublishKeeps(s, r);
    case Begin => QuietKeeps(s, step);
    case Read => ReadKeeps(s);
    case Deliver => DeliverKeeps(s);
    case Consume => QuietKeeps(s, step);
    case Done => DoneKeeps(s);
  }

  /** In every run: records are delivered in published order, at most once, byte for byte up to `Intact`,
      and a settled record that was not delivered was published between the last empty read and the
      PerfMmapReadDone that followed it. */
  lemma {:induction false} RunDelivers(ss: seq<Sys>, steps: seq<Step>, n: nat)
    requires Run(ss, steps) && n <= |steps|
    ensures BufferOk(ss[n]) && HistoryOk(ss[n])
  {
    if n == 0 {
      assert ss[0].log[..0] == [];
    } else {
      RunDelivers(ss, steps, n - 1);
      StepKeeps(ss[n - 1], steps[n - 1]);
      assert ss[n - 1 + 1] == Apply(ss[n - 1], steps[n - 1]);
    }
  }

  /** Without a gap the caller gets the published records themselves, in order. */
  lemma NoGapNoLoss(ss: seq<Sys>, steps: seq<Step>, n: nat)
    requires Run(ss, steps) && n <= |steps| && !ss[n].pc.Holding?
    requires forall g :: g in ss[n].gaps ==> g.0 == g.1
    requires forall i :: 0 <= i < |ss[n].log| ==> |ss[n].log[i]| <= EVENT_SIZE
    ensures |ss[n].delivered| == ss[n].next <= |ss[n].log|
    ensures forall j :: 0 <= j < ss[n].next ==> ss[n].delivered[j].bytes == ss[n].log[j]
  {
    RunDelivers(ss, steps, n);
    var s := ss[n];
    forall j | 0 <= j < s.next
      ensures s.delivered[j].bytes == s.log[j]
    {
      assert DeliveryOk(s, s.delivered[j]);
    }
  }

  /** A copied record is exact up to sizeof(PerfEvent); what follows is whatever the copy buffer held. */
  lemma LongWrappedRecord(s: Sys)
    requires BufferOk(s) && s.pc.Reading? && s.next < |s.log|
    requires s.start % |s.data| + |s.log[s.next]| >= |s.data| && |s.log[s.next]| > EVENT_SIZE
    ensures Guard(s, Read)
    ensures var t := Apply(s, Read);
            && t.pc.Holding? && Readable(t, t.pc.ptr)
            && Seen(t, t.pc.ptr) == s.log[s.next][..EVENT_SIZE] + s.copied[EVENT_SIZE..|s.log[s.next]|]
            && (Seen(t, t.pc.ptr) == s.log[s.next]
                <==> s.copied[EVENT_SIZE..|s.log[s.next]|] == s.log[s.next][EVENT_SIZE..])
  {
    ReadIsSafe(s);
    RecordInRing(s, s.next);
    var r := s.log[s.next];
    assert Whole(r);
    SpecOfRecord(s.data, s.start, s.head, s.copied, r);
    var seen := r[..EVENT_SIZE] + s.copied[EVENT_SIZE..|r|];
    assert seen[EVENT_SIZE..] == s.copied[EVENT_SIZE..|r|];
    assert r == r[..EVENT_SIZE] + r[EVENT_SIZE..];
  }

  /** The lost-data branch of RingbufferReadInit is never taken: the consumer is at most a buffer behind. */
  lemma NeverOverrun(ss: seq<Sys>, steps: seq<Step>, n: nat)
    requires Run(ss, steps) && n <= |steps| && ss[n].pc.Idle?
    ensures ss[n].prev <= ss[n].head <= ss[n].prev + |ss[n].data|
  {
    RunDelivers(ss, steps, n);
    OffMonotone(ss[n].log, ss[n].next, |ss[n].log|);
    FlatSnoc(ss[n].log, [], ss[n].next);
  }

  /** Step `n` is a PerfMmapReadDone that finds record `i` published and not read. */
  ghost predicate Skips(ss: seq<Sys>, steps: seq<Step>, n: nat, i: nat)
    requires |ss| == |steps| + 1 && n < |steps|
  {
    steps[n] == Done && ss[n].next <= i < |ss[n].log|
  }

  ghost predicate Skipped(ss: seq<Sys>, steps: seq<Step>, m: nat, i: nat)
    requires |ss| == |steps| + 1 && m <= |steps|
  {
    exists n: nat :: n < m && Skips(ss, steps, n, i)
  }

  /** The gaps of a state are what the calls before it skipped. */
  lemma {:induction false} GapIsSkip(ss: seq<Sys>, steps: seq<Step>, m: nat, i: nat)
    requires Run(ss, steps) && m <= |steps|
    ensures InGap(ss[m], i) <==> Skipped(ss, steps, m, i)
  {
    if m > 0 {
      var n := m - 1;
      GapIsSkip(ss, steps, n, i);
      RunDelivers(ss, steps, n);
      GapNext(ss, steps, n, i);
      hide Skips;
      if Skipped(ss, steps, m, i) && !Skipped(ss, steps, n, i) {
        var k: nat :| k < m && Skips(ss, steps, k, i);
        assert k == n;
      }
      if Skipped(ss, steps, n, i) {
        var k: nat :| k < n && Skips(ss, steps, k, i);
      }
    }
  }

  lemma GapNext(ss: seq<Sys>, steps: seq<Step>, n: nat, i: nat)
    requires Run(ss, steps) && n < |steps| && BufferOk(ss[n])
    ensures InGap(ss[n + 1], i) <==> InGap(ss[n], i) || Skips(ss, steps, n, i)
  {
    var s, t := ss[n], ss[n + 1];
    assert t == Apply(s, steps[n]);
    hide BufferOk;
    if steps[n] == Done {
      var gap := (s.pc.seen, |s.log|);
      assert s.pc.seen == s.next by { SeenIsNext(s); }
      assert gap in t.gaps && forall g :: g in t.gaps <==> g in s.gaps || g == gap;
    }
  }

  lemma SeenIsNext(s: Sys)
    requires BufferOk(s) && s.pc.Drained?
    ensures s.pc.seen == s.next
  {
  }

  /** A record the consumer is past was not delivered exactly when a PerfMmapReadDone found it published but unread. */
  lemma LostIff(ss: seq<Sys>, steps: seq<Step>, m: nat, i: nat)
    requires Run(ss, steps) && m <= |steps| && i < Settled(ss[m])
    ensures !Delivered(ss[m], i) <==> Skipped(ss, steps, m, i)
  {
    RunDelivers(ss, steps, m);
    GapIsSkip(ss, steps, m, i);
  }

  /** After the tail is published the kernel has room for exactly what fits besides the unread records. */
  lemma ConsumeFrees(s: Sys, r: Bytes)
    requires BufferOk(s) && s.pc.Consuming? && Whole(r)
    ensures Guard(s, Consume)
    ensures var t := Apply(s, Consume);
            t.tail == Off(t.log, t.next)
            && (Guard(t, Publish(r)) <==> |Flat(t.log)| - Off(t.log, t.next) + |r| <= |t.data|)
  {
    OffMonotone(s.log, s.next, |s.log|);
    FlatSnoc(s.log, [], s.next);
    hide Whole;
  }

  /** The consumer goes from `s` to `t` by `steps`, with nothing published in between. */
  ghost predicate Quiet(s: Sys, steps: seq<Step>, t: Sys)
    decreases |steps|
  {
    if steps == [] then s == t
    else !steps[0].Publish? && Guard(s, steps[0]) && Quiet(Apply(s, steps[0]), steps[1..], t)
  }

  lemma HeldIsReadable(s: Sys)
    requires BufferOk(s) && s.pc.Holding?
    ensures Guard(s, Deliver)
  {
    assert Whole(s.log[s.next - 1]);
    assert s.pc.ptr.Copied? ==> s.pc.ptr.size == |s.log[s.next - 1]|;
  }

  /** One round of a Read call, and what it adds. */
  lemma OneRound(s: Sys) returns (t: Sys, d: Delivery)
    requires BufferOk(s) && HistoryOk(s) && s.pc.Reading? && s.next < |s.log|
    ensures Quiet(s, [Read, Deliver, Consume], t) && BufferOk(t) && HistoryOk(t)
    ensures t.pc.Reading? && t.log == s.log && t.next == s.next + 1 && t.gaps == s.gaps
    ensures t.delivered == s.delivered + [d] && d.index == s.next
  {
    hide BufferOk, HistoryOk;
    ReadFinds(s);
    StepKeeps(s, Read);
    var a := Apply(s, Read);
    HeldIsReadable(a);
    StepKeeps(a, Deliver);
    var b := Apply(a, Deliver);
    StepKeeps(b, Consume);
    t, d := Apply(b, Consume), Delivery(s.next, Seen(a, a.pc.ptr));
    assert Quiet(t, [], t) && Quiet(b, [Consume], t) && Quiet(a, [Deliver, Consume], t);
  }

  /** The last two steps of a Read call that finds nothing more. */
  lemma LastRound(s: Sys) returns (t: Sys)
    requires BufferOk(s) && HistoryOk(s) && s.pc.Reading? && s.next == |s.log|
    ensures Quiet(s, [Read, Done], t) && t.pc.Idle? && t.log == s.log && t.next == |s.log|
    ensures t.delivered == s.delivered && t.gaps == s.gaps + [(|s.log|, |s.log|)]
  {
    hide HistoryOk;
    ReadFinds(s);
    var a := Apply(s, Read);
    t := Apply(a, Done);
    assert Quiet(t, [], t) && Quiet(a, [Done], t);
  }

  lemma {:induction false} QuietConcat(s: Sys, first: seq<Step>, m: Sys, rest: seq<Step>, t: Sys)
    requires Quiet(s, first, m) && Quiet(m, rest, t)
    ensures Quiet(s, first + rest, t)
    decreases |first|
  {
    if first == [] {
      assert first + rest == rest;
    } else {
      assert (first + rest)[1..] == first[1..] + rest;
      QuietConcat(Apply(s, first[0]), first[1..], m, rest, t);
    }
  }

  lemma {:induction false} DrainsFrom(s: Sys) returns (t: Sys, steps: seq<Step>, added: seq<Delivery>)
    requires BufferOk(s) && HistoryOk(s) && s.pc.Reading? && s.next <= |s.log|
    ensures Quiet(s, steps, t) && t.pc.Idle? && t.log == s.log && t.next == |s.log|
    ensures t.delivered == s.delivered + added && |added| == |s.log| - s.next
    ensures forall j :: 0 <= j < |added| ==> added[j].index == s.next + j
    ensures t.gaps == s.gaps + [(|s.log|, |s.log|)]
    decreases |s.log| - s.next
  {
    hide *;
    if s.next == |s.log| {
      t := LastRound(s);
      steps, added := [Read, Done], [];
    } else {
      var m, d := OneRound(s);
      t, steps, added := DrainsFrom(m);
      QuietConcat(s, [Read, Deliver, Consume], m, steps, t);
      steps, added := [Read, Deliver, Consume] + steps, [d] + added;
      assert s.delivered + added == m.delivered + added[1..];
    }
  }

  /** In every run, a Read call during which nothing is published ends, after delivering the unread records in order and
      skipping none. */
  lemma Drains(ss: seq<Sys>, steps: seq<Step>, n: nat)
    returns (t: Sys, call: seq<Step>, added: seq<Delivery>)
    requires Run(ss, steps) && n <= |steps| && ss[n].pc.Idle?
    ensures Quiet(ss[n], call, t) && t.pc.Idle? && t.log == ss[n].log && t.next == |t.log|
    ensures t.delivered == ss[n].delivered + added && |added| == |t.log| - ss[n].next
    ensures forall j :: 0 <= j < |added| ==> added[j].index == ss[n].next + j
    ensures t.gaps == ss[n].gaps + [(|t.log|, |t.log|)]
  {
    RunDelivers(ss, steps, n);
    hide HistoryOk;
    var s := ss[n];
    StepKeeps(s, Begin);
    var m := Apply(s, Begin);
    var rest: seq<Step>;
    t, rest, added := DrainsFrom(m);
    call := [Begin] + rest;
    assert call[1..] == rest;
  }
}
