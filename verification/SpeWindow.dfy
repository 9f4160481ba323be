/** CoreSpeData of pmu/spe.cpp: the part of the circular AUX buffer written since the last read is
    decoded in one or two segments. */
module SpeWindow {
  import opened Words
  import opened Framing
  import opened RingBuffer
  import opened SpeDecoder
  import opened SpeRoundTrip
  import opened SpeTid

  // ----- Window arithmetic -----

  function ComputeAuxSize(auxMapLen: nat, headOff: nat, oldOff: nat): (size: int) {
    if headOff > oldOff then headOff - oldOff else auxMapLen - (oldOff - headOff)
  }

  /** The size computed from the two offsets is the number of bytes written, up to a full buffer. */
  lemma SizeOfWindow(n: nat, old_: nat, head: nat)
    requires n > 0 && old_ < head <= old_ + n
    ensures ComputeAuxSize(n, head % n, old_ % n) == head - old_
    ensures head % n > old_ % n <==> old_ % n + (head - old_) < n
  {
    var r, size := old_ % n, head - old_;
    if r + size < n {
      ModAdd(old_, size, n);
    } else {
      RemainderUnique(head, n, old_ / n + 1, r + size - n);
    }
  }

  /** The window, linearised. */
  ghost function Window(aux: Bytes, old_: nat, head: nat): Bytes
    requires |aux| > 0 && old_ <= head
  {
    RingSlice(aux, old_, head - old_)
  }

  /** One segment when the window does not reach the end of the buffer, otherwise the tail of the buffer
      followed by its beginning; together they are the window. */
  lemma SegmentsAreWindow(aux: Bytes, old_: nat, head: nat)
    requires |aux| > 0 && old_ < head <= old_ + |aux|
    ensures head % |aux| > old_ % |aux| ==> Window(aux, old_, head) == aux[old_ % |aux|..head % |aux|]
    ensures head % |aux| <= old_ % |aux| ==> Window(aux, old_, head) == aux[old_ % |aux|..] + aux[..head % |aux|]
  {
    var n, r, w := |aux|, old_ % |aux|, Window(aux, old_, head);
    SizeOfWindow(n, old_, head);
    forall i | 0 <= i < |w|
      ensures w[i] == if r + i < n then aux[r + i] else aux[r + i - n]
    {
      if r + i < n {
        AtInPlace(aux, old_, i);
      } else {
        RemainderUnique(old_ + i, n, old_ / n + 1, r + i - n);
      }
    }
    if r + (head - old_) < n {
      ModAdd(old_, head - old_, n);
    } else {
      RemainderUnique(head, n, old_ / n + 1, r + (head - old_) - n);
    }
  }

  // ----- Decoding a segment and naming its records -----

  /** Progress of a read: records, slot, room, and the carried context-switch index. */
  datatype Reading = Reading(d: Progress, idx: nat)

  /** CoreAuxData on one segment. */
  ghost function ReadSegment(env: Env, seg: Bytes, s: Reading): Reading
    requires Sane(env) && Whole(seg)
  {
    WholeIsReadable(seg);
    NameRecords(env, s, GetRecords(seg, |seg|, s.d))
  }

  /** Slots lo .. hi-1 named, the others as they were. */
  ghost function NameRange(env: Env, idx: nat, recs: seq<SpeRecord>, lo: nat, hi: nat): (r: (seq<SpeRecord>, nat))
    requires Sane(env) && lo <= hi <= |recs|
    ensures |r.0| == |recs|
  {
    var named := Assign(env, idx, recs[lo..hi]);
    (recs[..lo] + named.0 + recs[hi..], named.1)
  }

  lemma NameRangeOf(env: Env, idx: nat, p: seq<SpeRecord>, a: seq<SpeRecord>, t: seq<SpeRecord>)
    requires Sane(env)
    ensures NameRange(env, idx, p + a + t, |p|, |p| + |a|) == (p + Assign(env, idx, a).0 + t, Assign(env, idx, a).1)
  {
    var all := p + a + t;
    assert all[|p|..|p| + |a|] == a && all[..|p|] == p && all[|p| + |a|..] == t;
  }

  /** SetTidByTimestamp on the slots filled between `s` and `e`. */
  ghost function NameRecords(env: Env, s: Reading, e: Progress): Reading
    requires Sane(env) && s.d.at <= e.at && |e.recs| == |s.d.recs|
  {
    var named := NameRange(env, s.idx, e.recs, s.d.at, e.at);
    Reading(e.(recs := named.0), named.1)
  }

  /** The same slots from `at` on, under other earlier slots. */
  ghost function Under(prefix: seq<SpeRecord>, d: Progress, at: nat): Progress
    requires |prefix| == at <= d.at
  {
    d.(recs := prefix + d.recs[at..])
  }

  /** Decoding neither reads nor writes slots before the current one. */
  lemma {:induction false} AdvanceIgnoresEarlier(ps: seq<Packet>, d: Progress, at: nat, prefix: seq<SpeRecord>)
    requires |prefix| == at <= d.at
    ensures AdvanceAll(ps, Under(prefix, d, at)) == Under(prefix, AdvanceAll(ps, d), at)
    ensures AdvanceAll(ps, d).recs[..at] == d.recs[..at]
    decreases |ps|
  {
    if ps != [] {
      var next := Advance(ps[0], d);
      AdvanceUnder(ps[0], d, at, prefix);
      AdvanceIgnoresEarlier(ps[1..], next, at, prefix);
    }
  }

  lemma AdvanceUnder(p: Packet, d: Progress, at: nat, prefix: seq<SpeRecord>)
    requires |prefix| == at <= d.at
    ensures Advance(p, Under(prefix, d, at)) == Under(prefix, Advance(p, d), at)
    ensures Advance(p, d).recs[..at] == d.recs[..at]
  {
    if d.remain >= 1 {
      UpdateUnder(d.recs, at, prefix, d.at, DecodePkt(p, d.recs[d.at]));
      var filled := d.recs[d.at := DecodePkt(p, d.recs[d.at])];
      if d.at + 1 < |filled| {
        UpdateUnder(filled, at, prefix, d.at + 1, Reset(filled[d.at + 1]));
      }
    }
  }

  lemma UpdateUnder(recs: seq<SpeRecord>, at: nat, prefix: seq<SpeRecord>, k: nat, r: SpeRecord)
    requires |prefix| == at <= k < |recs|
    ensures (prefix + recs[at..])[k] == recs[k]
    ensures (prefix + recs[at..])[k := r] == prefix + recs[k := r][at..]
    ensures recs[k := r][..at] == recs[..at]
  {
  }

  lemma GetRecordsIgnoresEarlier(seg: Bytes, d: Progress, at: nat, prefix: seq<SpeRecord>)
    requires Readable(seg, |seg|) && |prefix| == at <= d.at
    ensures GetRecords(seg, |seg|, Under(prefix, d, at)) == Under(prefix, GetRecords(seg, |seg|, d), at)
    ensures GetRecords(seg, |seg|, d).recs[..at] == d.recs[..at]
  {
    if d.at < |d.recs| {
      UpdateUnder(d.recs, at, prefix, d.at, Reset(d.recs[d.at]));
    }
    AdvanceIgnoresEarlier(Parse(seg, |seg|), ResetSlot(d), at, prefix);
  }

  /** Naming two consecutive stretches, the second under the result of the first, is naming both. */
  lemma NamePieces(env: Env, idx: nat, p: seq<SpeRecord>, a: seq<SpeRecord>, x: seq<SpeRecord>,
                   b: seq<SpeRecord>, t: seq<SpeRecord>)
    requires Sane(env)
    ensures var first := NameRange(env, idx, p + a + x, |p|, |p| + |a|);
            NameRange(env, first.1, first.0[..|p| + |a|] + (b + t), |p| + |a|, |p| + |a| + |b|)
            == NameRange(env, idx, p + (a + b) + t, |p|, |p| + |a| + |b|)
  {
    NameRangeOf(env, idx, p, a, x);
    var named := Assign(env, idx, a);
    assert (p + named.0 + x)[..|p| + |a|] == p + named.0;
    NameRangeOf(env, named.1, p + named.0, b, t);
    assert (p + named.0) + (b + t) == p + named.0 + b + t;
    NamedWhole(env, idx, p, a, b, t);
  }

  lemma NameRangeTwice(env: Env, idx: nat, e: seq<SpeRecord>, f: seq<SpeRecord>, at: nat, mid: nat, end: nat)
    requires Sane(env) && at <= mid <= end <= |f| == |e| && f[..mid] == e[..mid]
    ensures var first := NameRange(env, idx, e, at, mid);
            NameRange(env, first.1, first.0[..mid] + f[mid..], mid, end) == NameRange(env, idx, f, at, end)
  {
    hide NameRange, Sane;
    var p, a, b, t := e[..at], e[at..mid], f[mid..end], f[end..];
    NamePieces(env, idx, p, a, e[mid..], b, t);
    assert e == p + a + e[mid..] && f[mid..] == b + t;
    Reassemble(e, f, at, mid, end);
  }

  /** Naming the records of two consecutive stretches is naming them all. */
  lemma NameTwice(env: Env, s: Reading, e: Progress, f: Progress)
    requires Sane(env) && s.d.at <= e.at <= f.at && |s.d.recs| == |e.recs| == |f.recs|
    requires f.recs[..e.at] == e.recs[..e.at]
    ensures var first := NameRecords(env, s, e);
            NameRecords(env, first, Under(first.d.recs[..e.at], f, e.at)) == NameRecords(env, s, f)
  {
    hide NameRange, Sane;
    NameRangeTwice(env, s.idx, e.recs, f.recs, s.d.at, e.at, f.at);
  }

  lemma Reassemble(e: seq<SpeRecord>, f: seq<SpeRecord>, at: nat, mid: nat, end: nat)
    requires at <= mid <= end <= |f| && mid <= |e| && f[..mid] == e[..mid]
    ensures f == e[..at] + (e[at..mid] + f[mid..end]) + f[end..]
  {
    assert forall i :: 0 <= i < mid ==> f[i] == f[..mid][i] == e[i];
  }

  lemma RegroupNamed(p: seq<SpeRecord>, a: seq<SpeRecord>, b: seq<SpeRecord>, t: seq<SpeRecord>)
    ensures p + (a + b) + t == p + a + b + t
  {
  }

  lemma NamedWhole(env: Env, idx: nat, p: seq<SpeRecord>, a: seq<SpeRecord>, b: seq<SpeRecord>, t: seq<SpeRecord>)
    requires Sane(env)
    ensures var first := Assign(env, idx, a);
            var second := Assign(env, first.1, b);
            NameRange(env, idx, p + (a + b) + t, |p|, |p| + |a| + |b|) == (p + first.0 + second.0 + t, second.1)
  {
    AssignConcat(env, idx, a, b);
    NameRangeOf(env, idx, p, a + b, t);
    RegroupNamed(p, Assign(env, idx, a).0, Assign(env, Assign(env, idx, a).1, b).0, t);
  }

  /** Reading two segments cut at a record boundary, with the index carried over, gives the records, the
      remaining room and the index of one read of the linearised window. */
  lemma TwoSegmentsAreOne(env: Env, a: Bytes, c: Bytes, s: Reading)
    requires Sane(env) && WholeRecords(a) && Whole(c)
    ensures Whole(a + c)
    ensures ReadSegment(env, c, ReadSegment(env, a, s)) == ReadSegment(env, a + c, s)
  {
    WholeIsReadable(a);
    WholeIsReadable(c);
    PacketsConcat(a, c);
    WholeIsReadable(a + c);
    TwoCallsAreOne(a, c, s.d);
    var e := GetRecords(a, |a|, s.d);
    var f := GetRecords(c, |c|, e);
    var first := NameRecords(env, s, e);
    var prefix := first.d.recs[..e.at];
    GetRecordsIgnoresEarlier(c, e, e.at, prefix);
    NameTwice(env, s, e, f);
    assert first.d == Under(prefix, e, e.at) by { assert first.d.recs == prefix + e.recs[e.at..]; }
  }

  // ----- Staying inside the record buffer -----

  lemma {:induction false} EndsConcat(ps: seq<Packet>, qs: seq<Packet>)
    ensures Ends(ps + qs) == Ends(ps) + Ends(qs)
    decreases |ps|
  {
    if ps == [] {
      assert ps + qs == qs;
    } else {
      assert (ps + qs)[1..] == ps[1..] + qs;
      EndsConcat(ps[1..], qs);
    }
  }

  /** The room shrinks by the records completed, down to none. */
  lemma {:induction false} RoomLeft(ps: seq<Packet>, d: Progress)
    ensures AdvanceAll(ps, d).remain == if Ends(ps) <= d.remain then d.remain - Ends(ps) else 0
    decreases |ps|
  {
    if d.remain < 1 {
      FullStaysFull(ps, d);
    } else if ps != [] {
      RoomLeft(ps[1..], Advance(ps[0], d));
    }
  }

  /** Two segments stay inside the buffer exactly when the window they make up does. */
  lemma FitsTwice(a: Bytes, c: Bytes, d: Progress)
    requires Whole(a) && Whole(c)
    ensures Whole(a + c) && Readable(a, |a|)
    ensures var e := GetRecords(a, |a|, d);
            Fits(Packets(a + c), |d.recs|, d.at, d.remain)
            <==> Fits(Packets(a), |d.recs|, d.at, d.remain) && Fits(Packets(c), |d.recs|, e.at, e.remain)
  {
    PacketsConcat(a, c);
    WholeIsReadable(a);
    EndsConcat(Packets(a), Packets(c));
    RoomLeft(Packets(a), ResetSlot(d));
  }

  // ----- The reader -----

  /** How a read ends: done, without time conversion (a null pointer in the source), or with a write behind the
      record buffer or through a null pointer. */
  datatype Outcome = Done | NoTime | OutOfRange

  class SpeCore {
    const order: nat              // the AUX buffer has 2^order bytes
    const mask: nat
    var prev: nat

    constructor (order: nat)
      ensures Valid() && this.order == order && prev == 0
    {
      this.order, mask, prev := order, Pow2(order) - 1, 0;
    }

    ghost predicate Valid() { mask + 1 == Pow2(order) }

    /** CoreAuxData: decode one segment and name its records, if times can be converted. */
    method CoreAuxData(env: Env, converts: bool, aux: Bytes, auxOffset: nat, auxSize: nat, dummyIdx0: nat,
                       recs: array<SpeRecord>, rec0: nat, remain0: nat)
      returns (r: Outcome, dummyIdx: nat, rec: nat, remain: nat)
      requires Sane(env) && auxOffset < |aux| && auxOffset + auxSize <= |aux|
      requires Whole(aux[auxOffset..auxOffset + auxSize]) && rec0 + remain0 <= recs.Length
      modifies recs
      ensures rec + remain <= recs.Length
      ensures r == if !Fits(Packets(aux[auxOffset..auxOffset + auxSize]), recs.Length, rec0, remain0) then OutOfRange
                   else if converts then Done else NoTime
      ensures r == Done ==>
        Reading(Decoded(recs[..], rec, remain), dummyIdx)
        == ReadSegment(env, aux[auxOffset..auxOffset + auxSize],
                       Reading(Decoded(old(recs[..]), rec0, remain0), dummyIdx0))
      ensures r == NoTime ==>
        Decoded(recs[..], rec, remain)
        == Unnamed(aux[auxOffset..auxOffset + auxSize], Decoded(old(recs[..]), rec0, remain0))
    {
      hide Whole, Sane, GetRecords, Fits;
      var auxStart := auxOffset % |aux|;
      RemainderUnique(auxOffset, |aux|, 0, auxOffset);
      dummyIdx := dummyIdx0;
      var ok;
      ok, rec, remain := DecodeSegment(aux, auxStart, auxSize, recs, rec0, remain0);
      if !ok { return OutOfRange, dummyIdx, rec, remain; }
      if !converts { return NoTime, dummyIdx, rec, remain; }
      dummyIdx := SetTidByTimestamp(env, dummyIdx, recs, rec0, rec);
      assert recs[..] == recs[..rec0] + recs[rec0..rec] + recs[rec..];
      r := Done;
    }

    /** SpeGetRecord on the bytes of a segment. */
    method DecodeSegment(aux: Bytes, auxStart: nat, auxSize: nat, recs: array<SpeRecord>, rec0: nat, remain0: nat)
      returns (ok: bool, rec: nat, remain: nat)
      requires auxStart + auxSize <= |aux| && Whole(aux[auxStart..auxStart + auxSize]) && rec0 + remain0 <= recs.Length
      modifies recs
      ensures rec + remain <= recs.Length
      ensures ok <==> Fits(Packets(aux[auxStart..auxStart + auxSize]), recs.Length, rec0, remain0)
      ensures ok ==> rec0 <= rec
      ensures ok ==> Decoded(recs[..], rec, remain)
                     == Unnamed(aux[auxStart..auxStart + auxSize], Decoded(old(recs[..]), rec0, remain0))
    {
      ghost var seg, rest := aux[auxStart..auxStart + auxSize], aux[auxStart + auxSize..];
      assert aux[auxStart..] == seg + rest;
      WholeIsReadableIn(seg, rest);
      WholeIsReadable(seg);
      ok, rec, remain := SpeGetRecord(aux[auxStart..], auxSize, recs, rec0, remain0);
    }

    /** The two-segment read: the tail of the buffer, then its beginning. Without time conversion the second segment is
        read through a null pointer. */
    method ReadWrapped(env: Env, converts: bool, aux: Bytes, headOff: nat, oldOff: nat,
                       recs: array<SpeRecord>, rec0: nat, remain0: nat)
      returns (r: Outcome, rec: nat, remain: nat)
      requires Sane(env) && headOff <= oldOff < |aux| && rec0 + remain0 <= recs.Length
      requires WholeRecords(aux[oldOff..]) && Whole(aux[..headOff])
      modifies recs
      ensures rec + remain <= recs.Length && Whole(aux[oldOff..] + aux[..headOff])
      ensures r == if converts && Fits(Packets(aux[oldOff..] + aux[..headOff]), recs.Length, rec0, remain0) then Done
                   else OutOfRange
      ensures r == Done ==>
        Decoded(recs[..], rec, remain)
        == ReadSegment(env, aux[oldOff..] + aux[..headOff], Reading(Decoded(old(recs[..]), rec0, remain0), 1)).d
    {
      hide ReadSegment, Whole, Sane, Fits;
      var size := ComputeAuxSize(|aux|, headOff, oldOff);
      ghost var start := Reading(Decoded(recs[..], rec0, remain0), 1);
      var tail, dummyIdx := size - headOff, 1;
      assert aux[oldOff..oldOff + tail] == aux[oldOff..];
      FitsTwice(aux[oldOff..], aux[..headOff], start.d);
      r, dummyIdx, rec, remain := CoreAuxData(env, converts, aux, |aux| - tail, tail, dummyIdx, recs, rec0, remain0);
      if r != Done { return OutOfRange, rec, remain; }
      SegmentMoves(env, aux[oldOff..], start);
      assert aux[0..0 + headOff] == aux[..headOff];
      r, dummyIdx, rec, remain := CoreAuxData(env, converts, aux, 0, headOff, dummyIdx, recs, rec, remain);
      TwoSegmentsAreOne(env, aux[oldOff..], aux[..headOff], start);
    }

    /** The one or two segments between two buffer offsets. */
    method ReadBetween(env: Env, converts: bool, aux: Bytes, headOff: nat, oldOff: nat,
                       recs: array<SpeRecord>, rec0: nat, remain0: nat)
      returns (r: Outcome, rec: nat, remain: nat)
      requires Sane(env) && headOff < |aux| && oldOff < |aux| && rec0 + remain0 <= recs.Length
      requires headOff > oldOff ==> Whole(aux[oldOff..headOff])
      requires headOff <= oldOff ==> WholeRecords(aux[oldOff..]) && Whole(aux[..headOff])
      modifies recs
      ensures rec + remain <= recs.Length && Whole(Between(aux, headOff, oldOff))
      ensures r == Ending(converts, headOff > oldOff,
                          Fits(Packets(Between(aux, headOff, oldOff)), recs.Length, rec0, remain0))
      ensures r == Done ==>
        Decoded(recs[..], rec, remain)
        == ReadSegment(env, Between(aux, headOff, oldOff), Reading(Decoded(old(recs[..]), rec0, remain0), 1)).d
      ensures r == NoTime ==>
        Decoded(recs[..], rec, remain) == Unnamed(Between(aux, headOff, oldOff), Decoded(old(recs[..]), rec0, remain0))
    {
      hide Whole, Fits, ReadSegment, Unnamed;
      var size := ComputeAuxSize(|aux|, headOff, oldOff);
      if size > headOff {
        r, rec, remain := ReadWrapped(env, converts, aux, headOff, oldOff, recs, rec0, remain0);
      } else {
        var dummyIdx;
        r, dummyIdx, rec, remain := CoreAuxData(env, converts, aux, oldOff, size, 1, recs, rec0, remain0);
      }
    }

    /** CoreSpeData with the AUX data of positions prev .. head-1. */
    method CoreSpeData(env: Env, converts: bool, aux: Bytes, head: nat, recs: array<SpeRecord>, rec0: nat, remain0: nat)
      returns (r: Outcome, rec: nat, remain: nat)
      requires Valid() && Sane(env) && |aux| == mask + 1 && rec0 + remain0 <= recs.Length
      requires prev <= head <= prev + |aux|
      requires prev < head && head % |aux| > prev % |aux| ==> Whole(Window(aux, prev, head))
      requires prev < head && head % |aux| <= prev % |aux| ==>
                 WholeRecords(aux[prev % |aux|..]) && Whole(aux[..head % |aux|])
      modifies `prev, recs
      ensures r != OutOfRange ==> prev == head
      ensures old(prev) == head ==> r == Done && recs[..] == old(recs[..]) && rec == rec0 && remain == remain0
      ensures old(prev) < head ==>
                && Whole(Window(aux, old(prev), head)) && rec + remain <= recs.Length
                && r == Ending(converts, head % |aux| > old(prev) % |aux|,
                               Fits(Packets(Window(aux, old(prev), head)), recs.Length, rec0, remain0))
      ensures old(prev) < head && r == Done ==>
                Decoded(recs[..], rec, remain)
                == ReadSegment(env, Window(aux, old(prev), head), Reading(Decoded(old(recs[..]), rec0, remain0), 1)).d
      ensures old(prev) < head && r == NoTime ==>
                Decoded(recs[..], rec, remain)
                == Unnamed(Window(aux, old(prev), head), Decoded(old(recs[..]), rec0, remain0))
    {
      hide Whole, WholeRecords, Sane, Window, Between, BitAnd, Pow2, Packets, Fits, ReadSegment, Unnamed, Ending;
      r, rec, remain := Done, rec0, remain0;
      if prev == head { return; }
      var headOff, oldOff := BitAnd(head, mask), BitAnd(prev, mask);
      MaskIsRemainder(head, order);
      MaskIsRemainder(prev, order);
      BetweenIsWindow(aux, prev, head);
      r, rec, remain := ReadBetween(env, converts, aux, headOff, oldOff, recs, rec, remain);
      if r != OutOfRange {
        prev := head;
      }
    }
  }

  /** The bytes between two offsets of the buffer, around its end if need be. */
  function Between(aux: Bytes, headOff: nat, oldOff: nat): Bytes
    requires headOff < |aux| && oldOff < |aux|
  {
    if headOff > oldOff then aux[oldOff..headOff] else aux[oldOff..] + aux[..headOff]
  }

  lemma BetweenIsWindow(aux: Bytes, old_: nat, head: nat)
    requires |aux| > 0 && old_ < head <= old_ + |aux|
    ensures Between(aux, head % |aux|, old_ % |aux|) == Window(aux, old_, head)
    ensures head % |aux| > old_ % |aux| ==> aux[old_ % |aux|..head % |aux|] == Window(aux, old_, head)
  {
    SegmentsAreWindow(aux, old_, head);
  }

  /** How a read must end: two segments need the time conversion, and the records need their slots. */
  function Ending(converts: bool, single: bool, fits: bool): Outcome {
    if fits && converts then Done else if fits && single then NoTime else OutOfRange
  }

  /** The records of a segment, decoded only. */
  ghost function Unnamed(seg: Bytes, d: Progress): Progress
    requires Whole(seg)
  {
    WholeIsReadable(seg);
    GetRecords(seg, |seg|, d)
  }

  lemma SegmentMoves(env: Env, seg: Bytes, s: Reading)
    requires Sane(env) && Whole(seg)
    ensures Readable(seg, |seg|)
    ensures ReadSegment(env, seg, s).d.at == GetRecords(seg, |seg|, s.d).at
    ensures ReadSegment(env, seg, s).d.remain == GetRecords(seg, |seg|, s.d).remain
  {
    WholeIsReadable(seg);
  }

  /** The records a read of `seg` decodes. */
  ghost function NewRecords(seg: Bytes, d: Progress): seq<SpeRecord>
    requires Whole(seg)
  {
    Unnamed(seg, d).recs[d.at..Unnamed(seg, d).at]
  }

  /** After a read, every record of its bytes is named right. */
  lemma WindowIsNamed(env: Env, seg: Bytes, d: Progress, i: nat)
    requires Sane(env) && Whole(seg) && i < |NewRecords(seg, d)| && InOrder(env, NewRecords(seg, d))
    ensures var after := ReadSegment(env, seg, Reading(d, 1)).d;
            && after.at == d.at + |NewRecords(seg, d)|
            && NamedRight(env, NewRecords(seg, d), i, after.recs[d.at + i])
  {
    hide Whole, GetRecords, InOrder, NamedRight;
    var raw := NewRecords(seg, d);
    ScanIsNaive(env, raw, i);
    var after := ReadSegment(env, seg, Reading(d, 1)).d;
    assert after.recs[d.at + i] == Assign(env, 1, raw).0[i];
  }
}
