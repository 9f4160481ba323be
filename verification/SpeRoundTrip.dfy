/** What the SPE decoder promises about whole streams: a stream cut between records decodes like the
    uncut one, and decoding is the inverse of encoding. */
module SpeRoundTrip {
  import opened Words
  import opened LittleEndian
  import opened Framing
  import opened SpeDecoder

  /** `b` is a sequence of complete packets. */
  ghost predicate Whole(b: Bytes) { Framed(Length, b) }

  ghost function PktOf(c: Bytes): Packet
    requires IsChunk(Length, c)
  {
    GetPkt(c)
  }

  /** The packets of a framed byte sequence. */
  ghost function Packets(b: Bytes): seq<Packet>
    requires Whole(b)
  {
    ChunksAreChunks(Length, b);
    var cs := Chunks(Length, b);
    seq(|cs|, i requires 0 <= i < |cs| => PktOf(cs[i]))
  }

  lemma FirstPacket(b: Bytes)
    requires Whole(b) && b != []
    ensures Whole(b[Length(b[0])..]) && Packets(b) == [GetPkt(b)] + Packets(b[Length(b[0])..])
  {
    var n := Length(b[0]);
    ChunksAreChunks(Length, b);
    ChunksAreChunks(Length, b[n..]);
    assert b[..n][1..n] == b[1..n];
  }

  lemma FrontIsSame(b: Bytes, rest: Bytes, n: nat)
    requires 1 <= n <= |b|
    ensures (b + rest)[n..] == b[n..] + rest && (b + rest)[1..n] == b[1..n] && (b + rest)[0] == b[0]
  {
  }

  lemma WholeStarts(b: Bytes)
    requires Whole(b) && b != []
    ensures 1 <= Length(b[0]) <= |b|
  {
  }

  lemma NoPackets()
    ensures Whole([]) && Packets([]) == []
  {
  }

  /** Complete packets are decoded alike whatever follows them in memory. */
  lemma {:induction false} WholeIsReadableIn(b: Bytes, rest: Bytes)
    requires Whole(b)
    ensures Readable(b + rest, |b|) && Parse(b + rest, |b|) == Packets(b)
    decreases |b|
  {
    hide Whole, Packets, Length;
    if b == [] {
      NoPackets();
    } else {
      WholeStarts(b);
      FirstPacket(b);
      FrontIsSame(b, rest, Length(b[0]));
      WholeIsReadableIn(b[Length(b[0])..], rest);
    }
  }

  lemma WholeIsReadable(b: Bytes)
    requires Whole(b)
    ensures Readable(b, |b|) && Parse(b, |b|) == Packets(b)
  {
    WholeIsReadableIn(b, []);
    assert b + [] == b;
  }

  /** `b` is a sequence of complete packets of which the last one ends a record. */
  ghost predicate WholeRecords(b: Bytes) {
    Whole(b) && (Packets(b) != [] ==> EndsRecord(Packets(b)[|Packets(b)| - 1]))
  }

  lemma PacketsConcat(a: Bytes, c: Bytes)
    requires Whole(a) && Whole(c)
    ensures Whole(a + c) && Packets(a + c) == Packets(a) + Packets(c)
  {
    ChunksConcat(Length, a, c);
    ChunksAreChunks(Length, a);
    ChunksAreChunks(Length, c);
    ChunksAreChunks(Length, a + c);
  }

  lemma {:induction false} AdvanceConcat(ps: seq<Packet>, qs: seq<Packet>, d: Progress)
    ensures AdvanceAll(ps + qs, d) == AdvanceAll(qs, AdvanceAll(ps, d))
    decreases |ps|
  {
    if ps == [] {
      assert ps + qs == qs;
    } else {
      assert (ps + qs)[1..] == ps[1..] + qs;
      AdvanceConcat(ps[1..], qs, Advance(ps[0], d));
    }
  }

  ghost predicate Fresh(d: Progress) { d.at < |d.recs| ==> d.recs[d.at] == Reset(d.recs[d.at]) }

  /** After a packet that ends a record, or once the room is used up, the slot is freshly reset. */
  lemma {:induction false} EndLeavesFresh(ps: seq<Packet>, d: Progress)
    requires Fresh(d) && (ps != [] ==> EndsRecord(ps[|ps| - 1]))
    ensures Fresh(AdvanceAll(ps, d))
  {
    if ps != [] {
      var n := |ps| - 1;
      assert ps == ps[..n] + [ps[n]];
      AdvanceConcat(ps[..n], [ps[n]], d);
      var m := AdvanceAll(ps[..n], d);
      FullIsFresh(ps[..n], d);
      AdvanceSingle(ps[n], m);
    }
  }

  lemma {:induction false} FullIsFresh(ps: seq<Packet>, d: Progress)
    requires Fresh(d) || d.remain >= 1
    ensures AdvanceAll(ps, d).remain < 1 ==> Fresh(AdvanceAll(ps, d))
    decreases |ps|
  {
    if ps != [] { FullIsFresh(ps[1..], Advance(ps[0], d)); }
  }

  /** Two calls on the two parts leave the records, the position and the room of one call on both. */
  ghost predicate CutAgrees(a: Bytes, c: Bytes, d: Progress)
    requires Whole(a) && Whole(c)
  {
    WholeIsReadable(a);
    WholeIsReadable(c);
    PacketsConcat(a, c);
    WholeIsReadable(a + c);
    GetRecords(c, |c|, GetRecords(a, |a|, d)) == GetRecords(a + c, |a + c|, d)
  }

  /** A cut where the slot is freshly reset. */
  lemma FreshCut(a: Bytes, c: Bytes, d: Progress)
    requires Whole(a) && Whole(c) && Fresh(AdvanceAll(Packets(a), ResetSlot(d)))
    ensures CutAgrees(a, c, d)
  {
    PacketsConcat(a, c);
    WholeIsReadable(a);
    WholeIsReadable(c);
    WholeIsReadable(a + c);
    AdvanceConcat(Packets(a), Packets(c), ResetSlot(d));
    FreshIsOpened(AdvanceAll(Packets(a), ResetSlot(d)));
  }

  /** A cut does no harm, whatever follows, exactly when the first part leaves its slot freshly reset. */
  lemma CutAgreesIff(a: Bytes, d: Progress)
    requires Whole(a)
    ensures Readable(a, |a|)
    ensures (forall c :: Whole(c) ==> CutAgrees(a, c, d)) <==> Fresh(GetRecords(a, |a|, d))
  {
    WholeIsReadable(a);
    var m := GetRecords(a, |a|, d);
    if Fresh(m) {
      forall c | Whole(c)
        ensures CutAgrees(a, c, d)
      {
        FreshCut(a, c, d);
      }
    } else if forall c :: Whole(c) ==> CutAgrees(a, c, d) {
      NothingFollows(a, d);
      FreshIsOpened(m);
    }
  }

  lemma NothingFollows(a: Bytes, d: Progress)
    requires Whole(a)
    ensures Whole([]) && Readable(a, |a|)
    ensures CutAgrees(a, [], d) ==> ResetSlot(GetRecords(a, |a|, d)) == GetRecords(a, |a|, d)
  {
    WholeIsReadable(a);
    assert a + [] == a;
  }

  /** Two calls on the two halves of a stream cut at a record boundary give the records, the position and
      the remaining room of one call on the whole stream. */
  lemma TwoCallsAreOne(a: Bytes, c: Bytes, d: Progress)
    requires WholeRecords(a) && Whole(c)
    ensures Readable(a, |a|) && Readable(c, |c|) && Readable(a + c, |a + c|)
    ensures GetRecords(c, |c|, GetRecords(a, |a|, d)) == GetRecords(a + c, |a + c|, d)
  {
    PacketsConcat(a, c);
    WholeIsReadable(a);
    WholeIsReadable(c);
    WholeIsReadable(a + c);
    EndLeavesFresh(Packets(a), ResetSlot(d));
    FreshCut(a, c, d);
  }

  lemma FreshIsOpened(d: Progress)
    ensures Fresh(d) <==> ResetSlot(d) == d
  {
  }

  // ----- Encoding -----

  /** The values one SPE record carries. */
  datatype Sample = Sample(
    tid: u32, pc: u64, va: u64, pa: u64, lat: u16, event: u64, source: u16, op: byte, time: u64)

  ghost predicate Encodable(s: Sample) { s.pc < TWO56 && s.va < TWO56 && s.pa < TWO56 }

  ghost predicate AllEncodable(samples: seq<Sample>) {
    forall i :: 0 <= i < |samples| ==> Encodable(samples[i])
  }

  function Pkt(h: byte, payload: u64): Packet { Packet(KindOf(h), h, payload, Length(h)) }

  /** A packet with a payload of the size its header announces. */
  ghost predicate Sized(p: Packet) {
    p == Pkt(p.header, p.payload) && p.length > 1 && p.payload < Pow256(p.length - 1)
  }

  function EncodePkt(p: Packet): Bytes { [p.header] + Enc(p.payload, Length(p.header) - 1) }

  function EncodePkts(ps: seq<Packet>): Bytes {
    if ps == [] then [] else EncodePkt(ps[0]) + EncodePkts(ps[1..])
  }

  lemma PktOfEncode(p: Packet)
    requires Sized(p)
    ensures |EncodePkt(p)| == p.length && GetPkt(EncodePkt(p)) == p
  {
    assert EncodePkt(p)[1..p.length] == Enc(p.payload, p.length - 1);
    DecEnc(p.payload, p.length - 1);
  }

  lemma PacketIsChunk(p: Packet)
    requires Sized(p)
    ensures IsChunk(Length, EncodePkt(p)) && PktOf(EncodePkt(p)) == p
  {
    PktOfEncode(p);
  }

  /** The packets come back from their bytes. */
  lemma PacketsOfEncode(ps: seq<Packet>)
    requires forall i :: 0 <= i < |ps| ==> Sized(ps[i])
    ensures Whole(EncodePkts(ps)) && Packets(EncodePkts(ps)) == ps
  {
    hide EncodePkt, EncodePkts, Sized, Joined, Framed, Chunks, IsChunk, PktOf;
    EncodeIsJoined(ps);
    var cs := seq(|ps|, i requires 0 <= i < |ps| => EncodePkt(ps[i]));
    forall i | 0 <= i < |ps|
      ensures IsChunk(Length, cs[i]) && PktOf(cs[i]) == ps[i]
    {
      PacketIsChunk(ps[i]);
    }
    ChunksOfJoined(Length, cs);
  }

  lemma {:induction false} EncodeIsJoined(ps: seq<Packet>)
    ensures EncodePkts(ps) == Joined(seq(|ps|, i requires 0 <= i < |ps| => EncodePkt(ps[i])))
    decreases |ps|
  {
    if ps != [] {
      EncodeIsJoined(ps[1..]);
      var cs := seq(|ps|, i requires 0 <= i < |ps| => EncodePkt(ps[i]));
      assert cs[1..] == seq(|ps[1..]|, i requires 0 <= i < |ps[1..]| => EncodePkt(ps[1..][i]));
    }
  }

  function SamplePackets(s: Sample): seq<Packet> {
    Body(s) + [Pkt(0x71, s.time)]
  }

  function AllPackets(samples: seq<Sample>): seq<Packet> {
    if samples == [] then [] else SamplePackets(samples[0]) + AllPackets(samples[1..])
  }

  /** The record a sample must decode to. */
  function Expected(s: Sample, cpu: int): SpeRecord
    requires s.pc < TWO56 && s.va < TWO56
  {
    SpeRecord(s.event, MINUS_ONE64, s.tid, cpu, FixupTopByte(s.va), s.pa, s.time, FixupTopByte(s.pc),
              s.lat, s.source, DecodeOpTypeToMask(0x49, s.op))
  }

  ghost function ExpectedAt(samples: seq<Sample>, i: nat, cpu: int): SpeRecord
    requires i < |samples| && AllEncodable(samples)
  {
    Expected(samples[i], cpu)
  }

  lemma Headers()
    ensures Length(0x64) == 5 && Length(0xB0) == 9 && Length(0xB2) == 9 && Length(0xB3) == 9 && Length(0x98) == 3
    ensures Length(0x72) == 9 && Length(0x53) == 3 && Length(0x49) == 2 && Length(0x71) == 9
  {
  }

  lemma SizedPkt(h: byte, payload: u64, width: nat)
    requires Length(h) == width + 1 && width >= 1 && payload < Pow256(width)
    ensures Sized(Pkt(h, payload))
  {
  }

  lemma OneSampleSized(s: Sample)
    requires Encodable(s)
    ensures forall i :: 0 <= i < |SamplePackets(s)| ==> Sized(SamplePackets(s)[i])
  {
    Widths();
    Headers();
    SizedPkt(0x64, s.tid, 4);
    SizedPkt(0xB0, s.pc, 8);
    SizedPkt(0xB2, s.va, 8);
    SizedPkt(0xB3, s.pa, 8);
    SizedPkt(0x98, s.lat, 2);
    SizedPkt(0x72, s.event, 8);
    SizedPkt(0x53, s.source, 2);
    SizedPkt(0x49, s.op, 1);
    SizedPkt(0x71, s.time, 8);
  }

  lemma {:induction false} SamplePacketsSized(samples: seq<Sample>)
    requires AllEncodable(samples)
    ensures forall i :: 0 <= i < |AllPackets(samples)| ==> Sized(AllPackets(samples)[i])
    decreases |samples|
  {
    if samples != [] {
      SamplePacketsSized(samples[1..]);
      OneSampleSized(samples[0]);
    }
  }

  ghost function Fold(ps: seq<Packet>, r: SpeRecord): SpeRecord {
    if ps == [] then r else Fold(ps[1..], DecodePkt(ps[0], r))
  }

  /** A record that has no packet for a field says so: -1 for the thread, the data source and the operation, and always
      for the process. */
  lemma {:induction false} AbsentFields(ps: seq<Packet>, r: SpeRecord)
    ensures var t := Fold(ps, Reset(r));
            && t.pid == TWO64 - 1
            && ((forall p :: p in ps ==> !p.kind.Context?) ==> t.tid == TWO64 - 1)
            && ((forall p :: p in ps ==> !p.kind.DataSource?) ==> t.source == 0xFFFF)
            && ((forall p :: p in ps ==> !p.kind.OpType?) ==> t.opType == TWO32 - 1)
  {
    FoldKeeps(ps, Reset(r));
  }

  lemma {:induction false} FoldKeeps(ps: seq<Packet>, r: SpeRecord)
    ensures Fold(ps, r).pid == r.pid
    ensures (forall p :: p in ps ==> !p.kind.Context?) ==> Fold(ps, r).tid == r.tid
    ensures (forall p :: p in ps ==> !p.kind.DataSource?) ==> Fold(ps, r).source == r.source
    ensures (forall p :: p in ps ==> !p.kind.OpType?) ==> Fold(ps, r).opType == r.opType
    decreases |ps|
  {
    if ps != [] {
      PacketFields(ps[0], r);
      assert ps[0] in ps;
      FoldKeeps(ps[1..], DecodePkt(ps[0], r));
      hide DecodePkt;
    }
  }

  /** Packets that end no record fold into the current slot. */
  lemma {:induction false} AdvanceFolds(ps: seq<Packet>, d: Progress)
    requires d.remain >= 1 && forall p :: p in ps ==> !EndsRecord(p)
    ensures AdvanceAll(ps, d) == d.(recs := d.recs[d.at := Fold(ps, d.recs[d.at])])
    decreases |ps|
  {
    if ps == [] {
      assert d.recs[d.at := d.recs[d.at]] == d.recs;
    } else {
      assert ps[0] in ps;
      var next := Advance(ps[0], d);
      AdvanceFolds(ps[1..], next);
      assert next.recs[d.at := Fold(ps[1..], next.recs[d.at])] == d.recs[d.at := Fold(ps, d.recs[d.at])];
    }
  }

  lemma FoldFour(a: Packet, b: Packet, c: Packet, d: Packet, rest: seq<Packet>, r: SpeRecord)
    ensures Fold([a, b, c, d] + rest, r) == Fold(rest, DecodePkt(d, DecodePkt(c, DecodePkt(b, DecodePkt(a, r)))))
  {
    hide Fold, DecodePkt;
    FoldTwo(a, b, [c, d] + rest, r);
    FoldTwo(c, d, rest, DecodePkt(b, DecodePkt(a, r)));
    assert [a, b, c, d] + rest == [a, b] + ([c, d] + rest);
  }

  lemma FoldTwo(a: Packet, b: Packet, rest: seq<Packet>, r: SpeRecord)
    ensures Fold([a, b] + rest, r) == Fold(rest, DecodePkt(b, DecodePkt(a, r)))
  {
    hide Fold, DecodePkt;
    FoldCons(a, [b] + rest, r);
    FoldCons(b, rest, DecodePkt(a, r));
    assert [a, b] + rest == [a] + ([b] + rest);
  }

  lemma FoldCons(p: Packet, rest: seq<Packet>, r: SpeRecord)
    ensures Fold([p] + rest, r) == Fold(rest, DecodePkt(p, r))
  {
    assert ([p] + rest)[1..] == rest;
  }

  /** The first eight packets of a sample. */
  function Body(s: Sample): seq<Packet> {
    [Pkt(0x64, s.tid), Pkt(0xB0, s.pc), Pkt(0xB2, s.va), Pkt(0xB3, s.pa)] +
    [Pkt(0x98, s.lat), Pkt(0x72, s.event), Pkt(0x53, s.source), Pkt(0x49, s.op)]
  }

  lemma FoldOfSample(s: Sample, r: SpeRecord)
    requires Encodable(s) && r == Reset(r)
    ensures DecodePkt(Pkt(0x71, s.time), Fold(Body(s), r)) == Expected(s, r.cpu)
  {
    FoldFour(Pkt(0x64, s.tid), Pkt(0xB0, s.pc), Pkt(0xB2, s.va), Pkt(0xB3, s.pa),
             [Pkt(0x98, s.lat), Pkt(0x72, s.event), Pkt(0x53, s.source), Pkt(0x49, s.op)], r);
    var half := DecodePkt(Pkt(0xB3, s.pa),
                  DecodePkt(Pkt(0xB2, s.va), DecodePkt(Pkt(0xB0, s.pc), DecodePkt(Pkt(0x64, s.tid), r))));
    assert half == r.(tid := s.tid, pc := FixupTopByte(s.pc), va := FixupTopByte(s.va), pa := s.pa) by {
      FirstHalf(s, r);
    }
    FoldFour(Pkt(0x98, s.lat), Pkt(0x72, s.event), Pkt(0x53, s.source), Pkt(0x49, s.op), [], half);
    SecondHalf(s, half);
    assert [Pkt(0x98, s.lat), Pkt(0x72, s.event), Pkt(0x53, s.source), Pkt(0x49, s.op)] + []
        == [Pkt(0x98, s.lat), Pkt(0x72, s.event), Pkt(0x53, s.source), Pkt(0x49, s.op)];
  }

  lemma FirstHalf(s: Sample, r: SpeRecord)
    requires Encodable(s)
    ensures DecodePkt(Pkt(0xB3, s.pa),
              DecodePkt(Pkt(0xB2, s.va), DecodePkt(Pkt(0xB0, s.pc), DecodePkt(Pkt(0x64, s.tid), r))))
            == r.(tid := s.tid, pc := FixupTopByte(s.pc), va := FixupTopByte(s.va), pa := s.pa)
  {
  }

  lemma SecondHalf(s: Sample, r: SpeRecord)
    ensures DecodePkt(Pkt(0x71, s.time),
              DecodePkt(Pkt(0x49, s.op),
                DecodePkt(Pkt(0x53, s.source), DecodePkt(Pkt(0x72, s.event), DecodePkt(Pkt(0x98, s.lat), r)))))
            == r.(lat := s.lat, event := s.event, source := s.source, opType := DecodeOpTypeToMask(0x49, s.op),
                  timestamp := s.time)
  {
  }

  /** Decoding one sample's packets fills one slot and starts the next. */
  lemma AdvanceSample(s: Sample, d: Progress)
    requires Encodable(s) && d.remain >= 1 && Fresh(d)
    ensures AdvanceAll(SamplePackets(s), d)
            == Decoded(Opened(d.recs[d.at := Expected(s, d.recs[d.at].cpu)], d.at + 1), d.at + 1, d.remain - 1)
  {
    hide Body, Fold, Expected, DecodePkt, EndsRecord, AdvanceAll, Pkt, Reset;
    var r, stamp := d.recs[d.at], Pkt(0x71, s.time);
    AdvanceConcat(Body(s), [stamp], d);
    BodyEndsNothing(s);
    AdvanceFolds(Body(s), d);
    var m := AdvanceAll(Body(s), d);
    AdvanceSingle(stamp, m);
    FoldOfSample(s, r);
    assert m.recs[d.at := Expected(s, r.cpu)] == d.recs[d.at := Expected(s, r.cpu)];
  }

  lemma BodyEndsNothing(s: Sample)
    ensures forall p :: p in Body(s) ==> !EndsRecord(p)
    ensures EndsRecord(Pkt(0x71, s.time))
  {
  }

  /** The slots after decoding whole samples: `d.recs` with the samples' records written over it. */
  lemma {:induction false} AdvanceSamples(samples: seq<Sample>, d: Progress, i: nat)
    requires AllEncodable(samples)
    requires |samples| <= d.remain && i < |d.recs| && Fresh(d)
    ensures var r := AdvanceAll(AllPackets(samples), d);
            && r.at == d.at + |samples| && r.remain == d.remain - |samples|
            && (d.at <= i < r.at ==> r.recs[i] == ExpectedAt(samples, i - d.at, d.recs[i].cpu))
            && (i < d.at || i > r.at ==> r.recs[i] == d.recs[i])
    decreases |samples|
  {
    hide SamplePackets, Expected, Advance, Body, Encodable;
    if samples != [] {
      AdvanceConcat(SamplePackets(samples[0]), AllPackets(samples[1..]), d);
      AdvanceSample(samples[0], d);
      AdvanceSamples(samples[1..], AdvanceAll(SamplePackets(samples[0]), d), i);
    }
  }

  /** Every sample that fits comes back from the encoded bytes, in order, in its own slot; the other slots
      keep their contents. */
  lemma DecodeOfEncode(samples: seq<Sample>, d: Progress, i: nat)
    requires AllEncodable(samples)
    requires |samples| <= d.remain && i < |d.recs|
    ensures var b := EncodePkts(AllPackets(samples));
            && Readable(b, |b|)
            && var r := GetRecords(b, |b|, d);
               && r.at == d.at + |samples| && r.remain == d.remain - |samples|
               && (d.at <= i < r.at ==> r.recs[i] == ExpectedAt(samples, i - d.at, d.recs[i].cpu))
               && (i < d.at || i > r.at ==> r.recs[i] == d.recs[i])
  {
    hide Readable, EncodePkts, AllPackets, AllEncodable, GetRecords, AdvanceAll, ExpectedAt;
    EncodeDecodes(samples, d);
    AdvanceSamples(samples, ResetSlot(d), i);
  }

  lemma EncodeDecodes(samples: seq<Sample>, d: Progress)
    requires AllEncodable(samples)
    ensures var b := EncodePkts(AllPackets(samples));
            Readable(b, |b|) && GetRecords(b, |b|, d) == AdvanceAll(AllPackets(samples), ResetSlot(d))
  {
    SamplePacketsSized(samples);
    PacketsOfEncode(AllPackets(samples));
    WholeIsReadable(EncodePkts(AllPackets(samples)));
  }

  /** A cut inside a record loses the context packet read before it: the thread id becomes -1. */
  lemma CutInsideRecord(tid: u32, time: u64, d: Progress)
    requires d.remain >= 1
    ensures var a, c := EncodePkts([Pkt(0x64, tid)]), EncodePkts([Pkt(0x71, time)]);
            && Whole(a) && Whole(c) && Readable(a, |a|) && Readable(c, |c|) && Readable(a + c, |a + c|)
            && GetRecords(a + c, |a + c|, d).recs[d.at].tid == tid
            && GetRecords(c, |c|, GetRecords(a, |a|, d)).recs[d.at].tid == MINUS_ONE64
  {
    Widths();
    Headers();
    var context, stamp := Pkt(0x64, tid), Pkt(0x71, time);
    SizedPkt(0x64, tid, 4);
    SizedPkt(0x71, time, 8);
    PacketsOfEncode([context]);
    PacketsOfEncode([stamp]);
    var a, c := EncodePkts([context]), EncodePkts([stamp]);
    PacketsConcat(a, c);
    WholeIsReadable(a);
    WholeIsReadable(c);
    WholeIsReadable(a + c);
    CutLosesTid(tid, time, d);
  }

  lemma CutLosesTid(tid: u32, time: u64, d: Progress)
    requires d.remain >= 1
    ensures var ps, qs := [Pkt(0x64, tid)], [Pkt(0x71, time)];
            && AdvanceAll(ps + qs, ResetSlot(d)).recs[d.at].tid == tid
            && AdvanceAll(qs, ResetSlot(AdvanceAll(ps, ResetSlot(d)))).recs[d.at].tid == MINUS_ONE64
  {
    var context, stamp := Pkt(0x64, tid), Pkt(0x71, time);
    AdvanceConcat([context], [stamp], ResetSlot(d));
    AdvanceSingle(context, ResetSlot(d));
    var m := Advance(context, ResetSlot(d));
    AdvanceSingle(stamp, m);
    AdvanceSingle(stamp, ResetSlot(m));
  }

  lemma AdvanceSingle(p: Packet, d: Progress)
    ensures AdvanceAll([p], d) == Advance(p, d)
  {
    assert [p][1..] == [];
  }
}
