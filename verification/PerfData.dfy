/**
  Record writing of the perf.data dumper: fields and entries go into a block in place, at offsets that must add up to
  the size in its header.
*/
module PerfData {
  import opened Words
  import opened LittleEndian
  import opened PerfLayout

  // ----- Writing in place -----

  /** `s` with the bytes from `at` on replaced by `b`. */
  function Overwrite(s: seq<byte>, at: nat, b: seq<byte>): (r: seq<byte>)
    requires at + |b| <= |s|
    ensures |r| == |s|
  {
    s[..at] + b + s[at + |b|..]
  }

  lemma OverwriteTwice(s: seq<byte>, at: nat, a: seq<byte>, b: seq<byte>)
    requires at + |a| + |b| <= |s|
    ensures Overwrite(Overwrite(s, at, a), at + |a|, b) == Overwrite(s, at, a + b)
  {
  }

  lemma OverwriteSame(s: seq<byte>, at: nat, n: nat)
    requires at + n <= |s|
    ensures Overwrite(s, at, s[at..at + n]) == s
  {
  }

  lemma OverwriteBeyond(s: seq<byte>, at: nat, b: seq<byte>, n: nat)
    requires at + |b| + n <= |s|
    ensures Overwrite(s, at, b)[at + |b|..at + |b| + n] == s[at + |b|..at + |b| + n]
  {
  }

  method Put(buffer: array<byte>, at: nat, b: seq<byte>)
    requires at + |b| <= buffer.Length
    modifies buffer
    ensures buffer[..] == Overwrite(old(buffer[..]), at, b)
  {
    for i := 0 to |b|
      invariant buffer[..at] == old(buffer[..at]) && buffer[at..at + i] == b[..i]
      invariant buffer[at + i..] == old(buffer[at + i..])
    {
      buffer[at + i] := b[i];
    }
  }

  lemma {:induction false} EncDec(b: seq<byte>)
    ensures Enc(Dec(b), |b|) == b
  {
    if b != [] {
      var low: int := b[0];
      RemainderUnique(Dec(b), 256, Dec(b[1..]), low);
      EncDec(b[1..]);
    }
  }

  // ----- Samples -----

  /** The fields of a sample body after the address. */
  function AfterIp(d: PmuData, id: u64): (b: seq<byte>)
    ensures |b| == 40
  {
    Pack([d.pid, d.tid, d.ts, id, d.period, |d.branches|], [4, 4, 8, 8, 8, 8])
  }

  lemma BodySplit(d: PmuData, id: u64, ip: nat)
    ensures SampleBody(d, id, ip) == Enc(if d.ip.Some? then d.ip.value else ip, 8) + AfterIp(d, id)
  {
    assert BodyFields(d, id, ip)[1..] == [d.pid, d.tid, d.ts, id, d.period, |d.branches|];
    assert BODY[1..] == [4, 4, 8, 8, 8, 8];
  }

  /** The header and fixed fields of WritePmuData; the address only when there is a symbol. */
  method WriteFixed(buffer: array<byte>, at: nat, d: PmuData, id: u64)
    requires at + SAMPLE_SIZE <= buffer.Length
    modifies buffer
    ensures buffer[..] == Overwrite(old(buffer[..]), at,
                                    SampleHead(d) + SampleBody(d, id, Dec(old(buffer[at + 8..at + 16]))))
  {
    hide SampleHead, SampleBody, AfterIp, Overwrite, Enc, Dec;
    ghost var s, was := buffer[..], buffer[at + 8..at + 16];
    BodySplit(d, id, Dec(was));
    Put(buffer, at, SampleHead(d));
    OverwriteBeyond(s, at, SampleHead(d), 8);
    ghost var ip := Enc(if d.ip.Some? then d.ip.value else Dec(was), 8);
    if d.ip.Some? {
      Put(buffer, at + 8, Enc(d.ip.value, 8));
    } else {
      EncDec(was);
      OverwriteSame(buffer[..], at + 8, 8);
    }
    OverwriteTwice(s, at, SampleHead(d), ip);
    assert buffer[..] == Overwrite(s, at, SampleHead(d) + ip);
    Put(buffer, at + 16, AfterIp(d, id));
    OverwriteTwice(s, at, SampleHead(d) + ip, AfterIp(d, id));
    assert (SampleHead(d) + ip) + AfterIp(d, id) == SampleHead(d) + (ip + AfterIp(d, id));
  }

  /** `s` with the first `i` entries of `bs` written from `at` on. */
  ghost function Entries(s: seq<byte>, at: nat, bs: seq<Branch>, i: nat): (r: seq<byte>)
    requires i <= |bs| && at + ENTRY_SIZE * i <= |s|
    ensures |r| == |s|
  {
    Overwrite(s, at, EntriesBytes(bs[..i], s[at..at + ENTRY_SIZE * i]))
  }

  lemma EntriesStep(s: seq<byte>, at: nat, bs: seq<Branch>, i: nat)
    requires i < |bs| && at + ENTRY_SIZE * (i + 1) <= |s|
    ensures var p := at + ENTRY_SIZE * i;
            var was := s[p..p + ENTRY_SIZE];
            && Entries(s, at, bs, i)[p..p + ENTRY_SIZE] == was
            && Overwrite(Entries(s, at, bs, i), p, EntryBytes(bs[i], was)) == Entries(s, at, bs, i + 1)
  {
    hide Overwrite, EntryBytes, EntriesBytes;
    var p := at + ENTRY_SIZE * i;
    var was, done := s[p..p + ENTRY_SIZE], EntriesBytes(bs[..i], s[at..p]);
    OverwriteBeyond(s, at, done, ENTRY_SIZE);
    OverwriteTwice(s, at, done, EntryBytes(bs[i], was));
    EntriesAppend(bs[..i], bs[i], s[at..p], was);
    assert bs[..i + 1] == bs[..i] + [bs[i]] && s[at..p + ENTRY_SIZE] == s[at..p] + was;
  }

  lemma NoEntries(s: seq<byte>, at: nat, bs: seq<Branch>)
    requires at <= |s|
    ensures Entries(s, at, bs, 0) == s
  {
    hide Overwrite;
    OverwriteSame(s, at, 0);
    assert bs[..0] == [] && s[at..at] == [];
  }

  lemma AllEntries(s: seq<byte>, at: nat, bs: seq<Branch>)
    requires at + ENTRY_SIZE * |bs| <= |s|
    ensures Entries(s, at, bs, |bs|) == Overwrite(s, at, EntriesBytes(bs, s[at..at + ENTRY_SIZE * |bs|]))
  {
    hide Overwrite, EntriesBytes;
    assert bs[..|bs|] == bs;
  }

  /** The branch entries of WritePmuData: each assigned over the bytes already there. */
  method WriteEntries(buffer: array<byte>, at: nat, bs: seq<Branch>)
    requires at + ENTRY_SIZE * |bs| <= buffer.Length
    modifies buffer
    ensures buffer[..] == Overwrite(old(buffer[..]), at, EntriesBytes(bs, old(buffer[at..at + ENTRY_SIZE * |bs|])))
  {
    hide Overwrite, EntryBytes, EntriesBytes, Entries;
    ghost var s := buffer[..];
    NoEntries(s, at, bs);
    AllEntries(s, at, bs);
    for i := 0 to |bs|
      invariant buffer[..] == Entries(s, at, bs, i)
    {
      EntriesStep(s, at, bs, i);
      var p := at + ENTRY_SIZE * i;
      ghost var now := buffer[..];
      assert buffer[p..p + ENTRY_SIZE] == now[p..p + ENTRY_SIZE];
      Put(buffer, p, EntryBytes(bs[i], buffer[p..p + ENTRY_SIZE]));
    }
    assert s[at..at + ENTRY_SIZE * |bs|] == old(buffer[at..at + ENTRY_SIZE * |bs|]);
  }

  /** WritePmuData: the record of `d`; the offset moves on by the size its header gives. */
  method WritePmuData(buffer: array<byte>, at: nat, d: PmuData, id: u64) returns (next: nat)
    requires at + RecordSize(d) <= buffer.Length
    modifies buffer
    ensures buffer[..] == Overwrite(old(buffer[..]), at, SampleBytes(d, id, old(buffer[at..at + RecordSize(d)])))
    ensures next == at + RecordSize(d) % 0x1_0000
  {
    hide SampleHead, SampleBody, Overwrite, EntriesBytes, Dec;
    ghost var s, was := buffer[..], buffer[at..at + RecordSize(d)];
    assert was[8..16] == s[at + 8..at + 16];
    WriteFixed(buffer, at, d, id);
    ghost var fixed := SampleHead(d) + SampleBody(d, id, Dec(was[8..16]));
    OverwriteBeyond(s, at, fixed, ENTRY_SIZE * |d.branches|);
    assert was[SAMPLE_SIZE..] == s[at + SAMPLE_SIZE..at + RecordSize(d)];
    WriteEntries(buffer, at + SAMPLE_SIZE, d.branches);
    ghost var entries := EntriesBytes(d.branches, was[SAMPLE_SIZE..]);
    OverwriteTwice(s, at, fixed, entries);
    assert fixed + entries == SampleHead(d) + (SampleBody(d, id, Dec(was[8..16])) + entries);
    next := at + RecordSize(d) % 0x1_0000;
  }

  // ----- A batch of samples -----

  /** GetPmuDataSize. */
  function TotalSize(data: seq<PmuData>): nat {
    if data == [] then 0 else TotalSize(data[..|data| - 1]) + RecordSize(data[|data| - 1])
  }

  /** Where the offset ends up: the sum of the sizes as the headers give them. */
  function EndOffset(data: seq<PmuData>): nat {
    if data == [] then 0 else EndOffset(data[..|data| - 1]) + RecordSize(data[|data| - 1]) % 0x1_0000
  }

  /** The records fill the buffer exactly when every one has at most 2728 branch entries. */
  lemma {:induction false} FillsIff(data: seq<PmuData>)
    ensures EndOffset(data) <= TotalSize(data)
    ensures EndOffset(data) == TotalSize(data) <==> AllFit(data)
  {
    if data != [] {
      var init, last := data[..|data| - 1], data[|data| - 1];
      FillsIff(init);
      assert RecordSize(last) % 0x1_0000 == RecordSize(last) <==> |last.branches| <= MAX_BRANCHES;
      assert AllFit(data) <==> AllFit(init) && |last.branches| <= MAX_BRANCHES by {
        assert data == init + [last];
      }
    }
  }

  lemma {:induction false} TotalPrefix(data: seq<PmuData>, i: nat)
    requires i <= |data|
    ensures TotalSize(data[..i]) <= TotalSize(data)
  {
    if i < |data| {
      var init := data[..|data| - 1];
      assert init[..i] == data[..i];
      TotalPrefix(init, i);
    } else {
      assert data[..i] == data;
    }
  }

  /** evt2id[evt]: an event that was not opened gets 0. */
  function IdOf(ids: map<string, u64>, evt: string): u64 {
    if evt in ids then ids[evt] else 0
  }

  /** A reader takes record `b` for sample `d` with event number `id`. */
  ghost predicate IsRecordOf(b: seq<byte>, d: PmuData, id: u64) {
    FramedRecord(b) && ReadSample(b).Some? && Tells(ReadSample(b).value, d, id)
  }

  ghost predicate AreRecordsOf(bs: seq<seq<byte>>, data: seq<PmuData>, ids: map<string, u64>) {
    |bs| == |data| && forall k :: 0 <= k < |bs| ==> IsRecordOf(bs[k], data[k], IdOf(ids, data[k].evt))
  }

  lemma IsRecord(d: PmuData, id: u64, was: seq<byte>)
    requires |was| == RecordSize(d) && |d.branches| <= MAX_BRANCHES
    ensures IsRecordOf(SampleBytes(d, id, was), d, id)
  {
    hide SampleBytes, ReadSample, FramedRecord, Tells;
    ReadSampleBytes(d, id, was);
    SampleFramedIff(d, id, was);
  }

  lemma FrontOfOverwrite(s: seq<byte>, at: nat, b: seq<byte>)
    requires at + |b| <= |s|
    ensures Overwrite(s, at, b)[..at + |b|] == s[..at] + b
  {
  }

  ghost function EventsOf(data: seq<PmuData>): set<string> { set d | d in data :: d.evt }

  lemma EventsStep(data: seq<PmuData>, i: nat)
    requires i < |data|
    ensures EventsOf(data[..i + 1]) == EventsOf(data[..i]) + {data[i].evt}
  {
    assert data[..i + 1] == data[..i] + [data[i]];
  }

  /** The loop of Dump over the samples: the records one after the other, when they all fit. */
  method Fill(buffer: array<byte>, data: seq<PmuData>, ids0: map<string, u64>)
    returns (offset: nat, ids: map<string, u64>, ghost bs: seq<seq<byte>>)
    requires buffer.Length == TotalSize(data)
    modifies buffer
    ensures offset == EndOffset(data) && ids.Keys == ids0.Keys + EventsOf(data)
    ensures forall e :: IdOf(ids, e) == IdOf(ids0, e)
    ensures AllFit(data) ==> buffer[..] == Concat(bs) && AreRecordsOf(bs, data, ids0)
  {
    hide AreRecordsOf, Concat, SampleBytes, Overwrite, TotalSize, EndOffset, AllFit, RecordSize, EventsOf;
    ids, bs, offset := ids0, [], 0;
    StartFill(data, ids0);
    for i := 0 to |data|
      invariant ids.Keys == ids0.Keys + EventsOf(data[..i])
      invariant forall e :: IdOf(ids, e) == IdOf(ids0, e)
      invariant offset == EndOffset(data[..i]) <= TotalSize(data[..i]) <= buffer.Length
      invariant AllFit(data) ==>
                  offset == TotalSize(data[..i]) && buffer[..offset] == Concat(bs) && AreRecordsOf(bs, data[..i], ids0)
    {
      var d := data[i];
      var id := IdOf(ids, d.evt);
      ids := ids[d.evt := id];
      SizesStep(data, i);
      EventsStep(data, i);
      ghost var s, was := buffer[..], buffer[offset..offset + RecordSize(d)];
      ghost var next := offset + RecordSize(d);
      offset := WritePmuData(buffer, offset, d, id);
      if AllFit(data) {
        FillStep(s, buffer[..], data, i, ids0, bs, was);
        bs := bs + [SampleBytes(d, id, was)];
        assert offset == next;
      }
    }
    assert data[..|data|] == data;
    assert buffer[..] == buffer[..buffer.Length];
  }

  lemma StartFill(data: seq<PmuData>, ids: map<string, u64>)
    ensures data[..0] == [] && EndOffset([]) == TotalSize([]) == 0 && Concat([]) == [] && AreRecordsOf([], [], ids)
    ensures EventsOf([]) == {}
  {
  }

  lemma SizesStep(data: seq<PmuData>, i: nat)
    requires i < |data|
    ensures TotalSize(data[..i + 1]) == TotalSize(data[..i]) + RecordSize(data[i]) <= TotalSize(data)
    ensures EndOffset(data[..i + 1]) == EndOffset(data[..i]) + RecordSize(data[i]) % 0x1_0000
    ensures EndOffset(data[..i + 1]) <= TotalSize(data[..i + 1])
    ensures AllFit(data) ==> RecordSize(data[i]) % 0x1_0000 == RecordSize(data[i])
  {
    hide RecordSize, TotalSize, EndOffset;
    FieldFits(data[i]);
    assert data[..i + 1] == data[..i] + [data[i]];
    SizesSnoc(data[..i], data[i]);
    TotalPrefix(data, i + 1);
    FillsIff(data[..i + 1]);
  }

  lemma SizesSnoc(data: seq<PmuData>, d: PmuData)
    ensures TotalSize(data + [d]) == TotalSize(data) + RecordSize(d)
    ensures EndOffset(data + [d]) == EndOffset(data) + RecordSize(d) % 0x1_0000
  {
    hide RecordSize;
    assert (data + [d])[..|data|] == data;
  }

  lemma FieldFits(d: PmuData)
    ensures |d.branches| <= MAX_BRANCHES ==> RecordSize(d) % 0x1_0000 == RecordSize(d)
  {
  }

  lemma FillStep(s: seq<byte>, s1: seq<byte>, data: seq<PmuData>, i: nat, ids: map<string, u64>,
                 bs: seq<seq<byte>>, was: seq<byte>)
    requires AllFit(data) && i < |data| && |was| == RecordSize(data[i])
    requires var at := TotalSize(data[..i]);
             && at + RecordSize(data[i]) <= |s| && s[..at] == Concat(bs) && AreRecordsOf(bs, data[..i], ids)
             && s1 == Overwrite(s, at, SampleBytes(data[i], IdOf(ids, data[i].evt), was))
    ensures var b, at := SampleBytes(data[i], IdOf(ids, data[i].evt), was), TotalSize(data[..i]) + RecordSize(data[i]);
            at <= |s1| && s1[..at] == Concat(bs + [b]) && AreRecordsOf(bs + [b], data[..i + 1], ids)
  {
    hide IsRecordOf, Concat, SampleBytes, Overwrite;
    var d, id := data[i], IdOf(ids, data[i].evt);
    var b := SampleBytes(d, id, was);
    IsRecord(d, id, was);
    FrontOfOverwrite(s, TotalSize(data[..i]), b);
    ConcatAppend(bs, [b]);
    ConcatOne(b);
  }
}
