/**
  The layout of a perf.data file: structures of fixed-width little-endian fields, records framed by the size
  in their header, sample records with their branch entries, and the file header.
*/
module PerfLayout {
  import opened Words
  import opened LittleEndian

  // ----- Structures -----

  function Sum(ws: seq<nat>): nat {
    if ws == [] then 0 else ws[0] + Sum(ws[1..])
  }

  /** The bytes of a structure with fields `vs` of widths `ws`. */
  function Pack(vs: seq<nat>, ws: seq<nat>): (b: seq<byte>)
    requires |vs| == |ws|
    ensures |b| == Sum(ws)
  {
    if ws == [] then [] else Enc(vs[0], ws[0]) + Pack(vs[1..], ws[1..])
  }

  /** The fields of the structure at the start of `b`. */
  function Unpack(b: seq<byte>, ws: seq<nat>): (vs: seq<nat>)
    requires |b| >= Sum(ws)
    ensures |vs| == |ws|
  {
    if ws == [] then [] else [Dec(b[..ws[0]])] + Unpack(b[ws[0]..], ws[1..])
  }

  ghost predicate Fit(vs: seq<nat>, ws: seq<nat>) {
    |vs| == |ws| && forall i :: 0 <= i < |ws| ==> vs[i] < Pow256(ws[i])
  }

  lemma UnpackFirst(first: seq<byte>, rest: seq<byte>, ws: seq<nat>)
    requires ws != [] && |first| == ws[0] && |rest| >= Sum(ws[1..])
    ensures |first + rest| >= Sum(ws) && Unpack(first + rest, ws) == [Dec(first)] + Unpack(rest, ws[1..])
  {
    hide Dec;
    assert (first + rest)[..ws[0]] == first && (first + rest)[ws[0]..] == rest;
  }

  lemma {:induction false} UnpackPack(vs: seq<nat>, ws: seq<nat>, tail: seq<byte>)
    requires Fit(vs, ws)
    ensures |Pack(vs, ws) + tail| >= Sum(ws) && Unpack(Pack(vs, ws) + tail, ws) == vs
  {
    hide Enc, Dec, Pow256, Unpack;
    if ws != [] {
      var first, rest := Enc(vs[0], ws[0]), Pack(vs[1..], ws[1..]) + tail;
      assert Pack(vs, ws) + tail == first + rest;
      UnpackPack(vs[1..], ws[1..], tail);
      UnpackFirst(first, rest, ws);
      DecEnc(vs[0], ws[0]);
    }
  }

  // ----- Records -----

  function Concat(blocks: seq<seq<byte>>): seq<byte> {
    if blocks == [] then [] else blocks[0] + Concat(blocks[1..])
  }

  /** A perf_event_header is a 4-byte type, 2 bytes of flags and a 2-byte size of the whole record. */
  const HEAD: seq<nat> := [4, 2, 2]
  const HEAD_SIZE := 8

  function SizeField(b: seq<byte>): nat
    requires |b| >= HEAD_SIZE
  {
    Unpack(b, HEAD)[2]
  }

  lemma {:induction false} UnpackPrefix(b: seq<byte>, tail: seq<byte>, ws: seq<nat>)
    requires |b| >= Sum(ws)
    ensures Unpack(b + tail, ws) == Unpack(b, ws)
  {
    if ws != [] {
      assert (b + tail)[..ws[0]] == b[..ws[0]] && (b + tail)[ws[0]..] == b[ws[0]..] + tail;
      UnpackPrefix(b[ws[0]..], tail, ws[1..]);
    }
  }

  ghost predicate FramedRecord(b: seq<byte>) {
    |b| >= HEAD_SIZE && SizeField(b) == |b|
  }

  ghost predicate AllFramed(blocks: seq<seq<byte>>) {
    forall i :: 0 <= i < |blocks| ==> FramedRecord(blocks[i])
  }

  /** How a reader cuts a data section into records: by the size each header gives, stopping at a bad one. */
  function Records(b: seq<byte>): seq<seq<byte>> {
    if |b| < HEAD_SIZE then []
    else if SizeField(b) < HEAD_SIZE || SizeField(b) > |b| then []
    else [b[..SizeField(b)]] + Records(b[SizeField(b)..])
  }

  lemma {:induction false} RecordsOfConcat(blocks: seq<seq<byte>>)
    requires AllFramed(blocks)
    ensures Records(Concat(blocks)) == blocks
  {
    if blocks != [] {
      var b, first, rest := Concat(blocks), blocks[0], Concat(blocks[1..]);
      assert FramedRecord(first);
      UnpackPrefix(first, rest, HEAD);
      assert b[..|first|] == first && b[|first|..] == rest;
      assert forall i :: 0 <= i < |blocks[1..]| ==> blocks[1..][i] == blocks[i + 1];
      RecordsOfConcat(blocks[1..]);
      assert blocks == [first] + blocks[1..];
    }
  }

  lemma {:induction false} ConcatAppend(a: seq<seq<byte>>, b: seq<seq<byte>>)
    ensures Concat(a + b) == Concat(a) + Concat(b)
  {
    if a == [] {
      assert a + b == b;
    } else {
      assert (a + b)[1..] == a[1..] + b;
      ConcatAppend(a[1..], b);
      assert a[0] + (Concat(a[1..]) + Concat(b)) == (a[0] + Concat(a[1..])) + Concat(b);
    }
  }

  lemma ConcatOne(b: seq<byte>)
    ensures Concat([b]) == b
  {
    assert [b][1..] == [];
    assert b + [] == b;
  }

  // ----- Branch entries -----

  datatype Branch = Branch(from: u64, to: u64, cycles: u64, mispred: byte, predicted: byte)

  /** What a reader sees of a branch entry: the flags are one bit each and the cycle count sixteen. */
  datatype Entry = Entry(from: nat, to: nat, cycles: nat, mispred: nat, predicted: nat)

  const ENTRY: seq<nat> := [8, 8, 8]
  const ENTRY_SIZE := 24
  const CYCLE_UNIT := 16
  const REST_UNIT := 0x10_0000

  /** The third word of an entry: bits 0, 1 and 4 to 19 are assigned, the others keep what was there. */
  function Word(b: Branch, was: nat): nat {
    b.mispred % 2 + 2 * (b.predicted % 2) + 4 * (was / 4 % 4) + CYCLE_UNIT * (b.cycles % 0x1_0000)
    + REST_UNIT * (was / REST_UNIT)
  }

  function EntryBytes(b: Branch, was: seq<byte>): (r: seq<byte>)
    requires |was| == ENTRY_SIZE
    ensures |r| == ENTRY_SIZE
  {
    Pack([b.from, b.to, Word(b, Dec(was[16..]))], ENTRY)
  }

  function ReadEntry(b: seq<byte>): Entry
    requires |b| >= ENTRY_SIZE
  {
    var fs := Unpack(b, ENTRY);
    Entry(fs[0], fs[1], fs[2] / CYCLE_UNIT % 0x1_0000, fs[2] % 2, fs[2] / 2 % 2)
  }

  function Seen(b: Branch): Entry {
    Entry(b.from, b.to, b.cycles % 0x1_0000, b.mispred % 2, b.predicted % 2)
  }

  /** Reading the parts of a word put together from a bit, a bit, two bits, sixteen bits and the rest. */
  lemma WordParts(m: nat, p: nat, g: nat, c: nat, r: nat)
    requires m < 2 && p < 2 && g < 4 && c < 0x1_0000
    ensures var w := m + 2 * p + 4 * g + CYCLE_UNIT * c + REST_UNIT * r;
            w % 2 == m && w / 2 % 2 == p && w / 4 % 4 == g && w / CYCLE_UNIT % 0x1_0000 == c && w / REST_UNIT == r
  {
    var w := m + 2 * p + 4 * g + 16 * c + 0x10_0000 * r;
    RemainderUnique(w, 2, p + 2 * g + 8 * c + 0x8_0000 * r, m);
    RemainderUnique(p + 2 * g + 8 * c + 0x8_0000 * r, 2, g + 4 * c + 0x4_0000 * r, p);
    RemainderUnique(w, 4, g + 4 * c + 0x4_0000 * r, m + 2 * p);
    RemainderUnique(g + 4 * c + 0x4_0000 * r, 4, c + 0x1_0000 * r, g);
    RemainderUnique(w, 16, c + 0x1_0000 * r, m + 2 * p + 4 * g);
    RemainderUnique(c + 0x1_0000 * r, 0x1_0000, r, c);
    RemainderUnique(w, 0x10_0000, r, m + 2 * p + 4 * g + 16 * c);
  }

  /** Bits 2, 3 and from 20 on are not assigned. */
  lemma WordKeeps(b: Branch, was: nat)
    ensures Word(b, was) / 4 % 4 == was / 4 % 4 && Word(b, was) / REST_UNIT == was / REST_UNIT
  {
    WordParts(b.mispred % 2, b.predicted % 2, was / 4 % 4, b.cycles % 0x1_0000, was / REST_UNIT);
  }

  lemma WordFits(b: Branch, was: nat)
    requires was < TWO64
    ensures Word(b, was) < TWO64
  {
    assert was / REST_UNIT < 0x1000_0000_0000;
  }

  lemma ReadEntryBytes(b: Branch, was: seq<byte>, tail: seq<byte>)
    requires |was| == ENTRY_SIZE
    ensures ReadEntry(EntryBytes(b, was) + tail) == Seen(b)
  {
    var w := Dec(was[16..]);
    Widths();
    WordFits(b, w);
    UnpackPack([b.from, b.to, Word(b, w)], ENTRY, tail);
    WordParts(b.mispred % 2, b.predicted % 2, w / 4 % 4, b.cycles % 0x1_0000, w / REST_UNIT);
  }

  function EntriesBytes(bs: seq<Branch>, was: seq<byte>): (r: seq<byte>)
    requires |was| == ENTRY_SIZE * |bs|
    ensures |r| == |was|
  {
    if bs == [] then []
    else EntryBytes(bs[0], was[..ENTRY_SIZE]) + EntriesBytes(bs[1..], was[ENTRY_SIZE..])
  }

  function ReadEntries(b: seq<byte>, n: nat): seq<Entry>
    requires |b| >= ENTRY_SIZE * n
  {
    if n == 0 then [] else [ReadEntry(b)] + ReadEntries(b[ENTRY_SIZE..], n - 1)
  }

  function AllSeen(bs: seq<Branch>): (es: seq<Entry>)
    ensures |es| == |bs| && forall i :: 0 <= i < |bs| ==> es[i] == Seen(bs[i])
  {
    if bs == [] then [] else [Seen(bs[0])] + AllSeen(bs[1..])
  }

  lemma {:induction false} ReadEntriesBytes(bs: seq<Branch>, was: seq<byte>)
    requires |was| == ENTRY_SIZE * |bs|
    ensures ReadEntries(EntriesBytes(bs, was), |bs|) == AllSeen(bs)
  {
    if bs != [] {
      var rest := EntriesBytes(bs[1..], was[ENTRY_SIZE..]);
      ReadEntryBytes(bs[0], was[..ENTRY_SIZE], rest);
      assert EntriesBytes(bs, was)[ENTRY_SIZE..] == rest;
      ReadEntriesBytes(bs[1..], was[ENTRY_SIZE..]);
    }
  }

  lemma {:induction false} EntriesAppend(a: seq<Branch>, b: Branch, was: seq<byte>, more: seq<byte>)
    requires |was| == ENTRY_SIZE * |a| && |more| == ENTRY_SIZE
    ensures EntriesBytes(a + [b], was + more) == EntriesBytes(a, was) + EntryBytes(b, more)
  {
    if a == [] {
      assert (was + more)[..ENTRY_SIZE] == more && a + [b] == [b] && [b][1..] == [];
    } else {
      assert (a + [b])[1..] == a[1..] + [b];
      assert (was + more)[ENTRY_SIZE..] == was[ENTRY_SIZE..] + more && (was + more)[..ENTRY_SIZE] == was[..ENTRY_SIZE];
      EntriesAppend(a[1..], b, was[ENTRY_SIZE..], more);
    }
  }

  // ----- Sample records -----

  const PERF_RECORD_SAMPLE := 9
  const PERF_RECORD_MISC_USER := 2
  const BODY: seq<nat> := [8, 4, 4, 8, 8, 8, 8]
  const BODY_SIZE := 48
  const SAMPLE_SIZE := 56

  /** The largest number of branch entries whose record size still fits the 16-bit size field. */
  const MAX_BRANCHES := 2728

  datatype PmuData = PmuData(ip: Option<u64>, pid: u32, tid: u32, ts: u64, evt: string, period: u64,
                             branches: seq<Branch>)

  datatype Sample =
    Sample(misc: nat, ip: nat, pid: nat, tid: nat, time: nat, id: nat, period: nat, branches: seq<Entry>)

  function RecordSize(d: PmuData): nat {
    SAMPLE_SIZE + ENTRY_SIZE * |d.branches|
  }

  /** The bytes of the record of `d`, written over `was`; the address is not written without a symbol. */
  function SampleBytes(d: PmuData, id: u64, was: seq<byte>): (r: seq<byte>)
    requires |was| == RecordSize(d)
    ensures |r| == RecordSize(d)
  {
    SampleHead(d) + (SampleBody(d, id, Dec(was[8..16])) + EntriesBytes(d.branches, was[SAMPLE_SIZE..]))
  }

  function HeadFields(d: PmuData): seq<nat> {
    [PERF_RECORD_SAMPLE, PERF_RECORD_MISC_USER, RecordSize(d) % 0x1_0000]
  }

  function BodyFields(d: PmuData, id: u64, ip: nat): seq<nat> {
    [if d.ip.Some? then d.ip.value else ip, d.pid, d.tid, d.ts, id, d.period, |d.branches|]
  }

  function SampleHead(d: PmuData): (r: seq<byte>)
    ensures |r| == HEAD_SIZE
  {
    Pack(HeadFields(d), HEAD)
  }

  function SampleBody(d: PmuData, id: u64, ip: nat): (r: seq<byte>)
    ensures |r| == BODY_SIZE
  {
    Pack(BodyFields(d, id, ip), BODY)
  }

  /** What a reader of the perf.data format makes of a sample record. */
  function ReadSample(b: seq<byte>): Option<Sample> {
    if |b| < SAMPLE_SIZE then None
    else
      var hs, fs := Unpack(b, HEAD), Unpack(b[HEAD_SIZE..], BODY);
      if hs[0] != PERF_RECORD_SAMPLE || |b| != SAMPLE_SIZE + ENTRY_SIZE * fs[6] then None
      else Some(Sample(hs[1], fs[0], fs[1], fs[2], fs[3], fs[4], fs[5],
                       ReadEntries(b[HEAD_SIZE..][BODY_SIZE..], fs[6])))
  }

  /** `s` tells what `d` says, under event number `id`. */
  ghost predicate Tells(s: Sample, d: PmuData, id: nat) {
    && s.misc == PERF_RECORD_MISC_USER && (d.ip.Some? ==> s.ip == d.ip.value) && s.pid == d.pid && s.tid == d.tid
    && s.time == d.ts && s.id == id && s.period == d.period && s.branches == AllSeen(d.branches)
  }

  ghost predicate AllFit(data: seq<PmuData>) {
    forall i :: 0 <= i < |data| ==> |data[i].branches| <= MAX_BRANCHES
  }

  lemma HeadUnpacks(d: PmuData, tail: seq<byte>)
    ensures Unpack(SampleHead(d) + tail, HEAD) == HeadFields(d)
  {
    Widths();
    UnpackPack(HeadFields(d), HEAD, tail);
  }

  lemma BodyUnpacks(d: PmuData, id: u64, ip: nat, tail: seq<byte>)
    requires |d.branches| <= MAX_BRANCHES && ip < TWO64
    ensures Unpack(SampleBody(d, id, ip) + tail, BODY) == BodyFields(d, id, ip)
  {
    Widths();
    UnpackPack(BodyFields(d, id, ip), BODY, tail);
  }

  /** Reading a written sample gives the sample back, when its record size fits the size field. */
  lemma ReadSampleBytes(d: PmuData, id: u64, was: seq<byte>)
    requires |was| == RecordSize(d) && |d.branches| <= MAX_BRANCHES
    ensures ReadSample(SampleBytes(d, id, was)).Some? && Tells(ReadSample(SampleBytes(d, id, was)).value, d, id)
  {
    var ip := Dec(was[8..16]);
    Widths();
    hide Pack, Unpack, EntriesBytes, ReadEntries, AllSeen, Fit, Dec, SampleHead, SampleBody;
    var b, head, body := SampleBytes(d, id, was), SampleHead(d), SampleBody(d, id, ip);
    var entries := EntriesBytes(d.branches, was[SAMPLE_SIZE..]);
    HeadUnpacks(d, body + entries);
    assert b == head + (body + entries) && b[HEAD_SIZE..] == body + entries;
    BodyUnpacks(d, id, ip, entries);
    assert (body + entries)[BODY_SIZE..] == entries;
    ReadEntriesBytes(d.branches, was[SAMPLE_SIZE..]);
  }

  /** A sample record is framed exactly when it has at most 2728 branch entries. */
  lemma SampleFramedIff(d: PmuData, id: u64, was: seq<byte>)
    requires |was| == RecordSize(d)
    ensures FramedRecord(SampleBytes(d, id, was)) <==> |d.branches| <= MAX_BRANCHES
  {
    HeadUnpacks(d, SampleBody(d, id, Dec(was[8..16])) + EntriesBytes(d.branches, was[SAMPLE_SIZE..]));
    hide Pack, Unpack, EntriesBytes, SampleBody, Dec;
  }

  // ----- The file header and its sections -----

  const MAGIC := 0x3245_4c49_4652_4550
  const FILE_HEADER: seq<nat> := [8, 8, 8, 8, 8, 8, 8, 8, 8, 8, 8, 8, 8]
  const FILE_HEADER_SIZE := 104
  const SECTION: seq<nat> := [8, 8]
  const SECTION_SIZE := 16
  const ID_SIZE := 8
  const BUILD_ID_FEATURE := 4

  datatype Header = Header(attrSize: nat, attrsAt: nat, attrsSize: nat, dataAt: nat, dataSize: nat, features: nat)

  function HeaderFields(h: Header): seq<nat> {
    [MAGIC, FILE_HEADER_SIZE, h.attrSize, h.attrsAt, h.attrsSize, h.dataAt, h.dataSize, 0, 0, h.features, 0, 0, 0]
  }

  function HeaderBytes(h: Header): (b: seq<byte>)
    ensures |b| == FILE_HEADER_SIZE
  {
    Pack(HeaderFields(h), FILE_HEADER)
  }

  function ReadHeader(b: seq<byte>): Option<Header> {
    if |b| < FILE_HEADER_SIZE then None
    else
      var fs := Unpack(b, FILE_HEADER);
      if fs[0] != MAGIC || fs[1] != FILE_HEADER_SIZE then None
      else Some(Header(fs[2], fs[3], fs[4], fs[5], fs[6], fs[9]))
  }

  ghost predicate HeaderFits(h: Header) {
    && h.attrSize < TWO64 && h.attrsAt < TWO64 && h.attrsSize < TWO64 && h.dataAt < TWO64 && h.dataSize < TWO64
    && h.features < TWO64
  }

  lemma HeaderFieldsFit(h: Header)
    requires HeaderFits(h)
    ensures Fit(HeaderFields(h), FILE_HEADER)
  {
    hide Pow256;
    Widths();
  }

  lemma PackFirst(vs: seq<nat>, ws: seq<nat>)
    requires |vs| == |ws| && ws != []
    ensures |Pack(vs, ws)| >= ws[0] && Pack(vs, ws)[..ws[0]] == Enc(vs[0], ws[0])
  {
  }

  lemma EncNext(b: byte, x: nat, n: nat)
    ensures Enc(b + 256 * x, n + 1) == [b] + Enc(x, n)
  {
    var y := b + 256 * x;
    RemainderUnique(y, 256, x, b);
    assert Enc(y, n + 1) == [y % 256] + Enc(y / 256, n);
  }

  lemma MagicBytes()
    ensures Enc(MAGIC, 8) == [0x50, 0x45, 0x52, 0x46, 0x49, 0x4c, 0x45, 0x32]
  {
    hide Enc;
    EncNext(0x50, 0x32_454c_4946_5245, 7);
    EncNext(0x45, 0x3245_4c49_4652, 6);
    EncNext(0x52, 0x32_454c_4946, 5);
    EncNext(0x46, 0x3245_4c49, 4);
    EncNext(0x49, 0x32_454c, 3);
    EncNext(0x4c, 0x3245, 2);
    EncNext(0x45, 0x32, 1);
    EncNext(0x32, 0, 0);
  }

  /** The file starts with PERFILE2. */
  lemma StartsWithMagic(h: Header)
    ensures HeaderBytes(h)[..8] == ['P' as byte, 'E' as byte, 'R' as byte, 'F' as byte,
                                    'I' as byte, 'L' as byte, 'E' as byte, '2' as byte]
  {
    hide Pack, Enc;
    PackFirst(HeaderFields(h), FILE_HEADER);
    MagicBytes();
  }

  lemma ReadHeaderBytes(h: Header, tail: seq<byte>)
    requires HeaderFits(h)
    ensures ReadHeader(HeaderBytes(h) + tail) == Some(h)
    ensures var fs := Unpack(HeaderBytes(h) + tail, FILE_HEADER);
            |fs| == 13 && fs[7..9] == [0, 0] && fs[10..] == [0, 0, 0]
  {
    hide Pack, Unpack, Fit;
    HeaderFieldsFit(h);
    UnpackPack(HeaderFields(h), FILE_HEADER, tail);
  }
}
