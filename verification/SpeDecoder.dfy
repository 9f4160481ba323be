/** The ARM SPE packet decoder, pmu/decoder/arm_spe_decoder.cpp. Packet formats are those of chapter
    D10.2 of the Armv8 ARM (DDI 0487F.c), short headers only: the source tests an 8-bit header for an
    extended one after shifting it by 10, so that branch is never taken. */
module SpeDecoder {
  import opened Words
  import opened LittleEndian
  import opened Framing

  const MINUS_ONE64: u64 := 0xFFFF_FFFF_FFFF_FFFF
  const MINUS_ONE32: u32 := 0xFFFF_FFFF
  const MINUS_ONE16: u16 := 0xFFFF
  const TWO56: int := 0x100_0000_0000_0000
  const TWO48: int := 0x1_0000_0000_0000

  datatype SpeRecord = SpeRecord(
    event: u64, pid: u64, tid: u64, cpu: int, va: u64, pa: u64, timestamp: u64, pc: u64,
    lat: u16, source: u16, opType: u32)

  datatype Kind = Bad | Address | Context | Counter | DataSource | End | Events | OpType | Pad | Timestamp

  /** A decoded packet; `length` counts the header and the payload. */
  datatype Packet = Packet(kind: Kind, header: byte, payload: u64, length: nat)

  /** Bits 5..0 of a header byte. */
  function Low6(h: byte): nat {
    if h < 64 then h else if h < 128 then h - 64 else if h < 192 then h - 128 else h - 192
  }

  /** 1 << ((header & 0b110000) >> 4). */
  function PayloadSize(h: byte): nat {
    if Low6(h) < 16 then 1 else if Low6(h) < 32 then 2 else if Low6(h) < 48 then 4 else 8
  }

  /** The header patterns, in the order they are tried. */
  function KindOf(h: byte): Kind {
    if h == 0 then Pad
    else if h == 1 then End
    else if h == 0x71 then Timestamp
    else if 0x40 <= h < 0x80 then
      if h == 0x42 || h == 0x52 || h == 0x62 || h == 0x72 then Events
      else if h == 0x43 || h == 0x53 || h == 0x63 || h == 0x73 then DataSource
      else if 0x64 <= h < 0x68 then Context
      else if 0x48 <= h < 0x4C then OpType
      else Bad
    else if 0xB0 <= h < 0xB8 then Address
    else if 0x98 <= h < 0xA0 then Counter
    else Bad
  }

  /** The patterns are the shifts and masks of the source. */
  lemma HeaderPatterns(h: byte)
    ensures PayloadSize(h) == Pow2(h / 16 % 4)
    ensures 0x40 <= h < 0x80 <==> h / 64 == 1
    ensures 0x40 <= h < 0x80 ==> (h == 0x42 || h == 0x52 || h == 0x62 || h == 0x72 <==> h % 16 == 2)
    ensures 0x40 <= h < 0x80 ==> (h == 0x43 || h == 0x53 || h == 0x63 || h == 0x73 <==> h % 16 == 3)
    ensures (0x64 <= h < 0x68 <==> h / 4 == 0x19) && (0x48 <= h < 0x4C <==> h / 4 == 0x12)
    ensures (0xB0 <= h < 0xB8 <==> h / 8 == 0x16) && (0x98 <= h < 0xA0 <==> h / 8 == 0x13)
    ensures 0xB0 <= h < 0xB8 ==> h % 8 == h - 0xB0
    ensures 0x98 <= h < 0xA0 ==> h % 8 == h - 0x98
    ensures h / 1024 != 8
  {
    SizePattern(h);
    LowNibble(h);
    ClassPatterns(h);
  }

  lemma SizePattern(h: byte)
    ensures PayloadSize(h) == Pow2(h / 16 % 4)
  {
    SmallPow2();
  }

  lemma LowNibble(h: byte)
    ensures 0x40 <= h < 0x80 ==> (h == 0x42 || h == 0x52 || h == 0x62 || h == 0x72 <==> h % 16 == 2)
    ensures 0x40 <= h < 0x80 ==> (h == 0x43 || h == 0x53 || h == 0x63 || h == 0x73 <==> h % 16 == 3)
  {
  }

  lemma ClassPatterns(h: byte)
    ensures 0x40 <= h < 0x80 <==> h / 64 == 1
    ensures (0x64 <= h < 0x68 <==> h / 4 == 0x19) && (0x48 <= h < 0x4C <==> h / 4 == 0x12)
    ensures (0xB0 <= h < 0xB8 <==> h / 8 == 0x16) && (0x98 <= h < 0xA0 <==> h / 8 == 0x13)
    ensures 0xB0 <= h < 0xB8 ==> h % 8 == h - 0xB0
    ensures 0x98 <= h < 0xA0 ==> h % 8 == h - 0x98
    ensures h / 1024 != 8
  {
  }

  /** The kind of a packet, by the tests of the source in their order. */
  lemma KindPatterns(h: byte)
    ensures KindOf(h)
         == if h == 0 then Pad
            else if h == 1 then End
            else if h == 0x71 then Timestamp
            else if h / 64 == 1 then
              if h % 16 == 2 then Events
              else if h % 16 == 3 then DataSource
              else if h / 4 == 0x19 then Context
              else if h / 4 == 0x12 then OpType
              else Bad
            else if h / 8 == 0x16 then Address
            else if h / 8 == 0x13 then Counter
            else Bad
  {
    HeaderPatterns(h);
  }

  /** Bytes of the packet that starts with header `h`. */
  function Length(h: byte): (n: nat)
    ensures 1 <= n <= 9
  {
    if KindOf(h).Pad? || KindOf(h).End? || KindOf(h).Bad? then 1 else 1 + PayloadSize(h)
  }

  /** A packet is one byte long, or has as many payload bytes as bits 5 and 4 of its header say. */
  lemma LengthPatterns(h: byte)
    ensures Length(h) == if KindOf(h) in {Pad, End, Bad} then 1 else 1 + Pow2(h / 16 % 4)
  {
    SizePattern(h);
  }

  lemma SmallPow2()
    ensures Pow2(0) == 1 && Pow2(1) == 2 && Pow2(2) == 4 && Pow2(3) == 8
  {
    assert Pow2(2) == 2 * Pow2(1);
    assert Pow2(3) == 2 * Pow2(2);
  }

  function GetPkt(b: Bytes): Packet
    requires b != [] && Length(b[0]) <= |b|
  {
    var h, n := b[0], Length(b[0]);
    PayloadFits(b[1..n]);
    Packet(KindOf(h), h, Dec(b[1..n]), n)
  }

  lemma PayloadFits(b: Bytes)
    requires |b| <= 8
    ensures Dec(b) < TWO64
  {
    Widths();
    Pow256Monotone(|b|, 8);
  }

  lemma {:induction false} Pow256Monotone(m: nat, n: nat)
    requires m <= n
    ensures Pow256(m) <= Pow256(n)
    decreases n
  {
    if m < n { Pow256Monotone(m, n - 1); }
  }

  function Low56(x: u64): (r: u64)
    ensures r < TWO56
  {
    x % TWO56
  }

  function Low16(x: u64): u16 { x % 0x1_0000 }

  /** Bits 55..52 all set mark a kernel address, whose top byte the hardware replaced by a tag. */
  function FixupTopByte(va: u64): (r: u64)
    requires va < TWO56
    ensures r % TWO56 == va
    ensures r / TWO56 == if va / TWO48 >= 0xF0 then 0xFF else 0
  {
    if va / TWO48 % 256 / 16 == 15 then va + 0xFF * TWO56 else va
  }

  predicate IsLdStExtended(p: nat) { p / 2 % 2 == 1 && p / 32 % 8 == 0 }

  function DecodeOpTypeToMask(header: byte, payload: u64): u32 {
    if header % 4 != 1 then 1
    else
      2 + (if payload % 2 == 1 then 0x20_0000 else 0x10_0000)
      + (if IsLdStExtended(payload % 256)
         then (if payload / 4 % 2 == 1 then 0x40_0000 else 0)
              + (if payload / 8 % 2 == 1 then 0x80_0000 else 0)
              + (if payload / 16 % 2 == 1 then 0x100_0000 else 0)
         else 0)
  }

  function DecodePkt(p: Packet, r: SpeRecord): SpeRecord {
    match p.kind
    case Address =>
      if p.header == 0xB0 then r.(pc := FixupTopByte(Low56(p.payload)))
      else if p.header == 0xB2 then r.(va := FixupTopByte(Low56(p.payload)))
      else if p.header == 0xB3 then r.(pa := Low56(p.payload))
      else r
    case Context => r.(tid := p.payload)
    case Counter => if p.header == 0x98 then r.(lat := Low16(p.payload)) else r
    case DataSource => r.(source := Low16(p.payload))
    case Events => r.(event := p.payload)
    case OpType => r.(opType := DecodeOpTypeToMask(p.header, p.payload))
    case Timestamp => r.(timestamp := p.payload)
    case _ => r
  }

  /** Each bit of the mask, from the bits of the packet; only load and store packets have more than the first. */
  lemma OpMaskBits(header: byte, payload: u64)
    ensures var mask := DecodeOpTypeToMask(header, payload);
            var extended := payload % 256 / 2 % 2 == 1 && payload % 256 < 32;
            if header % 4 != 1 then mask == 1
            else
              && mask % 0x10_0000 == 2 && mask < 0x200_0000
              && (mask / 0x10_0000 % 2 == 1 <==> payload % 2 == 0)
              && (mask / 0x20_0000 % 2 == 1 <==> payload % 2 == 1)
              && (mask / 0x40_0000 % 2 == 1 <==> extended && payload / 4 % 2 == 1)
              && (mask / 0x80_0000 % 2 == 1 <==> extended && payload / 8 % 2 == 1)
              && (mask / 0x100_0000 % 2 == 1 <==> extended && payload / 16 % 2 == 1)
  {
    var p, mask := payload % 256, DecodeOpTypeToMask(header, payload);
    if header % 4 == 1 {
      var extended := IsLdStExtended(p);
      var st, at := payload % 2 == 1, extended && payload / 4 % 2 == 1;
      var ex, ar := extended && payload / 8 % 2 == 1, extended && payload / 16 % 2 == 1;
      assert mask == MaskOf(st, at, ex, ar);
      MaskBits(st, at, ex, ar);
      hide MaskOf, DecodeOpTypeToMask, IsLdStExtended;
    }
  }

  function MaskOf(st: bool, at: bool, ex: bool, ar: bool): nat {
    2 + (if st then 0x20_0000 else 0x10_0000) + (if at then 0x40_0000 else 0) + (if ex then 0x80_0000 else 0)
    + (if ar then 0x100_0000 else 0)
  }

  lemma MaskBits(st: bool, at: bool, ex: bool, ar: bool)
    ensures var mask := MaskOf(st, at, ex, ar);
            && mask % 0x10_0000 == 2 && mask < 0x200_0000
            && (mask / 0x10_0000 % 2 == 1 <==> !st) && (mask / 0x20_0000 % 2 == 1 <==> st)
            && (mask / 0x40_0000 % 2 == 1 <==> at) && (mask / 0x80_0000 % 2 == 1 <==> ex)
            && (mask / 0x100_0000 % 2 == 1 <==> ar)
  {
  }

  /** Which packets change which field; a packet changes at most one. */
  lemma PacketFields(p: Packet, r: SpeRecord)
    ensures var t := DecodePkt(p, r);
            && (t.pc != r.pc ==> p.kind.Address? && p.header % 8 == 0)
            && (t.va != r.va ==> p.kind.Address? && p.header % 8 == 2)
            && (t.pa != r.pa ==> p.kind.Address? && p.header % 8 == 3)
            && (t.tid != r.tid ==> p.kind.Context?) && (t.event != r.event ==> p.kind.Events?)
            && (t.lat != r.lat ==> p.kind.Counter? && p.header % 8 == 0)
            && (t.source != r.source ==> p.kind.DataSource?) && (t.opType != r.opType ==> p.kind.OpType?)
            && (t.timestamp != r.timestamp ==> p.kind.Timestamp?)
            && t.pid == r.pid && t.cpu == r.cpu
  {
  }

  predicate EndsRecord(p: Packet) { p.kind.End? || p.kind.Timestamp? }

  /** A record ends with the header 1 or with a timestamp. */
  lemma EndHeaders(b: Bytes)
    requires b != [] && Length(b[0]) <= |b|
    ensures EndsRecord(GetPkt(b)) <==> b[0] == 1 || b[0] == 0x71
  {
  }

  /** What starting a record does to its slot; the other fields keep their old contents. */
  function Reset(r: SpeRecord): SpeRecord {
    r.(pid := MINUS_ONE64, tid := MINUS_ONE64, source := MINUS_ONE16, opType := MINUS_ONE32)
  }

  // ----- The decoding loop as a function -----

  /** The record buffer, the current slot and the number of records that still fit. */
  datatype Decoded = Decoded(recs: seq<SpeRecord>, at: nat, remain: nat)

  type Progress = d: Decoded | d.at + d.remain <= |d.recs| witness Decoded([], 0, 0)

  /** The buffer with slot `k` reset; a slot behind the end is not part of the buffer. */
  ghost function Opened(recs: seq<SpeRecord>, k: nat): (r: seq<SpeRecord>)
    ensures |r| == |recs|
  {
    if k < |recs| then recs[k := Reset(recs[k])] else recs
  }

  /** One packet, unless the room is used up. */
  ghost function Advance(p: Packet, d: Progress): (r: Progress)
    ensures |r.recs| == |d.recs| && r.at + r.remain == d.at + d.remain && d.at <= r.at
  {
    if d.remain < 1 then d
    else
      var filled := d.recs[d.at := DecodePkt(p, d.recs[d.at])];
      if EndsRecord(p) then Decoded(Opened(filled, d.at + 1), d.at + 1, d.remain - 1)
      else Decoded(filled, d.at, d.remain)
  }

  ghost function AdvanceAll(ps: seq<Packet>, d: Progress): (r: Progress)
    ensures |r.recs| == |d.recs| && r.at + r.remain == d.at + d.remain && d.at <= r.at
  {
    if ps == [] then d else AdvanceAll(ps[1..], Advance(ps[0], d))
  }

  /** Every packet that starts in the first `n` bytes lies inside `b`. */
  ghost predicate Readable(b: Bytes, n: int)
    decreases |b|
  {
    n > 0 ==> b != [] && Length(b[0]) <= |b| && Readable(b[Length(b[0])..], n - Length(b[0]))
  }

  /** The packets that start in the first `n` bytes. */
  ghost function Parse(b: Bytes, n: int): seq<Packet>
    requires Readable(b, n)
    decreases |b|
  {
    if n <= 0 then [] else [GetPkt(b)] + Parse(b[Length(b[0])..], n - Length(b[0]))
  }

  ghost function ResetSlot(d: Progress): Progress { d.(recs := Opened(d.recs, d.at)) }

  /** A whole call: the first slot is reset, then packets are decoded. */
  ghost function GetRecords(b: Bytes, n: int, d: Progress): (r: Progress)
    requires Readable(b, n)
    ensures |r.recs| == |d.recs| && r.at + r.remain == d.at + d.remain && d.at <= r.at
  {
    AdvanceAll(Parse(b, n), ResetSlot(d))
  }

  lemma {:induction false} FullStaysFull(ps: seq<Packet>, d: Progress)
    requires d.remain < 1
    ensures AdvanceAll(ps, d) == d
  {
    if ps != [] { FullStaysFull(ps[1..], d); }
  }

  /** Decoding goes packet by packet. */
  lemma DecodeOne(b: Bytes, n: int, d: Progress)
    requires Readable(b, n) && n > 0
    ensures Readable(b[Length(b[0])..], n - Length(b[0]))
    ensures AdvanceAll(Parse(b, n), d)
            == AdvanceAll(Parse(b[Length(b[0])..], n - Length(b[0])), Advance(GetPkt(b), d))
  {
    var rest := Parse(b[Length(b[0])..], n - Length(b[0]));
    assert ([GetPkt(b)] + rest)[1..] == rest;
  }

  // ----- Staying inside the record buffer -----

  /** How many packets end a record. */
  ghost function Ends(ps: seq<Packet>): nat {
    if ps == [] then 0 else (if EndsRecord(ps[0]) then 1 else 0) + Ends(ps[1..])
  }

  /** A call resets its first slot and the slot behind every record it completes. They all exist when there is a slot
      to spare; else the first one must exist and the last record must stay incomplete. */
  ghost predicate Fits(ps: seq<Packet>, length: nat, at: nat, remain: nat) {
    at + remain < length || (remain >= 1 && Ends(ps) < remain)
  }

  lemma FitsNext(b: Bytes, n: int, length: nat, at: nat, remain: nat)
    requires Readable(b, n) && n > 0 && at + remain <= length && remain >= 1
    ensures Readable(b[Length(b[0])..], n - Length(b[0]))
    ensures var p, rest := GetPkt(b), Parse(b[Length(b[0])..], n - Length(b[0]));
            Fits(Parse(b, n), length, at, remain)
            <==> if EndsRecord(p) then at + 1 < length && Fits(rest, length, at + 1, remain - 1)
                 else Fits(rest, length, at, remain)
  {
    var rest := Parse(b[Length(b[0])..], n - Length(b[0]));
    assert ([GetPkt(b)] + rest)[1..] == rest;
  }

  /** `n` packets that end a record, one byte each. */
  function EndBytes(n: nat): (b: Bytes)
    ensures |b| == n
  {
    if n == 0 then [] else [1] + EndBytes(n - 1)
  }

  lemma {:induction false} EndBytesParse(n: nat)
    ensures Readable(EndBytes(n), n) && Ends(Parse(EndBytes(n), n)) == n
  {
    if n > 0 {
      EndBytesParse(n - 1);
      var b, rest := EndBytes(n), Parse(EndBytes(n - 1), n - 1);
      assert b[1..] == EndBytes(n - 1) && Length(b[0]) == 1;
      assert Parse(b, n) == [GetPkt(b)] + rest && ([GetPkt(b)] + rest)[1..] == rest;
    }
  }

  /** A buffer of as many slots as the limit, as pmu/spe.cpp allocates it, holds one record less than the limit. */
  lemma ExactBufferOverruns(limit: nat)
    ensures Readable(EndBytes(limit), limit) && !Fits(Parse(EndBytes(limit), limit), limit, 0, limit)
    ensures limit > 0 ==>
      Readable(EndBytes(limit - 1), limit - 1) && Fits(Parse(EndBytes(limit - 1), limit - 1), limit, 0, limit)
  {
    EndBytesParse(limit);
    if limit > 0 { EndBytesParse(limit - 1); }
  }

  // ----- The loop -----

  /** The loop body after GetPkt: fill the slot, and start the next one after the end of a record; `ok` when that slot
      exists. */
  method StorePkt(p: Packet, recs: array<SpeRecord>, rec0: nat, remain0: nat) returns (ok: bool, rec: nat, remain: nat)
    requires rec0 + remain0 <= recs.Length && remain0 >= 1
    modifies recs
    ensures ok <==> !EndsRecord(p) || rec0 + 1 < recs.Length
    ensures rec + remain == rec0 + remain0
    ensures Decoded(recs[..], rec, remain) == Advance(p, Decoded(old(recs[..]), rec0, remain0))
  {
    ok, rec, remain := true, rec0, remain0;
    recs[rec] := DecodePkt(p, recs[rec]);
    if EndsRecord(p) {
      rec, remain := rec + 1, remain - 1;
      if rec == recs.Length {
        return false, rec, remain;
      }
      recs[rec] := Reset(recs[rec]);
    }
  }

  /** SpeGetRecord. The pointer `buf` is the memory it points to and the distance to `end`; `rec` indexes
      the caller's record buffer. It stops with `ok` false where the source writes behind the buffer. */
  method SpeGetRecord(buf0: Bytes, left0: nat, recs: array<SpeRecord>, rec0: nat, remain0: nat)
    returns (ok: bool, rec: nat, remain: nat)
    requires Readable(buf0, left0) && rec0 + remain0 <= recs.Length
    modifies recs
    ensures ok <==> Fits(Parse(buf0, left0), recs.Length, rec0, remain0)
    ensures rec + remain <= recs.Length
    ensures ok ==> Decoded(recs[..], rec, remain) == GetRecords(buf0, left0, Decoded(old(recs[..]), rec0, remain0))
  {
    var buf: Bytes, left: int := buf0, left0;
    ok, rec, remain := true, rec0, remain0;
    if rec == recs.Length {
      return false, rec, remain;
    }
    recs[rec] := Reset(recs[rec]);
    ghost var d: Progress := Decoded(recs[..], rec, remain);
    ghost var result := AdvanceAll(Parse(buf, left), d);
    while left > 0
      invariant Readable(buf, left)
      invariant rec + remain <= recs.Length && rec < recs.Length && d == Decoded(recs[..], rec, remain)
      invariant Fits(Parse(buf0, left0), recs.Length, rec0, remain0)
              <==> Fits(Parse(buf, left), recs.Length, rec, remain)
      invariant result == AdvanceAll(Parse(buf, left), d)
      decreases |buf|
    {
      if remain < 1 {
        FullStaysFull(Parse(buf, left), d);
        break;
      }
      var p := GetPkt(buf);
      DecodeOne(buf, left, d);
      FitsNext(buf, left, recs.Length, rec, remain);
      ok, rec, remain := StorePkt(p, recs, rec, remain);
      if !ok {
        return;
      }
      buf, left, d := buf[p.length..], left - p.length, Advance(p, d);
    }
  }
}
