/** PerfDataDumper: the file it writes, and what a reader of the finished file sees. */
module PerfDumper {
  import opened Words
  import opened LittleEndian
  import opened PerfLayout
  import opened PerfData

  // ----- A file -----

  function Zeros(n: nat): (z: seq<byte>)
    ensures |z| == n
  {
    if n == 0 then [] else Zeros(n - 1) + [0]
  }

  /** The first `n` bytes of a file, with the hole up to `n` read as zeros. */
  function Padded(file: seq<byte>, n: nat): (r: seq<byte>)
    ensures |r| == if |file| < n then n else |file|
  {
    if |file| < n then file + Zeros(n - |file|) else file
  }

  /** write(2) of `b` at position `at`. */
  function Written(file: seq<byte>, at: nat, b: seq<byte>): (r: seq<byte>) {
    if at + |b| <= |file| then Overwrite(file, at, b) else Padded(file, at)[..at] + b
  }

  // ----- Event numbers -----

  /** The last position of `e`, which is its number: later entries of the same name replace earlier ones. */
  function LastIndex(events: seq<string>, e: string): (i: nat)
    requires e in events
    ensures i < |events| && events[i] == e && forall j :: i < j < |events| ==> events[j] != e
  {
    var n := |events| - 1;
    if events[n] == e then n else assert e in events[..n]; LastIndex(events[..n], e)
  }

  /** The numbers of `events` are right in `ids`. */
  ghost predicate Numbered(ids: map<string, u64>, events: seq<string>) {
    && (forall e :: e in ids <==> e in events)
    && forall e :: e in ids ==> ids[e] == LastIndex(events, e)
  }

  method PrepareEvt2Id(events: seq<string>) returns (ids: map<string, u64>)
    requires |events| < TWO64
    ensures Numbered(ids, events)
  {
    ids := map[];
    for i := 0 to |events|
      invariant Numbered(ids, events[..i])
    {
      assert events[..i + 1] == events[..i] + [events[i]];
      assert events[..i + 1][..i] == events[..i];
      ids := ids[events[i] := i];
    }
    assert events[..|events|] == events;
  }

  /** The ids of the first `k` names of `order`. */
  function IdBytes(order: seq<string>, ids: map<string, u64>, k: nat): (b: seq<byte>)
    requires k <= |order| && forall i :: 0 <= i < |order| ==> order[i] in ids
    ensures |b| == ID_SIZE * k
  {
    if k == 0 then [] else IdBytes(order, ids, k - 1) + Enc(ids[order[k - 1]], ID_SIZE)
  }

  lemma {:induction false} IdAt(order: seq<string>, ids: map<string, u64>, k: nat, j: nat)
    requires k <= |order| && j < k && forall i :: 0 <= i < |order| ==> order[i] in ids
    ensures IdBytes(order, ids, k)[ID_SIZE * j..ID_SIZE * j + ID_SIZE] == Enc(ids[order[j]], ID_SIZE)
  {
    if j < k - 1 {
      IdAt(order, ids, k - 1, j);
      assert IdBytes(order, ids, k)[ID_SIZE * j..ID_SIZE * j + ID_SIZE]
          == IdBytes(order, ids, k - 1)[ID_SIZE * j..ID_SIZE * j + ID_SIZE];
    }
  }

  // ----- Attributes -----

  /** One PerfFileAttr: the event attribute and where its id is. */
  function AttrBytes(blob: seq<byte>, idAt: nat): (b: seq<byte>)
    ensures |b| == |blob| + SECTION_SIZE
  {
    blob + Pack([idAt, ID_SIZE], SECTION)
  }

  function Chop(b: seq<byte>, size: nat): seq<seq<byte>> {
    if size == 0 || |b| < size then [] else [b[..size]] + Chop(b[size..], size)
  }

  lemma {:induction false} ChopConcat(blocks: seq<seq<byte>>, size: nat)
    requires size > 0 && forall i :: 0 <= i < |blocks| ==> |blocks[i]| == size
    ensures Chop(Concat(blocks), size) == blocks
  {
    if blocks != [] {
      var b := Concat(blocks);
      assert b[..size] == blocks[0] && b[size..] == Concat(blocks[1..]);
      ChopConcat(blocks[1..], size);
      assert blocks == [blocks[0]] + blocks[1..];
    }
  }

  // ----- A reader -----

  datatype Attr = Attr(blob: seq<byte>, ids: seq<nat>)

  datatype FileView = FileView(attrs: seq<Attr>, records: seq<seq<byte>>, buildIds: Option<seq<byte>>)

  function ReadIds(file: seq<byte>, at: nat, size: nat): seq<nat>
    decreases size
  {
    if size < ID_SIZE || at + ID_SIZE > |file| then []
    else [Dec(file[at..at + ID_SIZE])] + ReadIds(file, at + ID_SIZE, size - ID_SIZE)
  }

  function ReadAttr(file: seq<byte>, b: seq<byte>): Attr
    requires |b| >= SECTION_SIZE
  {
    var n := |b| - SECTION_SIZE;
    var ids := Unpack(b[n..], SECTION);
    Attr(b[..n], ReadIds(file, ids[0], ids[1]))
  }

  function ReadAttrs(file: seq<byte>, blocks: seq<seq<byte>>): (r: seq<Attr>)
    requires forall i :: 0 <= i < |blocks| ==> |blocks[i]| >= SECTION_SIZE
    ensures |r| == |blocks| && forall i :: 0 <= i < |r| ==> r[i] == ReadAttr(file, blocks[i])
  {
    if blocks == [] then [] else [ReadAttr(file, blocks[0])] + ReadAttrs(file, blocks[1..])
  }

  lemma {:induction false} ChopSizes(b: seq<byte>, size: nat)
    ensures forall i :: 0 <= i < |Chop(b, size)| ==> |Chop(b, size)[i]| == size
  {
    if size > 0 && |b| >= size {
      ChopSizes(b[size..], size);
    }
  }

  /** What a reader makes of a whole file: attributes with their ids, and the records of the data section. */
  predicate Bit(x: nat, n: nat) { x / Pow2(n) % 2 == 1 }

  /** The build-id feature: bit 2 of the features says that it is there. Behind the data is a section for each feature
      bit that is set, in order, and a section says where its bytes are. */
  function ReadBuildIds(file: seq<byte>, h: Header): Option<seq<byte>> {
    var before := (if Bit(h.features, 0) then 1 else 0) + (if Bit(h.features, 1) then 1 else 0);
    var at := h.dataAt + h.dataSize + before * SECTION_SIZE;
    if !Bit(h.features, 2) || at + SECTION_SIZE > |file| then None
    else
      var section := Unpack(file[at..at + SECTION_SIZE], SECTION);
      if section[0] + section[1] > |file| then None else Some(file[section[0]..section[0] + section[1]])
  }

  function ReadFile(file: seq<byte>): Option<FileView> {
    var h := ReadHeader(file);
    if h.None? then None
    else
      var Header(attrSize, attrsAt, attrsSize, dataAt, dataSize, _) := h.value;
      if attrSize < SECTION_SIZE || attrsAt + attrsSize > |file| || dataAt + dataSize > |file| then None
      else
        var blocks := Chop(file[attrsAt..attrsAt + attrsSize], attrSize);
        ChopSizes(file[attrsAt..attrsAt + attrsSize], attrSize);
        Some(FileView(ReadAttrs(file, blocks), Records(file[dataAt..dataAt + dataSize]), ReadBuildIds(file, h.value)))
  }

  /** A finished file, taken apart by its own header. */
  lemma FileReads(h: Header, ids: seq<byte>, attrs: seq<seq<byte>>, blocks: seq<seq<byte>>, tail: seq<byte>)
    requires HeaderFits(h) && AllFramed(blocks)
    requires h.attrSize >= SECTION_SIZE && forall i :: 0 <= i < |attrs| ==> |attrs[i]| == h.attrSize
    requires h.attrsAt == FILE_HEADER_SIZE + |ids| && h.attrsSize == |Concat(attrs)|
    requires h.dataAt == h.attrsAt + h.attrsSize && h.dataSize == |Concat(blocks)|
    ensures var file := HeaderBytes(h) + (ids + (Concat(attrs) + (Concat(blocks) + tail)));
            ReadFile(file) == Some(FileView(ReadAttrs(file, attrs), blocks, ReadBuildIds(file, h)))
  {
    hide HeaderBytes, ReadHeader, Concat, Chop, Records, ReadAttrs, AllFramed, HeaderFits;
    var rest := ids + (Concat(attrs) + (Concat(blocks) + tail));
    var file := HeaderBytes(h) + rest;
    ReadHeaderBytes(h, rest);
    Slice(HeaderBytes(h) + ids, Concat(attrs), Concat(blocks) + tail);
    Slice(HeaderBytes(h) + ids + Concat(attrs), Concat(blocks), tail);
    assert file == (HeaderBytes(h) + ids) + (Concat(attrs) + (Concat(blocks) + tail));
    assert file == (HeaderBytes(h) + ids + Concat(attrs)) + (Concat(blocks) + tail);
    ChopConcat(attrs, h.attrSize);
    RecordsOfConcat(blocks);
  }

  lemma Slice(a: seq<byte>, b: seq<byte>, c: seq<byte>)
    ensures (a + (b + c))[|a|..|a| + |b|] == b
  {
  }

  lemma AttrReads(file: seq<byte>, blob: seq<byte>, idAt: nat, id: u64)
    requires idAt + ID_SIZE <= |file| && idAt < TWO64 && file[idAt..idAt + ID_SIZE] == Enc(id, ID_SIZE)
    ensures ReadAttr(file, AttrBytes(blob, idAt)) == Attr(blob, [id])
  {
    hide Pack, Unpack, Dec, Enc, ReadIds;
    Widths();
    var section := Pack([idAt, ID_SIZE], SECTION);
    UnpackPack([idAt, ID_SIZE], SECTION, []);
    assert section + [] == section;
    assert AttrBytes(blob, idAt)[|blob|..] == section && AttrBytes(blob, idAt)[..|blob|] == blob;
    OneId(file, idAt, id);
  }

  lemma OneId(file: seq<byte>, at: nat, id: u64)
    requires at + ID_SIZE <= |file| && file[at..at + ID_SIZE] == Enc(id, ID_SIZE)
    ensures ReadIds(file, at, ID_SIZE) == [id]
  {
    hide Dec, Enc;
    Widths();
    DecEnc(id, ID_SIZE);
    assert ReadIds(file, at + ID_SIZE, 0) == [];
  }

  // ----- The dumper -----

  /** Each id is in `bytes`, which starts after the file header, at the offset recorded for its event. */
  ghost predicate Placed(bytes: seq<byte>, offsets: map<string, nat>, ids: map<string, u64>) {
    forall e :: e in ids ==>
      && e in offsets && FILE_HEADER_SIZE <= offsets[e] && offsets[e] + ID_SIZE <= FILE_HEADER_SIZE + |bytes|
      && bytes[offsets[e] - FILE_HEADER_SIZE..offsets[e] - FILE_HEADER_SIZE + ID_SIZE] == Enc(ids[e], ID_SIZE)
  }

  function AttrBlocks(events: seq<string>, blobs: seq<seq<byte>>, offsets: map<string, nat>,
                      n: nat): (r: seq<seq<byte>>)
    requires n <= |events| == |blobs| && forall i :: 0 <= i < |events| ==> events[i] in offsets
    ensures |r| == n && forall i :: 0 <= i < n ==> r[i] == AttrBytes(blobs[i], offsets[events[i]])
  {
    if n == 0 then [] else AttrBlocks(events, blobs, offsets, n - 1) + [AttrBytes(blobs[n - 1], offsets[events[n - 1]])]
  }

  /** `order` lists the keys of `ids`, each once, as iterating a map does. */
  ghost predicate Enumerates(order: seq<string>, ids: map<string, u64>) {
    && (forall i :: 0 <= i < |order| ==> order[i] in ids)
    && (forall i, j :: 0 <= i < j < |order| ==> order[i] != order[j])
    && forall e :: e in ids ==> e in order
  }

  class Dumper {
    var file: seq<byte>
    var at: nat                      // the file position
    var attrSize: nat                // the header fields, written last
    var attrsAt: nat
    var attrsSize: nat
    var dataAt: nat
    var dataSize: nat
    var ids: map<string, u64>

    ghost var idBytes: seq<byte>
    ghost var attrs: seq<seq<byte>>
    ghost var data: seq<byte>        // the data section so far
    ghost var blocks: seq<seq<byte>> // its records, as long as every one was framed
    ghost var framed: bool

    ghost function Content(): seq<byte>
      reads `file, `at
    {
      Padded(file, at)
    }

    /** The data section ends where the next write goes. */
    ghost predicate Valid()
      reads `file, `at, `attrsAt, `attrsSize, `dataAt, `dataSize, `idBytes, `attrs, `data, `blocks, `framed
    {
      && |file| <= at && at == dataAt + dataSize && dataSize == |data|
      && dataAt == attrsAt + attrsSize && attrsAt == FILE_HEADER_SIZE + |idBytes| && attrsSize == |Concat(attrs)|
      && Content() == Zeros(FILE_HEADER_SIZE) + (idBytes + (Concat(attrs) + data))
      && (framed ==> data == Concat(blocks) && AllFramed(blocks))
    }

    method Write(b: seq<byte>)
      requires |file| <= at
      modifies `file, `at
      ensures |file| == at == old(at) + |b| && Content() == old(Content()) + b
    {
      hide Zeros;
      file, at := Written(file, at, b), at + |b|;
    }

    /** WriteEvtIds: the position of each id is remembered as it is written. */
    method WriteEvtIds(order: seq<string>) returns (offsets: map<string, nat>)
      requires |file| <= at == FILE_HEADER_SIZE && Enumerates(order, ids)
      modifies `file, `at, `idBytes
      ensures |file| <= at == FILE_HEADER_SIZE + |idBytes|
      ensures Content() == old(Content()) + idBytes && Placed(idBytes, offsets, ids)
    {
      hide Padded, Placed, Enc;
      offsets := map[];
      for k := 0 to |order|
        invariant |file| <= at == FILE_HEADER_SIZE + ID_SIZE * k && Content() == old(Content()) + IdBytes(order, ids, k)
        invariant forall j :: 0 <= j < k ==> order[j] in offsets && offsets[order[j]] == FILE_HEADER_SIZE + ID_SIZE * j
      {
        offsets := offsets[order[k] := at];
        Write(Enc(ids[order[k]], ID_SIZE));
      }
      AllPlaced(order, ids, offsets);
      idBytes := IdBytes(order, ids, |order|);
    }

    /** WriteFileAttrs. */
    method WriteFileAttrs(events: seq<string>, blobs: seq<seq<byte>>, offsets: map<string, nat>)
      requires |file| <= at && |events| == |blobs| && forall i :: 0 <= i < |events| ==> events[i] in offsets
      modifies `file, `at, `attrs
      ensures attrs == AttrBlocks(events, blobs, offsets, |events|)
      ensures |file| <= at == old(at) + |Concat(attrs)| && Content() == old(Content()) + Concat(attrs)
    {
      hide Padded, AttrBytes;
      for i := 0 to |events|
        invariant |file| <= at == old(at) + |Concat(AttrBlocks(events, blobs, offsets, i))|
        invariant Content() == old(Content()) + Concat(AttrBlocks(events, blobs, offsets, i))
      {
        var b := AttrBytes(blobs[i], offsets[events[i]]);
        ConcatAppend(AttrBlocks(events, blobs, offsets, i), [b]);
        ConcatOne(b);
        Write(b);
      }
      attrs := AttrBlocks(events, blobs, offsets, |events|);
    }

    /** Bytes `b` join the data section; they are the records `bs` when `ok`. */
    method Extend(b: seq<byte>, ghost bs: seq<seq<byte>>, ghost ok: bool)
      requires Valid() && (ok ==> b == Concat(bs) && AllFramed(bs))
      modifies `file, `at, `dataSize, `data, `blocks, `framed
      ensures Valid() && data == old(data) + b && framed == (ok && old(framed))
      ensures ok ==> blocks == old(blocks) + bs
    {
      hide Padded, Concat, AllFramed, Zeros;
      Regroup(Zeros(FILE_HEADER_SIZE), idBytes, Concat(attrs), data, b);
      Write(b);
      dataSize := dataSize + |b|;
      if ok {
        ConcatAppend(blocks, bs);
        BothFramed(blocks, bs);
        blocks := blocks + bs;
      }
      data, framed := data + b, framed && ok;
    }

    /** Records written one by one, each of the size its header gives: synthesized events and metadata. */
    method WriteRecords(bs: seq<seq<byte>>)
      requires Valid() && AllFramed(bs)
      modifies `file, `at, `dataSize, `data, `blocks, `framed
      ensures Valid() && data == old(data) + Concat(bs) && blocks == old(blocks) + bs && framed == old(framed)
    {
      hide Valid, FramedRecord, Concat;
      assert bs[..0] == [] && Concat(bs[..0]) == [] by { NoRecords(); }
      for i := 0 to |bs|
        invariant Valid() && framed == old(framed)
        invariant data == old(data) + Concat(bs[..i]) && blocks == old(blocks) + bs[..i]
      {
        ConcatOne(bs[i]);
        ConcatAppend(bs[..i], [bs[i]]);
        assert bs[..i + 1] == bs[..i] + [bs[i]];
        Extend(bs[i], [bs[i]], true);
      }
      assert bs[..|bs|] == bs;
    }

    /** Dump: metadata records, then the samples through one uninitialised buffer. */
    method Dump(meta: seq<seq<byte>>, samples: seq<PmuData>) returns (ghost bs: seq<seq<byte>>)
      requires Valid() && AllFramed(meta)
      modifies `file, `at, `dataSize, `data, `blocks, `framed, `ids
      ensures Valid() && framed == (AllFit(samples) && old(framed)) && forall e :: IdOf(ids, e) == IdOf(old(ids), e)
      ensures ids.Keys == old(ids).Keys + EventsOf(samples)
      ensures |data| == |old(data)| + |Concat(meta)| + TotalSize(samples)
      ensures AllFit(samples) ==> blocks == old(blocks) + meta + bs && AreRecordsOf(bs, samples, old(ids))
    {
      hide Valid, Concat, AreRecordsOf, AllFit, TotalSize, IdOf, EventsOf;
      WriteRecords(meta);
      var buffer := new byte[TotalSize(samples)];
      var _, now, records := Fill(buffer, samples, ids);
      if AllFit(samples) {
        RecordsAreFramed(records, samples, ids);
      }
      bs := records;
      Extend(buffer[..], records, AllFit(samples));
      ids := now;
    }

    /** The ids, after the hole for the header. */
    method BeginFile(events: seq<string>, order: seq<string>) returns (offsets: map<string, nat>)
      requires |events| < TWO64 && forall m: map<string, u64> :: Numbered(m, events) ==> Enumerates(order, m)
      modifies `file, `at, `ids, `idBytes
      ensures |file| <= at == FILE_HEADER_SIZE + |idBytes| && Content() == Zeros(FILE_HEADER_SIZE) + idBytes
      ensures Numbered(ids, events) && Placed(idBytes, offsets, ids)
      ensures forall i :: 0 <= i < |events| ==> events[i] in offsets
    {
      hide Content, Zeros, Enumerates, Placed, Numbered;
      ids := PrepareEvt2Id(events);
      file, at := [], FILE_HEADER_SIZE;
      Hole();
      offsets := WriteEvtIds(order);
      InOffsets(idBytes, offsets, ids, events);
    }

    /** Start up to the data section: the ids after the hole for the header, then the attributes. */
    method WriteTables(events: seq<string>, attrLen: nat, blobs: seq<seq<byte>>, order: seq<string>)
      returns (offsets: map<string, nat>)
      requires |events| == |blobs| && |events| < TWO64
      requires forall i :: 0 <= i < |blobs| ==> |blobs[i]| == attrLen
      requires forall m: map<string, u64> :: Numbered(m, events) ==> Enumerates(order, m)
      modifies this
      ensures Valid() && data == [] && blocks == [] && framed
      ensures Numbered(ids, events) && Placed(idBytes, offsets, ids)
      ensures forall i :: 0 <= i < |events| ==> events[i] in offsets
      ensures attrs == AttrBlocks(events, blobs, offsets, |events|) && attrSize == attrLen + SECTION_SIZE
    {
      hide Content, Zeros, Enumerates, Placed, AttrBlocks, FramedRecord, Numbered, Concat, AllFramed;
      offsets := BeginFile(events, order);
      attrSize, attrsAt := attrLen + SECTION_SIZE, at;
      WriteFileAttrs(events, blobs, offsets);
      AttrsLength(events, blobs, offsets, |events|, attrLen);
      attrsSize, dataAt, dataSize := attrSize * |events|, at, 0;
      data, blocks, framed := [], [], true;
      Tables(Zeros(FILE_HEADER_SIZE), idBytes, Concat(attrs));
    }

    /** Start: nothing is written without events or a period; else the tables and the synthesized events. */
    method Start(events: seq<string>, period: nat, attrLen: nat, blobs: seq<seq<byte>>, order: seq<string>,
                 synthesized: seq<seq<byte>>)
      returns (ok: bool, ghost offsets: map<string, nat>)
      requires |events| == |blobs| && |events| < TWO64 && AllFramed(synthesized)
      requires forall i :: 0 <= i < |blobs| ==> |blobs[i]| == attrLen
      requires forall m: map<string, u64> :: Numbered(m, events) ==> Enumerates(order, m)
      modifies this
      ensures ok <==> events != [] && period > 0
      ensures !ok ==> file == old(file)
      ensures ok ==>
                && Valid() && framed && blocks == synthesized && Numbered(ids, events) && Placed(idBytes, offsets, ids)
                && (forall i :: 0 <= i < |events| ==> events[i] in offsets)
                && attrs == AttrBlocks(events, blobs, offsets, |events|) && attrSize == attrLen + SECTION_SIZE
    {
      hide Valid, Enumerates, Placed, AttrBlocks, FramedRecord, Numbered, Concat, AllFramed;
      offsets := map[];
      if events == [] || period == 0 {
        return false, offsets;
      }
      var where := WriteTables(events, attrLen, blobs, order);
      WriteRecords(synthesized);
      assert [] + synthesized == synthesized;
      return true, where;
    }

    /** End: the feature section where the data ends, the build ids behind it, and the header over the hole. */
    method End(buildIds: seq<seq<byte>>)
      requires Valid()
      modifies `file, `at
      ensures file == Finished(attrSize, idBytes, attrs, data, buildIds)
    {
      hide Zeros, HeaderBytes, Pack, Concat, AllFramed, Written, Padded;
      ghost var content, file0 := Content(), file;
      var secStart := at;
      at := secStart + SECTION_SIZE;
      var featAt := at;
      HoleForSection(file, secStart);
      WriteBuildIds(buildIds);
      var section := Pack([featAt, at - featAt], SECTION);
      SectionOver(file0, secStart, file, buildIds, section);
      file := Written(file, secStart, section);
      var header := HeaderBytes(Header(attrSize, attrsAt, attrsSize, dataAt, dataSize, BUILD_ID_FEATURE));
      ghost var tail := section + Concat(buildIds);
      HeaderOver(content, Zeros(FILE_HEADER_SIZE), idBytes + (Concat(attrs) + data), tail, header);
      file, at := Written(file, 0, header), FILE_HEADER_SIZE;
      Regroup(header, idBytes, Concat(attrs), data, tail);
    }

    method WriteBuildIds(buildIds: seq<seq<byte>>)
      requires |file| <= at
      modifies `file, `at
      ensures |file| <= at == old(at) + |Concat(buildIds)| && Content() == old(Content()) + Concat(buildIds)
      ensures if buildIds == [] then file == old(file) else |file| == at
    {
      hide Zeros, Concat, Padded;
      NoRecords();
      assert buildIds[..0] == [];
      for i := 0 to |buildIds|
        invariant |file| <= at == old(at) + |Concat(buildIds[..i])|
        invariant Content() == old(Content()) + Concat(buildIds[..i])
        invariant if i == 0 then file == old(file) else |file| == at
      {
        assert buildIds[..i + 1] == buildIds[..i] + [buildIds[i]];
        ConcatAppend(buildIds[..i], [buildIds[i]]);
        ConcatOne(buildIds[i]);
        Write(buildIds[i]);
      }
      assert buildIds[..|buildIds|] == buildIds;
    }

    lemma Hole()
      requires file == [] && at == FILE_HEADER_SIZE
      ensures Content() == Zeros(FILE_HEADER_SIZE)
    {
    }
  }

  lemma {:induction false} AttrsLength(events: seq<string>, blobs: seq<seq<byte>>, offsets: map<string, nat>, n: nat,
                                       attrLen: nat)
    requires n <= |events| == |blobs| && (forall i :: 0 <= i < |events| ==> events[i] in offsets)
    requires forall i :: 0 <= i < |blobs| ==> |blobs[i]| == attrLen
    ensures |Concat(AttrBlocks(events, blobs, offsets, n))| == (attrLen + SECTION_SIZE) * n
  {
    if n > 0 {
      var b := AttrBytes(blobs[n - 1], offsets[events[n - 1]]);
      AttrsLength(events, blobs, offsets, n - 1, attrLen);
      ConcatAppend(AttrBlocks(events, blobs, offsets, n - 1), [b]);
      ConcatOne(b);
    }
  }

  lemma Tables(z: seq<byte>, i: seq<byte>, a: seq<byte>)
    ensures z + i + a == z + (i + (a + []))
    ensures Concat([]) == [] && AllFramed([])
  {
  }

  lemma InOffsets(bytes: seq<byte>, offsets: map<string, nat>, ids: map<string, u64>, events: seq<string>)
    requires Placed(bytes, offsets, ids) && Numbered(ids, events)
    ensures forall i :: 0 <= i < |events| ==> events[i] in offsets
  {
  }

  /** The header of a file with the given tables and data. */
  ghost function HeaderOf(attrSize: nat, idBytes: seq<byte>, attrs: seq<seq<byte>>, data: seq<byte>): Header {
    var attrsAt := FILE_HEADER_SIZE + |idBytes|;
    Header(attrSize, attrsAt, |Concat(attrs)|, attrsAt + |Concat(attrs)|, |data|, BUILD_ID_FEATURE)
  }

  /** A finished file: header, ids, attributes, data, feature section, build ids. */
  ghost function Finished(attrSize: nat, idBytes: seq<byte>, attrs: seq<seq<byte>>, data: seq<byte>,
                          buildIds: seq<seq<byte>>): seq<byte> {
    var h := HeaderOf(attrSize, idBytes, attrs, data);
    var section := Pack([h.dataAt + h.dataSize + SECTION_SIZE, |Concat(buildIds)|], SECTION);
    HeaderBytes(h) + (idBytes + (Concat(attrs) + (data + (section + Concat(buildIds)))))
  }

  lemma HoleForSection(file: seq<byte>, at: nat)
    requires |file| <= at
    ensures Padded(file, at + SECTION_SIZE) == Padded(file, at) + Zeros(SECTION_SIZE)
  {
    ZerosAdd(at - |file|, SECTION_SIZE);
  }

  lemma {:induction false} ZerosAdd(a: nat, b: nat)
    ensures Zeros(a + b) == Zeros(a) + Zeros(b)
  {
    if b > 0 {
      ZerosAdd(a, b - 1);
    }
  }

  lemma SectionOver(file0: seq<byte>, at: nat, file: seq<byte>, buildIds: seq<seq<byte>>, section: seq<byte>)
    requires |file0| <= at && |section| == SECTION_SIZE
    requires if buildIds == [] then file == file0 else
               Padded(file, |file|) == Padded(file0, at) + Zeros(SECTION_SIZE) + Concat(buildIds)
    ensures Written(file, at, section) == Padded(file0, at) + (section + Concat(buildIds))
  {
    hide Zeros;
    if buildIds == [] {
      NoRecords();
    }
  }

  lemma HeaderOver(content: seq<byte>, zeros: seq<byte>, rest: seq<byte>, tail: seq<byte>, header: seq<byte>)
    requires content == zeros + rest && |zeros| == |header|
    ensures Written(content + tail, 0, header) == header + rest + tail
  {
  }

  lemma NoRecords()
    ensures Concat([]) == []
  {
  }

  lemma RecordsAreFramed(bs: seq<seq<byte>>, samples: seq<PmuData>, ids: map<string, u64>)
    requires AreRecordsOf(bs, samples, ids)
    ensures AllFramed(bs)
  {
  }

  lemma BothFramed(a: seq<seq<byte>>, b: seq<seq<byte>>)
    ensures AllFramed(a) && AllFramed(b) ==> AllFramed(a + b)
  {
  }

  lemma Regroup(z: seq<byte>, i: seq<byte>, a: seq<byte>, d: seq<byte>, b: seq<byte>)
    ensures z + (i + (a + d)) + b == z + (i + (a + (d + b)))
  {
  }

  lemma AllPlaced(order: seq<string>, ids: map<string, u64>, offsets: map<string, nat>)
    requires Enumerates(order, ids)
    requires forall j :: 0 <= j < |order| ==> order[j] in offsets && offsets[order[j]] == FILE_HEADER_SIZE + ID_SIZE * j
    ensures Placed(IdBytes(order, ids, |order|), offsets, ids)
  {
    hide IdBytes, Enc;
    forall e | e in ids
      ensures && e in offsets && FILE_HEADER_SIZE <= offsets[e]
              && offsets[e] + ID_SIZE <= FILE_HEADER_SIZE + |IdBytes(order, ids, |order|)|
              && IdBytes(order, ids, |order|)[offsets[e] - FILE_HEADER_SIZE..offsets[e] - FILE_HEADER_SIZE + ID_SIZE]
                 == Enc(ids[e], ID_SIZE)
    {
      var j :| 0 <= j < |order| && order[j] == e;
      IdAt(order, ids, |order|, j);
    }
  }

  // ----- A whole recording -----

  datatype Batch = Batch(meta: seq<seq<byte>>, samples: seq<PmuData>)

  /** The records show the batches in order: each batch's metadata as it is, then its samples. */
  ghost predicate Shows(records: seq<seq<byte>>, batches: seq<Batch>, ids: map<string, u64>)
    decreases |batches|
  {
    if batches == [] then records == []
    else
      var last := batches[|batches| - 1];
      var n := |last.meta| + |last.samples|;
      && n <= |records| && Shows(records[..|records| - n], batches[..|batches| - 1], ids)
      && records[|records| - n..|records| - |last.samples|] == last.meta
      && AreRecordsOf(records[|records| - |last.samples|..], last.samples, ids)
  }

  ghost predicate AllBatchesFit(batches: seq<Batch>) {
    forall k :: 0 <= k < |batches| ==> AllFit(batches[k].samples)
  }

  ghost predicate BatchesFramed(batches: seq<Batch>) {
    forall k :: 0 <= k < |batches| ==> AllFramed(batches[k].meta)
  }

  lemma ShowsMore(records: seq<seq<byte>>, batches: seq<Batch>, ids: map<string, u64>, b: Batch, bs: seq<seq<byte>>)
    requires Shows(records, batches, ids) && AreRecordsOf(bs, b.samples, ids)
    ensures Shows(records + b.meta + bs, batches + [b], ids)
  {
    hide AreRecordsOf;
    var all, more := records + b.meta + bs, batches + [b];
    assert more[..|more| - 1] == batches && more[|more| - 1] == b;
    SizeOfRecords(bs, b.samples, ids);
    var n := |b.meta| + |b.samples|;
    assert all[..|all| - n] == records;
    assert all[|all| - n..|all| - |b.samples|] == b.meta;
    assert all[|all| - |b.samples|..] == bs;
  }

  lemma ShowsNothing(ids: map<string, u64>)
    ensures Shows([], [], ids)
  {
  }

  lemma SizeOfRecords(bs: seq<seq<byte>>, samples: seq<PmuData>, ids: map<string, u64>)
    requires AreRecordsOf(bs, samples, ids)
    ensures |bs| == |samples|
  {
  }

  lemma SameRecords(bs: seq<seq<byte>>, samples: seq<PmuData>, a: map<string, u64>, b: map<string, u64>)
    requires AreRecordsOf(bs, samples, a) && forall e :: IdOf(a, e) == IdOf(b, e)
    ensures AreRecordsOf(bs, samples, b)
  {
    hide IsRecordOf, IdOf;
  }

  /** Every attribute in the file carries its event's description and its event's number. */
  lemma AttrsRead(file: seq<byte>, h: seq<byte>, idBytes: seq<byte>, rest: seq<byte>, events: seq<string>,
                  blobs: seq<seq<byte>>, offsets: map<string, nat>, ids: map<string, u64>, i: nat)
    requires |events| == |blobs| && (forall k :: 0 <= k < |events| ==> events[k] in offsets) && i < |events|
    requires |h| == FILE_HEADER_SIZE && file == h + (idBytes + rest) && |file| < TWO64
    requires Numbered(ids, events) && Placed(idBytes, offsets, ids)
    ensures ReadAttr(file, AttrBytes(blobs[i], offsets[events[i]])) == Attr(blobs[i], [LastIndex(events, events[i])])
  {
    hide LastIndex, AttrBytes, ReadAttr, Enc;
    var at := offsets[events[i]];
    assert events[i] in ids;
    assert file[at..at + ID_SIZE] == idBytes[at - FILE_HEADER_SIZE..at - FILE_HEADER_SIZE + ID_SIZE];
    AttrReads(file, blobs[i], at, ids[events[i]]);
  }

  ghost predicate AttrsAre(attrs: seq<Attr>, events: seq<string>, blobs: seq<seq<byte>>)
    requires |events| == |blobs|
  {
    |attrs| == |events| && forall i :: 0 <= i < |attrs| ==> attrs[i] == Attr(blobs[i], [LastIndex(events, events[i])])
  }

  lemma FrontOfTail(h: seq<byte>, ids: seq<byte>, attrs: seq<byte>, data: seq<byte>, tail: seq<byte>)
    ensures h + (ids + (attrs + (data + tail))) == h + (ids + (attrs + data)) + tail
  {
  }

  /** The build ids are found behind the data. */
  lemma BuildIdsRead(h: Header, front: seq<byte>, ids: seq<byte>)
    requires h.features == BUILD_ID_FEATURE && |front| == h.dataAt + h.dataSize
    requires |front| + SECTION_SIZE + |ids| < TWO64
    ensures ReadBuildIds(front + (Pack([|front| + SECTION_SIZE, |ids|], SECTION) + ids), h) == Some(ids)
  {
    hide Pack, Unpack, Bit, Fit;
    var section := Pack([|front| + SECTION_SIZE, |ids|], SECTION);
    var file := front + (section + ids);
    FeatureBits();
    SectionFits(|front| + SECTION_SIZE, |ids|);
    UnpackPack([|front| + SECTION_SIZE, |ids|], SECTION, []);
    assert section + [] == section;
    assert file[|front|..|front| + SECTION_SIZE] == section;
    assert file[|front| + SECTION_SIZE..|front| + SECTION_SIZE + |ids|] == ids;
  }

  lemma FeatureBits()
    ensures !Bit(BUILD_ID_FEATURE, 0) && !Bit(BUILD_ID_FEATURE, 1) && Bit(BUILD_ID_FEATURE, 2)
  {
    assert Pow2(1) == 2 * Pow2(0) && Pow2(2) == 2 * Pow2(1);
  }

  lemma SectionFits(at: nat, size: nat)
    requires at < TWO64 && size < TWO64
    ensures Fit([at, size], SECTION) && |Pack([at, size], SECTION)| == SECTION_SIZE
  {
    Widths();
  }

  /** What a reader sees of a finished file. */
  lemma FinishedReads(attrLen: nat, idBytes: seq<byte>, events: seq<string>, blobs: seq<seq<byte>>,
                      offsets: map<string, nat>, ids: map<string, u64>, blocks: seq<seq<byte>>,
                      buildIds: seq<seq<byte>>)
    returns (view: FileView)
    requires |events| == |blobs| && (forall k :: 0 <= k < |events| ==> events[k] in offsets) && AllFramed(blocks)
    requires forall i :: 0 <= i < |blobs| ==> |blobs[i]| == attrLen
    requires Numbered(ids, events) && Placed(idBytes, offsets, ids) && attrLen + SECTION_SIZE < TWO64
    requires |Finished(attrLen + SECTION_SIZE, idBytes, AttrBlocks(events, blobs, offsets, |events|), Concat(blocks),
                       buildIds)| < TWO64
    ensures ReadFile(Finished(attrLen + SECTION_SIZE, idBytes, AttrBlocks(events, blobs, offsets, |events|),
                              Concat(blocks), buildIds))
         == Some(view)
    ensures view.records == blocks && AttrsAre(view.attrs, events, blobs) && view.buildIds == Some(Concat(buildIds))
  {
    hide Concat, Pack, HeaderBytes, ReadFile, ReadAttrs, AllFramed, Numbered, Placed, AttrBytes, AttrBlocks, LastIndex;
    var attrs, size := AttrBlocks(events, blobs, offsets, |events|), attrLen + SECTION_SIZE;
    var h := HeaderOf(size, idBytes, attrs, Concat(blocks));
    var section := Pack([h.dataAt + h.dataSize + SECTION_SIZE, |Concat(buildIds)|], SECTION);
    var tail := section + Concat(buildIds);
    var file := Finished(size, idBytes, attrs, Concat(blocks), buildIds);
    FileReads(h, idBytes, attrs, blocks, tail);
    view := FileView(ReadAttrs(file, attrs), blocks, ReadBuildIds(file, h));
    BuildIdsRead(h, HeaderBytes(h) + (idBytes + (Concat(attrs) + Concat(blocks))), Concat(buildIds));
    FrontOfTail(HeaderBytes(h), idBytes, Concat(attrs), Concat(blocks), tail);
    forall i | 0 <= i < |events|
      ensures view.attrs[i] == Attr(blobs[i], [LastIndex(events, events[i])])
    {
      AttrsRead(file, HeaderBytes(h), idBytes, Concat(attrs) + (Concat(blocks) + tail), events, blobs, offsets, ids, i);
    }
  }

  method DumpAll(d: Dumper, batches: seq<Batch>, ghost ids: map<string, u64>) returns (ghost records: seq<seq<byte>>)
    requires d.Valid() && d.framed && BatchesFramed(batches) && ids == d.ids
    modifies d`file, d`at, d`dataSize, d`data, d`blocks, d`framed, d`ids
    ensures d.Valid()
    ensures AllBatchesFit(batches) ==> d.framed && d.blocks == old(d.blocks) + records && Shows(records, batches, ids)
  {
    hide Dumper.Valid, AreRecordsOf, AllFit, AllFramed, TotalSize, Concat, IdOf, Shows;
    records := [];
    ShowsNothing(ids);
    assert batches[..0] == [];
    for i := 0 to |batches|
      invariant d.Valid() && forall e :: IdOf(d.ids, e) == IdOf(ids, e)
      invariant AllBatchesFit(batches) ==>
                  d.framed && d.blocks == old(d.blocks) + records && Shows(records, batches[..i], ids)
    {
      ghost var was := d.ids;
      ghost var bs := d.Dump(batches[i].meta, batches[i].samples);
      if AllBatchesFit(batches) {
        SameRecords(bs, batches[i].samples, was, ids);
        ShowsMore(records, batches[..i], ids, batches[i], bs);
        assert batches[..i + 1] == batches[..i] + [batches[i]];
        records := records + batches[i].meta + bs;
      }
    }
    assert batches[..|batches|] == batches;
  }

  /** Start, any number of Dumps, End: reading the file gives the events with their numbers and every record. */
  method Record(events: seq<string>, period: nat, attrLen: nat, blobs: seq<seq<byte>>, order: seq<string>,
                synthesized: seq<seq<byte>>, batches: seq<Batch>, buildIds: seq<seq<byte>>)
    returns (ok: bool, file: seq<byte>, ghost ids: map<string, u64>, ghost records: seq<seq<byte>>,
             ghost view: FileView)
    requires |events| == |blobs| && |events| < TWO64 && AllFramed(synthesized) && BatchesFramed(batches)
    requires attrLen + SECTION_SIZE < TWO64 && forall i :: 0 <= i < |blobs| ==> |blobs[i]| == attrLen
    requires forall m: map<string, u64> :: Numbered(m, events) ==> Enumerates(order, m)
    ensures ok <==> events != [] && period > 0
    ensures ok ==> Numbered(ids, events)
    ensures ok && AllBatchesFit(batches) ==> Shows(records, batches, ids)
    ensures ok && AllBatchesFit(batches) && |file| < TWO64 ==>
              && ReadFile(file) == Some(view) && view.records == synthesized + records
              && AttrsAre(view.attrs, events, blobs) && view.buildIds == Some(Concat(buildIds))
  {
    hide AreRecordsOf, AllFit, Concat, Finished, ReadFile, AttrsAre, Shows, AllBatchesFit, BatchesFramed, Numbered,
         Enumerates, Placed, AttrBlocks, AllFramed;
    file, ids, records, view := [], map[], [], FileView([], [], None);
    var d := new Dumper;
    ghost var offsets: map<string, nat>;
    ok, offsets := d.Start(events, period, attrLen, blobs, order, synthesized);
    if !ok {
      return;
    }
    ids := d.ids;
    records := DumpAll(d, batches, ids);
    d.End(buildIds);
    file := d.file;
    if AllBatchesFit(batches) && |file| < TWO64 {
      view := FinishedReads(attrLen, d.idBytes, events, blobs, offsets, ids, d.blocks, buildIds);
    }
  }

  /** A sample of an opened event carries the number of an event of that name; any other sample carries 0. */
  lemma NumberNamesEvent(events: seq<string>, ids: map<string, u64>, evt: string)
    requires Numbered(ids, events)
    ensures evt in events <==> IdOf(ids, evt) < |events| && events[IdOf(ids, evt)] == evt
    ensures evt !in events ==> IdOf(ids, evt) == 0
  {
  }
}
