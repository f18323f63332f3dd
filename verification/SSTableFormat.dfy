/** The SSTable file of storage/zstorage/SSTable.go as bytes:
    [data records][block index][bloom blob][BloomLen 8][BloomMagic 4][BlockCount 4][IndexOffset 8][Magic 4]. */
module SSTableFormat {
  import opened ByteStrings
  import opened Entries

  const BLOCK_SIZE: nat := 64
  const INDEX_FOOTER_MAGIC: nat := 0x4944_5846
  const INDEX_FOOTER_SIZE: nat := 16
  const BLOOM_TRAILER_MAGIC: nat := 0x424c_4d46
  const BLOOM_TRAILER_SIZE: nat := 12
  const MAX_BLOOM_SECTION: nat := 0x4000_0000
  const TOMBSTONE_VAL_LEN: nat := 0xFFFF_FFFF

  // ------------------------------------------------------------------ records

  function EncodeValue(v: Value): Bytes {
    match v
    case None => BigEndian(TOMBSTONE_VAL_LEN, 4)
    case Some(b) => Chunk(b)
  }

  function EncodeEntry(e: Entry): Bytes {
    Chunk(e.key) + EncodeValue(e.value)
  }

  function EncodeData(t: Table): Bytes {
    if t == [] then [] else EncodeData(t[..|t| - 1]) + EncodeEntry(t[|t| - 1])
  }

  /** Lengths that the 4-byte fields can hold, the sentinel excepted. */
  predicate FitsEntry(e: Entry) {
    |e.key| < TWO32 && (e.value.Some? ==> |e.value.value| < TOMBSTONE_VAL_LEN)
  }

  datatype Parsed = Record(entry: Entry, next: nat) | EndOfFile | Truncated

  /** One record at a file position; EndOfFile only when no byte at all is left. */
  function ReadRecord(file: Bytes, pos: nat): (r: Parsed)
    ensures r.Record? ==> pos + 8 <= r.next <= |file|
  {
    if pos >= |file| then EndOfFile
    else match ReadChunk(file, pos)
      case None => Truncated
      case Some(key) => ReadValue(file, key.next, key.bytes)
  }

  function ReadValue(file: Bytes, pos: nat, key: Key): (r: Parsed)
    ensures r.Record? ==> pos + 4 <= r.next <= |file|
  {
    match ReadBigEndian(file, pos, 4)
    case None => Truncated
    case Some(valueLen) =>
      if valueLen == TOMBSTONE_VAL_LEN then Record(Entry(key, None), pos + 4)
      else match ReadBytes(file, pos + 4, valueLen)
        case None => Truncated
        case Some(value) => Record(Entry(key, Some(value)), pos + 4 + valueLen)
  }

  /** A record reads back wherever its bytes stand: tombstones as nil, empty values as empty. */
  lemma {:induction false} RecordReadsBack(file: Bytes, pos: nat, e: Entry)
    requires Has(file, pos, EncodeEntry(e)) && FitsEntry(e)
    ensures ReadRecord(file, pos) == Record(e, pos + |EncodeEntry(e)|)
  {
    HasSplit(file, pos, Chunk(e.key), EncodeValue(e.value));
    ChunkReadsBack(file, pos, e.key);
    ValueReadsBack(file, pos + 4 + |e.key|, e);
  }

  lemma {:induction false} ValueReadsBack(file: Bytes, pos: nat, e: Entry)
    requires Has(file, pos, EncodeValue(e.value)) && FitsEntry(e)
    ensures ReadValue(file, pos, e.key) == Record(e, pos + |EncodeValue(e.value)|)
  {
    Widths();
    match e.value
    case None => ReadsBack(file, pos, TOMBSTONE_VAL_LEN, 4);
    case Some(b) =>
      HasSplit(file, pos, BigEndian(|b|, 4), b);
      ReadsBack(file, pos, |b|, 4);
  }

  function Offset(t: Table, i: nat): nat
    requires i <= |t|
  {
    |EncodeData(t[..i])|
  }

  lemma {:induction false} OffsetStep(t: Table, i: nat)
    requires i < |t|
    ensures EncodeData(t[..i + 1]) == EncodeData(t[..i]) + EncodeEntry(t[i])
    ensures Offset(t, i + 1) == Offset(t, i) + |EncodeEntry(t[i])| >= Offset(t, i) + 8
  {
    assert t[..i + 1][..i] == t[..i];
  }

  lemma {:induction false} DataHasPrefix(file: Bytes, t: Table, i: nat)
    requires i <= |t| && Has(file, 0, EncodeData(t))
    ensures Has(file, 0, EncodeData(t[..i])) && Offset(t, i) <= |EncodeData(t)|
    decreases |t| - i
  {
    if i == |t| {
      assert t[..i] == t;
    } else {
      DataHasPrefix(file, t, i + 1);
      OffsetStep(t, i);
      HasSplit(file, 0, EncodeData(t[..i]), EncodeEntry(t[i]));
    }
  }

  predicate Fits(t: Table) {
    forall i :: 0 <= i < |t| ==> FitsEntry(t[i])
  }

  /** Reading at the offset of record i yields record i and stops at the offset of the next. */
  lemma {:induction false} RecordAt(file: Bytes, t: Table, i: nat)
    requires i < |t| && Fits(t) && Has(file, 0, EncodeData(t))
    ensures ReadRecord(file, Offset(t, i)) == Record(t[i], Offset(t, i + 1))
    ensures Offset(t, i) < Offset(t, i + 1) <= |EncodeData(t)|
  {
    DataHasPrefix(file, t, i + 1);
    OffsetStep(t, i);
    HasSplit(file, 0, EncodeData(t[..i]), EncodeEntry(t[i]));
    RecordReadsBack(file, Offset(t, i), t[i]);
  }

  /** The offsets lead a reader from record to record. */
  predicate Path(file: Bytes, t: Table, offs: seq<nat>) {
    && |offs| == |t| + 1
    && (forall i :: 0 <= i < |t| ==> ReadRecord(file, offs[i]) == Record(t[i], offs[i + 1]))
  }

  function Offsets(t: Table): (offs: seq<nat>)
    ensures |offs| == |t| + 1
    ensures forall i :: 0 <= i <= |t| ==> offs[i] == Offset(t, i)
  {
    seq(|t| + 1, i requires 0 <= i <= |t| => Offset(t, i))
  }

  lemma {:induction false} OffsetsArePath(file: Bytes, t: Table)
    requires Fits(t) && Has(file, 0, EncodeData(t))
    ensures Path(file, t, Offsets(t))
  {
    forall i | 0 <= i < |t| ensures ReadRecord(file, Offsets(t)[i]) == Record(t[i], Offsets(t)[i + 1]) {
      RecordAt(file, t, i);
    }
  }

  /** What a sequential reader delivers from pos on: the records up to dataEnd (to the end of the
      file when dataEnd is not positive), and whether it stops without an error. */
  datatype Stream = Stream(entries: Table, clean: bool)

  function Records(file: Bytes, pos: nat, dataEnd: int): Stream
    decreases |file| - pos
  {
    if dataEnd > 0 && pos >= dataEnd then Stream([], true)
    else match ReadRecord(file, pos)
      case EndOfFile => Stream([], true)
      case Truncated => Stream([], false)
      case Record(e, next) =>
        var rest := Records(file, next, dataEnd);
        Stream([e] + rest.entries, rest.clean)
  }

  lemma {:induction false} RecordsAlong(file: Bytes, t: Table, offs: seq<nat>, i: nat, dataEnd: int, clean: bool)
    requires i <= |t| && Path(file, t, offs)
    requires forall j :: 0 <= j < |t| ==> dataEnd <= 0 || offs[j] < dataEnd
    requires Records(file, offs[|t|], dataEnd) == Stream([], clean)
    ensures Records(file, offs[i], dataEnd) == Stream(t[i..], clean)
    decreases |t| - i
  {
    if i < |t| {
      RecordsAlong(file, t, offs, i + 1, dataEnd, clean);
      assert ReadRecord(file, offs[i]) == Record(t[i], offs[i + 1]);
      assert [t[i]] + t[i + 1..] == t[i..];
    }
  }

  lemma {:induction false} RecordsOfData(file: Bytes, t: Table)
    requires t != [] && Fits(t) && Has(file, 0, EncodeData(t))
    ensures Records(file, 0, |EncodeData(t)|) == Stream(t, true)
  {
    var offs := Offsets(t);
    OffsetsArePath(file, t);
    assert t[..|t|] == t && t[0..] == t && t[..0] == [];
    forall j | 0 <= j < |t| ensures offs[j] < |EncodeData(t)| {
      RecordAt(file, t, j);
    }
    RecordsAlong(file, t, offs, 0, |EncodeData(t)|, true);
  }

  // ---------------------------------------------------------------- cut files

  lemma {:induction false} CutValue(file: Bytes, pos: nat, e: Entry, cut: nat)
    requires Has(file, pos, EncodeValue(e.value)) && FitsEntry(e)
    requires cut < pos + |EncodeValue(e.value)|
    ensures ReadValue(file[..cut], pos, e.key) == Truncated
  {
    Widths();
    ReadsBeforeCut(file, cut, pos, 4);
    if e.value.Some? {
      var b := e.value.value;
      HasSplit(file, pos, BigEndian(|b|, 4), b);
      ReadsBack(file, pos, |b|, 4);
      ReadsBeforeCut(file, cut, pos + 4, |b|);
    }
  }

  lemma {:induction false} CutRecord(file: Bytes, pos: nat, e: Entry, cut: nat)
    requires Has(file, pos, EncodeEntry(e)) && FitsEntry(e)
    requires pos < cut < pos + |EncodeEntry(e)|
    ensures ReadRecord(file[..cut], pos) == Truncated
  {
    var key := e.key;
    HasSplit(file, pos, Chunk(key), EncodeValue(e.value));
    HasSplit(file, pos, BigEndian(|key|, 4), key);
    Widths();
    ReadsBack(file, pos, |key|, 4);
    ReadsBeforeCut(file, cut, pos, 4);
    ReadsBeforeCut(file, cut, pos + 4, |key|);
    if pos + 4 + |key| <= cut {
      CutValue(file, pos + 4 + |key|, e, cut);
    }
  }

  /** Read without a data end, a file cut inside record i yields the records before it and an error. */
  lemma {:induction false} CutDataIsUnclean(t: Table, i: nat, cut: nat)
    requires i < |t| && Fits(t) && Offset(t, i) < cut < Offset(t, i + 1)
    ensures cut <= |EncodeData(t)| && Records(EncodeData(t)[..cut], 0, 0) == Stream(t[..i], false)
  {
    var file := EncodeData(t);
    DataHasPrefix(file, t, i + 1);
    OffsetStep(t, i);
    HasSplit(file, 0, EncodeData(t[..i]), EncodeEntry(t[i]));
    CutRecord(file, Offset(t, i), t[i], cut);
    PrefixRecords(t, i, cut);
    RecordsUpTo(file[..cut], t[..i], false);
  }

  /** A cut between two records goes unnoticed. */
  lemma {:induction false} CutBetweenIsClean(t: Table, i: nat)
    requires i <= |t| && Fits(t)
    ensures Offset(t, i) <= |EncodeData(t)| && Records(EncodeData(t)[..Offset(t, i)], 0, 0) == Stream(t[..i], true)
  {
    DataHasPrefix(EncodeData(t), t, i);
    PrefixRecords(t, i, Offset(t, i));
    RecordsUpTo(EncodeData(t)[..Offset(t, i)], t[..i], true);
  }

  lemma {:induction false} RecordsUpTo(file: Bytes, t: Table, clean: bool)
    requires Fits(t) && Has(file, 0, EncodeData(t))
    requires Records(file, |EncodeData(t)|, 0) == Stream([], clean)
    ensures Records(file, 0, 0) == Stream(t, clean)
  {
    OffsetsArePath(file, t);
    assert t[..|t|] == t && t[0..] == t && t[..0] == [];
    RecordsAlong(file, t, Offsets(t), 0, 0, clean);
  }

  lemma {:induction false} PrefixRecords(t: Table, i: nat, cut: nat)
    requires i <= |t| && Fits(t) && Offset(t, i) <= cut <= |EncodeData(t)|
    ensures Fits(t[..i]) && Has(EncodeData(t)[..cut], 0, EncodeData(t[..i]))
  {
    DataHasPrefix(EncodeData(t), t, i);
    assert EncodeData(t)[..cut][0..Offset(t, i)] == EncodeData(t)[0..Offset(t, i)];
  }

  // -------------------------------------------------------------- block index

  datatype IndexEntry = IndexEntry(lastKey: Key, offset: int)

  function BlockCount(n: nat): nat {
    (n + 63) / 64
  }

  function BlockEnd(t: Table, b: nat): nat
    requires b < BlockCount(|t|)
  {
    if 64 * b + 64 <= |t| then 64 * b + 64 else |t|
  }

  /** The block index as the writers grow it, one record at a time. */
  function IndexOf(t: Table, offs: seq<nat>): (idx: seq<IndexEntry>)
    requires |offs| >= |t|
    ensures |idx| == BlockCount(|t|) && Placed(idx)
  {
    if t == [] then []
    else
      var n := |t| - 1;
      NextIndex(IndexOf(t[..n], offs), n, t[n].key, offs[n])
  }

  function BlockIndex(t: Table): (idx: seq<IndexEntry>)
    ensures |idx| == BlockCount(|t|) && Placed(idx)
  {
    IndexOf(t, Offsets(t))
  }

  function NextIndex(idx: seq<IndexEntry>, n: nat, key: Key, offset: nat): (idx': seq<IndexEntry>)
    requires |idx| == BlockCount(n) && Placed(idx)
    ensures |idx'| == BlockCount(n + 1) && Placed(idx')
  {
    if n % 64 == 0 then idx + [IndexEntry(key, offset)] else idx[n / 64 := idx[n / 64].(lastKey := key)]
  }

  lemma {:induction false} NextIndexAt(idx: seq<IndexEntry>, n: nat, key: Key, offset: nat, b: nat)
    requires |idx| == BlockCount(n) && Placed(idx) && b < BlockCount(n + 1)
    ensures b == BlockCount(n) ==> n == 64 * b && NextIndex(idx, n, key, offset)[b] == IndexEntry(key, offset)
    ensures b < BlockCount(n) && n < 64 * b + 64 ==>
      NextIndex(idx, n, key, offset)[b] == IndexEntry(key, idx[b].offset)
    ensures n >= 64 * b + 64 ==> b < BlockCount(n) && NextIndex(idx, n, key, offset)[b] == idx[b]
  {
  }

  lemma {:induction false} IndexOfAt(t: Table, offs: seq<nat>, b: nat)
    requires |offs| >= |t| && b < BlockCount(|t|)
    ensures IndexOf(t, offs)[b] == IndexEntry(t[BlockEnd(t, b) - 1].key, offs[64 * b])
  {
    var n := |t| - 1;
    NextIndexAt(IndexOf(t[..n], offs), n, t[n].key, offs[n], b);
    if b < BlockCount(n) {
      IndexOfAt(t[..n], offs, b);
    }
  }

  /** One entry per block of 64 records: the block's last key and where its bytes begin. */
  lemma {:induction false} BlockIndexAt(t: Table, b: nat)
    requires b < BlockCount(|t|)
    ensures BlockIndex(t)[b] == IndexEntry(t[BlockEnd(t, b) - 1].key, Offset(t, 64 * b))
  {
    IndexOfAt(t, Offsets(t), b);
  }

  lemma {:induction false} IndexOfDependsOnPrefix(t: Table, offs: seq<nat>, offs': seq<nat>)
    requires |offs| >= |t| && |offs'| >= |t| && forall i :: 0 <= i < |t| ==> offs[i] == offs'[i]
    ensures IndexOf(t, offs) == IndexOf(t, offs')
  {
    if t != [] {
      IndexOfDependsOnPrefix(t[..|t| - 1], offs, offs');
    }
  }

  /** How one more record extends the data section and the block index. */
  lemma {:induction false} AppendRecord(t: Table, e: Entry)
    ensures EncodeData(t + [e]) == EncodeData(t) + EncodeEntry(e)
    ensures BlockIndex(t + [e]) == NextIndex(BlockIndex(t), |t|, e.key, |EncodeData(t)|)
  {
    var u := t + [e];
    assert u[..|t|] == t;
    forall i | 0 <= i < |t| ensures Offsets(t)[i] == Offsets(u)[i] {
      assert u[..i] == t[..i];
    }
    IndexOfDependsOnPrefix(t, Offsets(t), Offsets(u));
  }

  function EncodeIndexEntry(x: IndexEntry): Bytes
    requires x.offset >= 0
  {
    Chunk(x.lastKey) + BigEndian(x.offset, 8)
  }

  predicate Placed(idx: seq<IndexEntry>) {
    forall i :: 0 <= i < |idx| ==> idx[i].offset >= 0
  }

  function EncodeIndex(idx: seq<IndexEntry>): Bytes
    requires Placed(idx)
  {
    if idx == [] then [] else EncodeIndex(idx[..|idx| - 1]) + EncodeIndexEntry(idx[|idx| - 1])
  }

  // ---------------------------------------------------------------- the file

  function BloomTrailer(blob: Bytes): (s: Bytes)
    ensures |s| == BLOOM_TRAILER_SIZE
  {
    BigEndian(|blob|, 8) + BigEndian(BLOOM_TRAILER_MAGIC, 4)
  }

  function Footer(blocks: nat, indexStart: nat): (s: Bytes)
    ensures |s| == INDEX_FOOTER_SIZE
  {
    BigEndian(blocks, 4) + BigEndian(indexStart, 8) + BigEndian(INDEX_FOOTER_MAGIC, 4)
  }

  function FileBytes(t: Table, blob: Bytes): Bytes {
    EncodeData(t) + EncodeIndex(BlockIndex(t)) + blob + BloomTrailer(blob) + Footer(BlockCount(|t|), |EncodeData(t)|)
  }

  /** The bytes of one record: lengths, key and value, with the sentinel for a tombstone. */
  lemma {:induction false} RecordLayout(t: Table, e: Entry)
    ensures EncodeData(t + [e]) == EncodeData(t) + EncodeEntry(e)
    ensures EncodeEntry(e) == BigEndian(|e.key|, 4) + e.key +
            if e.value == None then BigEndian(0xFFFF_FFFF, 4) else BigEndian(|e.value.value|, 4) + e.value.value
  {
    AppendRecord(t, e);
  }

  /** The bytes of one index entry: length, last key and offset. */
  lemma {:induction false} IndexLayout(idx: seq<IndexEntry>, x: IndexEntry)
    requires Placed(idx) && x.offset >= 0
    ensures EncodeIndex(idx + [x]) == EncodeIndex(idx) + (BigEndian(|x.lastKey|, 4) + x.lastKey + BigEndian(x.offset, 8))
  {
    assert (idx + [x])[..|idx|] == idx;
  }

  /** The tail of a file: blob, its length and magic, block count, index offset and magic. */
  lemma {:induction false} FileLayout(t: Table, blob: Bytes)
    ensures FileBytes(t, blob) ==
            EncodeData(t) + EncodeIndex(BlockIndex(t)) + blob + (BigEndian(|blob|, 8) + BigEndian(0x424c_4d46, 4)) +
            (BigEndian((|t| + 63) / 64, 4) + BigEndian(|EncodeData(t)|, 8) + BigEndian(0x4944_5846, 4))
  {
  }

  lemma {:induction false} DataSize(t: Table)
    ensures |EncodeData(t)| == TotalBytes(t) + 8 * |t|
  {
    if t != [] {
      var n := |t| - 1;
      DataSize(t[..n]);
      TotalBytesAppend(t[..n], t[n]);
      assert t == t[..n] + [t[n]];
    }
  }

  /** The index section: at most one key and 12 bytes for every record. */
  lemma {:induction false} IndexSize(t: Table, offs: seq<nat>)
    requires |offs| >= |t|
    ensures |EncodeIndex(IndexOf(t, offs))| <= TotalBytes(t) + 12 * |t|
  {
    if t != [] {
      var n := |t| - 1;
      IndexSize(t[..n], offs);
      NextIndexSize(IndexOf(t[..n], offs), n, t[n].key, offs[n]);
      TotalBytesAppend(t[..n], t[n]);
      assert t == t[..n] + [t[n]];
    }
  }

  lemma {:induction false} NextIndexSize(idx: seq<IndexEntry>, n: nat, key: Key, offset: nat)
    requires |idx| == BlockCount(n) && Placed(idx)
    ensures |EncodeIndex(NextIndex(idx, n, key, offset))| <= |EncodeIndex(idx)| + |key| + 12
  {
    var idx' := NextIndex(idx, n, key, offset);
    if n % 64 == 0 {
      assert idx'[..|idx|] == idx;
    } else {
      assert idx'[..|idx| - 1] == idx[..|idx| - 1];
    }
  }

  lemma {:induction false} FileSize(t: Table, blob: Bytes)
    ensures |FileBytes(t, blob)| <= 2 * TotalBytes(t) + 20 * |t| + |blob| + 28
  {
    DataSize(t);
    IndexSize(t, Offsets(t));
  }

  /** Every count and offset fits its fixed-width field. */
  predicate FitsFile(t: Table, blob: Bytes) {
    && t != [] && Fits(t)
    && |EncodeData(t)| < TWO63
    && BlockCount(|t|) < TWO32
    && |blob| < TWO64
  }

  predicate IsFileOf(file: Bytes, t: Table, blob: Bytes) {
    FitsFile(t, blob) && file == FileBytes(t, blob)
  }

  function Signed64(n: nat): int {
    if n < TWO63 then n else n - TWO64
  }

  datatype FooterFields = FooterFields(blocks: nat, indexOffset: int)

  /** The 16 bytes at the end; None for files without a valid index footer. */
  function ReadFooter(file: Bytes): Option<FooterFields> {
    if |file| < INDEX_FOOTER_SIZE then None
    else
      var at := |file| - INDEX_FOOTER_SIZE;
      var blocks := FromBigEndian(file[at..at + 4]);
      var indexOffset := Signed64(FromBigEndian(file[at + 4..at + 12]));
      var magic := FromBigEndian(file[at + 12..at + 16]);
      if magic == INDEX_FOOTER_MAGIC && blocks > 0 && indexOffset > 0
      then Some(FooterFields(blocks, indexOffset))
      else None
  }

  /** sstableDataEnd: where the data section ends, -1 when there is no footer. */
  function DataEnd(file: Bytes): int {
    match ReadFooter(file)
    case None => -1
    case Some(f) => f.indexOffset
  }

  /** The bloom blob that loadBloomFromFile hands to the decoder. */
  function BloomBlob(file: Bytes): Option<Bytes> {
    var tail := INDEX_FOOTER_SIZE + BLOOM_TRAILER_SIZE;
    if |file| < tail then None
    else
      var at := |file| - tail;
      var bloomLen := FromBigEndian(file[at..at + 8]);
      var magic := FromBigEndian(file[at + 8..at + 12]);
      if magic != BLOOM_TRAILER_MAGIC || bloomLen == 0 || bloomLen > MAX_BLOOM_SECTION || bloomLen > at then None
      else Some(file[at - bloomLen..at])
  }

  lemma {:induction false} Sections(file: Bytes, a: Bytes, b: Bytes, c: Bytes, d: Bytes, e: Bytes)
    requires file == a + b + c + d + e
    ensures |file| == |a| + |b| + |c| + |d| + |e|
    ensures Has(file, 0, a) && Has(file, |a|, b) && Has(file, |a| + |b|, c)
    ensures Has(file, |a| + |b| + |c|, d) && Has(file, |a| + |b| + |c| + |d|, e)
  {
    assert Has(file, 0, file);
    HasSplit(file, 0, a + b + c + d, e);
    HasSplit(file, 0, a + b + c, d);
    HasSplit(file, 0, a + b, c);
    HasSplit(file, 0, a, b);
  }

  /** Where the data and the block index of a written file stand. */
  lemma {:induction false} FileStart(file: Bytes, t: Table, blob: Bytes)
    requires file == FileBytes(t, blob)
    ensures Has(file, 0, EncodeData(t)) && Has(file, |EncodeData(t)|, EncodeIndex(BlockIndex(t)))
  {
    Sections(file, EncodeData(t), EncodeIndex(BlockIndex(t)), blob, BloomTrailer(blob),
             Footer(BlockCount(|t|), |EncodeData(t)|));
  }

  lemma {:induction false} FooterFieldsReadBack(file: Bytes, front: Bytes, blocks: nat, start: nat)
    requires file == front + Footer(blocks, start) && blocks < TWO32 && start < TWO63
    ensures ReadFooter(file) == if blocks > 0 && start > 0 then Some(FooterFields(blocks, start)) else None
  {
    Widths();
    var at := |front|;
    assert Has(file, at, Footer(blocks, start));
    HasSplit(file, at, BigEndian(blocks, 4) + BigEndian(start, 8), BigEndian(INDEX_FOOTER_MAGIC, 4));
    HasSplit(file, at, BigEndian(blocks, 4), BigEndian(start, 8));
    ReadsBack(file, at, blocks, 4);
    ReadsBack(file, at + 4, start, 8);
    ReadsBack(file, at + 12, INDEX_FOOTER_MAGIC, 4);
  }

  /** The footer of a written file gives back the block count and the data-end offset. */
  lemma {:induction false} FooterReadsBack(file: Bytes, t: Table, blob: Bytes)
    requires IsFileOf(file, t, blob)
    ensures ReadFooter(file) == Some(FooterFields(BlockCount(|t|), |EncodeData(t)|))
    ensures DataEnd(file) == |EncodeData(t)| > 0
  {
    assert |EncodeData(t)| > 0;
    FooterFieldsReadBack(file, EncodeData(t) + EncodeIndex(BlockIndex(t)) + blob + BloomTrailer(blob),
                         BlockCount(|t|), |EncodeData(t)|);
  }

  lemma {:induction false} BlobReadsBackAfter(file: Bytes, front: Bytes, blob: Bytes, footer: Bytes)
    requires file == front + blob + BloomTrailer(blob) + footer && |footer| == INDEX_FOOTER_SIZE && |blob| < TWO64
    ensures BloomBlob(file) == if 0 < |blob| <= MAX_BLOOM_SECTION then Some(blob) else None
  {
    Widths();
    var at := |front| + |blob|;
    assert file[|front|..at] == blob;
    assert Has(file, at, BloomTrailer(blob));
    HasSplit(file, at, BigEndian(|blob|, 8), BigEndian(BLOOM_TRAILER_MAGIC, 4));
    ReadsBack(file, at, |blob|, 8);
    ReadsBack(file, at + 8, BLOOM_TRAILER_MAGIC, 4);
  }

  /** The bloom blob is found from the end of the file alone, unless it is empty or too large. */
  lemma {:induction false} BlobReadsBack(file: Bytes, t: Table, blob: Bytes)
    requires IsFileOf(file, t, blob)
    ensures BloomBlob(file) == if 0 < |blob| <= 0x4000_0000 then Some(blob) else None
  {
    BlobReadsBackAfter(file, EncodeData(t) + EncodeIndex(BlockIndex(t)), blob,
                       Footer(BlockCount(|t|), |EncodeData(t)|));
  }

  /** The full entry list is recovered from the bytes alone. */
  lemma {:induction false} EntriesReadBack(file: Bytes, t: Table, blob: Bytes)
    requires IsFileOf(file, t, blob)
    ensures Records(file, 0, DataEnd(file)) == Stream(t, true)
  {
    FileStart(file, t, blob);
    FooterReadsBack(file, t, blob);
    RecordsOfData(file, t);
  }

  // -------------------------------------------------------- files of format v1

  /** A file written before there were bloom filters. */
  function OldBytes(t: Table): Bytes {
    EncodeData(t) + EncodeIndex(BlockIndex(t)) + Footer(BlockCount(|t|), |EncodeData(t)|)
  }

  /** It reads back like a new one, and its index stands where the readers look for it. */
  lemma {:induction false} OldFileReadsBack(t: Table)
    requires FitsFile(t, [])
    ensures ReadFooter(OldBytes(t)) == Some(FooterFields(BlockCount(|t|), |EncodeData(t)|))
    ensures Records(OldBytes(t), 0, DataEnd(OldBytes(t))) == Stream(t, true)
    ensures Has(OldBytes(t), |EncodeData(t)|, EncodeIndex(BlockIndex(t)))
  {
    var a, b, c := EncodeData(t), EncodeIndex(BlockIndex(t)), Footer(BlockCount(|t|), |EncodeData(t)|);
    assert |a| > 0;
    FooterFieldsReadBack(OldBytes(t), a + b, BlockCount(|t|), |a|);
    assert Has(OldBytes(t), 0, a + b + c);
    HasSplit(OldBytes(t), 0, a + b, c);
    HasSplit(OldBytes(t), 0, a, b);
    RecordsOfData(OldBytes(t), t);
  }

  /** The four bytes before the last index entry's offset are all zero. */
  predicate EndsInZeros(x: IndexEntry) {
    FromBigEndian(Chunk(x.lastKey)[|x.lastKey|..]) == 0
  }

  /** The last index entry's final bytes read like a bloom trailer. */
  predicate LooksLikeTrailer(x: IndexEntry) {
    x.offset % TWO32 == 0x424c_4d46 && TWO32 <= x.offset < 0x4000_0001 * TWO32 && EndsInZeros(x)
  }

  /** Something in it passes for a bloom section exactly when its last block starts at 4 GB or more,
      at an offset whose low half is the magic number, and its last key ends in zero bytes. */
  lemma {:induction false} OldFileHasBlobIff(t: Table)
    requires FitsFile(t, [])
    ensures BloomBlob(OldBytes(t)).Some? <==> LooksLikeTrailer(BlockIndex(t)[BlockCount(|t|) - 1])
  {
    var b := BlockCount(|t|) - 1;
    BlockIndexAt(t, b);
    assert Has(EncodeData(t), 0, EncodeData(t));
    DataHasPrefix(EncodeData(t), t, 64 * b);
    LastEntryAsTrailer(EncodeData(t), BlockIndex(t), Footer(BlockCount(|t|), |EncodeData(t)|));
  }

  lemma {:induction false} LastEntryAsTrailer(data: Bytes, idx: seq<IndexEntry>, footer: Bytes)
    requires idx != [] && Placed(idx) && idx[|idx| - 1].offset <= |data| < TWO63 && |footer| == INDEX_FOOTER_SIZE
    ensures BloomBlob(data + EncodeIndex(idx) + footer).Some? <==> LooksLikeTrailer(idx[|idx| - 1])
  {
    var x := idx[|idx| - 1];
    var front, key := data + EncodeIndex(idx[..|idx| - 1]), Chunk(x.lastKey);
    assert data + EncodeIndex(idx) + footer == (front + key[..|x.lastKey|]) + key[|x.lastKey|..] + BigEndian(x.offset, 8) + footer;
    OffsetAsTrailer(front + key[..|x.lastKey|], key[|x.lastKey|..], x.offset, footer);
  }

  lemma {:induction false} OffsetAsTrailer(front: Bytes, k: Bytes, offset: nat, footer: Bytes)
    requires |k| == 4 && offset <= |front| && offset < TWO63 && |footer| == INDEX_FOOTER_SIZE
    ensures BloomBlob(front + k + BigEndian(offset, 8) + footer).Some? <==>
            offset % TWO32 == 0x424c_4d46 && TWO32 <= offset < 0x4000_0001 * TWO32 && FromBigEndian(k) == 0
  {
    BigEndianHalves(offset);
    HighHalf(k, offset / TWO32);
    HalvesAsTrailer(front, k, BigEndian(offset / TWO32, 4), BigEndian(offset, 4), offset, footer);
  }

  lemma {:induction false} HighHalf(k: Bytes, n: nat)
    requires n < TWO32
    ensures FromBigEndian(k + BigEndian(n, 4)) == TWO32 * FromBigEndian(k) + n
  {
    Widths();
    FromBigEndianAppend(k, BigEndian(n, 4));
    BigEndianRoundTrip(n, 4);
  }

  lemma {:induction false} HalvesAsTrailer(front: Bytes, k: Bytes, high: Bytes, low: Bytes, offset: nat, footer: Bytes)
    requires |k| == |high| == |low| == 4 && offset <= |front| && |footer| == INDEX_FOOTER_SIZE
    requires FromBigEndian(k + high) == TWO32 * FromBigEndian(k) + offset / TWO32 && FromBigEndian(low) == offset % TWO32
    ensures BloomBlob(front + k + (high + low) + footer).Some? <==>
            offset % TWO32 == 0x424c_4d46 && TWO32 <= offset < 0x4000_0001 * TWO32 && FromBigEndian(k) == 0
  {
    assert front + k + (high + low) + footer == front + (k + high) + low + footer;
    TrailerAt(front, k + high, low, footer);
  }

  lemma {:induction false} TrailerAt(front: Bytes, a: Bytes, b: Bytes, footer: Bytes)
    requires |a| == 8 && |b| == 4 && |footer| == INDEX_FOOTER_SIZE
    ensures BloomBlob(front + a + b + footer).Some? <==>
            FromBigEndian(b) == 0x424c_4d46 && 0 < FromBigEndian(a) <= 0x4000_0000 && FromBigEndian(a) <= |front|
  {
    var file, at := front + a + b + footer, |front|;
    assert file[at..at + 8] == a && file[at + 8..at + 12] == b;
  }

  /** Without a footer the records are read to the end of the file. */
  lemma {:induction false} BareDataReadsBack(t: Table)
    requires Fits(t) && ReadFooter(EncodeData(t)) == None
    ensures Records(EncodeData(t), 0, DataEnd(EncodeData(t))) == Stream(t, true)
  {
    var file := EncodeData(t);
    assert Has(file, 0, file);
    OffsetsArePath(file, t);
    assert t[..|t|] == t && t[0..] == t && t[..0] == [];
    RecordsAlong(file, t, Offsets(t), 0, -1, true);
  }
}
