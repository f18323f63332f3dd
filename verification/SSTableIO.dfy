/** The loops of storage/zstorage/SSTable.go over file bytes: writing sections, loading the block
    index, and the point lookup by binary search and block scan. */
module SSTableIO {
  import opened ByteStrings
  import opened Entries
  import opened SSTableFormat

  // ------------------------------------------------------------------ writing

  method PutRecord(buf: Bytes, e: Entry) returns (buf': Bytes)
    ensures buf' == buf + EncodeEntry(e)
  {
    buf' := buf + BigEndian(|e.key|, 4) + e.key;
    if e.value == None {
      buf' := buf' + BigEndian(TOMBSTONE_VAL_LEN, 4);
    } else {
      buf' := buf' + BigEndian(|e.value.value|, 4) + e.value.value;
    }
  }

  method PutIndex(idx: seq<IndexEntry>, n: nat, key: Key, offset: nat) returns (idx': seq<IndexEntry>)
    requires |idx| == BlockCount(n) && Placed(idx)
    ensures idx' == NextIndex(idx, n, key, offset)
  {
    idx' := idx;
    if n % BLOCK_SIZE == 0 {
      idx' := idx' + [IndexEntry([], offset)];
    }
    idx' := idx'[n / BLOCK_SIZE := idx'[n / BLOCK_SIZE].(lastKey := key)];
  }

  lemma {:induction false} WriteStep(t: Table, i: nat)
    requires i < |t|
    ensures EncodeData(t[..i + 1]) == EncodeData(t[..i]) + EncodeEntry(t[i])
    ensures IndexOf(t[..i + 1], Offsets(t)) ==
            NextIndex(IndexOf(t[..i], Offsets(t)), i, t[i].key, |EncodeData(t[..i])|)
  {
    assert t[..i + 1][..i] == t[..i];
  }

  /** The record loop of WriteToSSTable: the data section and, along with it, the block index. */
  method WriteData(t: Table) returns (buf: Bytes, idx: seq<IndexEntry>)
    ensures buf == EncodeData(t) && idx == BlockIndex(t)
  {
    buf, idx := [], [];
    ghost var offs := Offsets(t);
    for i := 0 to |t|
      invariant buf == EncodeData(t[..i]) && idx == IndexOf(t[..i], offs)
    {
      WriteStep(t, i);
      idx := PutIndex(idx, i, t[i].key, |buf|);
      buf := PutRecord(buf, t[i]);
    }
    assert t[..|t|] == t;
  }

  method WriteIndex(idx: seq<IndexEntry>) returns (buf: Bytes)
    requires Placed(idx)
    ensures buf == EncodeIndex(idx)
  {
    buf := [];
    for i := 0 to |idx|
      invariant buf == EncodeIndex(idx[..i])
    {
      assert idx[..i + 1][..i] == idx[..i];
      buf := buf + BigEndian(|idx[i].lastKey|, 4) + idx[i].lastKey + BigEndian(idx[i].offset, 8);
    }
    assert idx[..|idx|] == idx;
  }

  // ------------------------------------------------------- loading the index

  datatype ParsedIndex = Index(entry: IndexEntry, next: nat) | Bad

  function ReadIndexEntry(file: Bytes, pos: nat): ParsedIndex {
    match ReadChunk(file, pos)
    case None => Bad
    case Some(key) =>
      match ReadBigEndian(file, key.next, 8)
      case None => Bad
      case Some(offset) => Index(IndexEntry(key.bytes, Signed64(offset)), key.next + 8)
  }

  lemma {:induction false} IndexEntryReadsBack(file: Bytes, pos: nat, x: IndexEntry)
    requires |x.lastKey| < TWO32 && 0 <= x.offset < TWO63
    requires Has(file, pos, EncodeIndexEntry(x))
    ensures ReadIndexEntry(file, pos) == Index(x, pos + |EncodeIndexEntry(x)|)
  {
    Widths();
    HasSplit(file, pos, Chunk(x.lastKey), BigEndian(x.offset, 8));
    ChunkReadsBack(file, pos, x.lastKey);
    ReadsBack(file, pos + 4 + |x.lastKey|, x.offset, 8);
  }

  lemma {:induction false} IndexHasPrefix(file: Bytes, start: nat, idx: seq<IndexEntry>, i: nat)
    requires Placed(idx) && i < |idx| && Has(file, start, EncodeIndex(idx))
    ensures EncodeIndex(idx[..i + 1]) == EncodeIndex(idx[..i]) + EncodeIndexEntry(idx[i])
    ensures Has(file, start + |EncodeIndex(idx[..i])|, EncodeIndexEntry(idx[i]))
    ensures Has(file, start, EncodeIndex(idx[..i]))
    decreases |idx| - i
  {
    assert idx[..i + 1][..i] == idx[..i];
    if i + 1 == |idx| {
      assert idx[..i + 1] == idx;
    } else {
      IndexHasPrefix(file, start, idx, i + 1);
    }
    HasSplit(file, start, EncodeIndex(idx[..i]), EncodeIndexEntry(idx[i]));
  }

  /** Positions that lead a reader through the index section. */
  predicate IndexPath(file: Bytes, idx: seq<IndexEntry>, offs: seq<nat>) {
    && |offs| == |idx| + 1
    && (forall i :: 0 <= i < |idx| ==> ReadIndexEntry(file, offs[i]) == Index(idx[i], offs[i + 1]))
  }

  /** Index entries of a table that fits a file fit their own fields. */
  lemma {:induction false} IndexFits(t: Table, blob: Bytes, b: nat)
    requires FitsFile(t, blob) && b < BlockCount(|t|)
    ensures |BlockIndex(t)[b].lastKey| < TWO32 && 0 <= BlockIndex(t)[b].offset < TWO63
  {
    BlockIndexAt(t, b);
    assert Has(EncodeData(t), 0, EncodeData(t));
    DataHasPrefix(EncodeData(t), t, 64 * b);
  }

  lemma {:induction false} IndexSectionIsPath(file: Bytes, start: nat, idx: seq<IndexEntry>) returns (offs: seq<nat>)
    requires Placed(idx) && Has(file, start, EncodeIndex(idx))
    requires forall i :: 0 <= i < |idx| ==> |idx[i].lastKey| < TWO32 && idx[i].offset < TWO63
    ensures IndexPath(file, idx, offs) && offs[0] == start
  {
    offs := seq(|idx| + 1, i requires 0 <= i <= |idx| => start + |EncodeIndex(idx[..i])|);
    forall i | 0 <= i < |idx| ensures ReadIndexEntry(file, offs[i]) == Index(idx[i], offs[i + 1]) {
      IndexHasPrefix(file, start, idx, i);
      IndexEntryReadsBack(file, offs[i], idx[i]);
    }
  }

  /** loadBlockIndexFromFile. For a written file it recovers the block index from the bytes. */
  method LoadBlockIndex(file: Bytes, ghost t: Table, ghost blob: Bytes) returns (r: Option<seq<IndexEntry>>)
    ensures IsFileOf(file, t, blob) ==> r == Some(BlockIndex(t))
  {
    ghost var want, offs := [], [];
    if IsFileOf(file, t, blob) {
      FooterReadsBack(file, t, blob);
      FileStart(file, t, blob);
      want := BlockIndex(t);
      forall b | 0 <= b < |want| ensures |want[b].lastKey| < TWO32 && want[b].offset < TWO63 {
        IndexFits(t, blob, b);
      }
      offs := IndexSectionIsPath(file, |EncodeData(t)|, want);
    }
    var footer := ReadFooter(file);
    if footer == None {
      return None;
    }
    r := LoadEntries(file, footer.value.indexOffset, footer.value.blocks, want, offs);
  }

  method LoadEntries(file: Bytes, start: nat, count: nat, ghost want: seq<IndexEntry>, ghost offs: seq<nat>)
    returns (r: Option<seq<IndexEntry>>)
    ensures IndexPath(file, want, offs) && count == |want| && start == offs[0] ==> r == Some(want)
  {
    ghost var written := IndexPath(file, want, offs) && count == |want| && start == offs[0];
    var pos, idx := start, [];
    for i := 0 to count
      invariant written ==> idx == want[..i] && pos == offs[i]
    {
      assert written ==> ReadIndexEntry(file, pos) == Index(want[i], offs[i + 1]);
      match ReadIndexEntry(file, pos) {
        case Bad => return None;
        case Index(entry, next) => idx, pos := idx + [entry], next;
      }
    }
    assert written ==> want[..count] == want;
    return Some(idx);
  }

  // ------------------------------------------------------------ point lookup

  /** The first block whose last key is not below the key. */
  ghost predicate IsBlockFor(t: Table, key: Key, b: nat) {
    && b < BlockCount(|t|)
    && (forall i :: 0 <= i < 64 * b ==> Less(t[i].key, key))
    && !Less(t[BlockEnd(t, b) - 1].key, key)
  }

  lemma {:induction false} BlockFound(t: Table, offs: seq<nat>, key: Key, b: nat)
    requires Sorted(t) && |offs| >= |t| && b < BlockCount(|t|)
    requires b > 0 ==> Less(IndexOf(t, offs)[b - 1].lastKey, key)
    requires !Less(IndexOf(t, offs)[b].lastKey, key)
    ensures IsBlockFor(t, key, b)
  {
    IndexOfAt(t, offs, b);
    if b > 0 {
      IndexOfAt(t, offs, b - 1);
      AllBelow(t, key, 64 * b - 1);
    }
  }

  lemma {:induction false} AllBelow(t: Table, key: Key, last: nat)
    requires Sorted(t) && last < |t| && Less(t[last].key, key)
    ensures forall i :: 0 <= i <= last ==> Less(t[i].key, key)
  {
    forall i | 0 <= i < last ensures Less(t[i].key, key) {
      LessIsTransitive(t[i].key, t[last].key, key);
    }
  }

  /** The lo/hi loop of searchBlock: the first block whose last key is not below the key,
      provided the last block's is not. */
  method FindBlock(key: Key, idx: seq<IndexEntry>) returns (lo: nat)
    requires idx != []
    ensures lo < |idx|
    ensures !Less(idx[|idx| - 1].lastKey, key) ==>
      (lo > 0 ==> Less(idx[lo - 1].lastKey, key)) && !Less(idx[lo].lastKey, key)
  {
    lo := 0;
    var hi := |idx| - 1;
    while lo < hi
      invariant 0 <= lo <= hi < |idx|
      invariant lo > 0 ==> Less(idx[lo - 1].lastKey, key)
      invariant !Less(idx[|idx| - 1].lastKey, key) ==> !Less(idx[hi].lastKey, key)
    {
      var mid := (lo + hi) / 2;
      CompareFlips(key, idx[mid].lastKey);
      if Compare(key, idx[mid].lastKey) <= 0 {
        hi := mid;
      } else {
        lo := mid + 1;
      }
    }
  }

  /** searchBlock. On a written file, and for a key not above the greatest one, it answers as a
      linear search of the entries does. */
  method SearchBlock(file: Bytes, key: Key, idx: seq<IndexEntry>, ghost t: Table) returns (r: Option<Value>)
    ensures Sorted(t) && t != [] && Fits(t) && Has(file, 0, EncodeData(t)) && idx == BlockIndex(t)
            && !Less(t[|t| - 1].key, key)
            ==> r == Lookup(t, key)
  {
    if Fits(t) && Has(file, 0, EncodeData(t)) {
      OffsetsArePath(file, t);
    }
    r := SearchFrom(file, key, idx, t, Offsets(t));
  }

  method SearchFrom(file: Bytes, key: Key, idx: seq<IndexEntry>, ghost t: Table, ghost offs: seq<nat>)
    returns (r: Option<Value>)
    ensures Sorted(t) && t != [] && Path(file, t, offs) && idx == IndexOf(t, offs) && !Less(t[|t| - 1].key, key)
            ==> r == Lookup(t, key)
  {
    if idx == [] {
      return None;
    }
    var lo := FindBlock(key, idx);
    if idx[lo].offset < 0 {
      return None;
    }
    if Sorted(t) && t != [] && Path(file, t, offs) && idx == IndexOf(t, offs) && !Less(t[|t| - 1].key, key) {
      IndexOfAt(t, offs, |idx| - 1);
      BlockFound(t, offs, key, lo);
      IndexOfAt(t, offs, lo);
    }
    r := ScanBlock(file, key, idx[lo].offset, t, lo, offs);
  }

  /** The scan of at most 64 records from the start of block b. */
  method ScanBlock(file: Bytes, key: Key, start: nat, ghost t: Table, ghost b: nat, ghost offs: seq<nat>)
    returns (r: Option<Value>)
    ensures Sorted(t) && Path(file, t, offs) && IsBlockFor(t, key, b) && start == offs[64 * b] ==> r == Lookup(t, key)
  {
    ghost var written := Sorted(t) && Path(file, t, offs) && IsBlockFor(t, key, b) && start == offs[64 * b];
    var pos := start;
    for j := 0 to BLOCK_SIZE
      invariant written ==> 64 * b + j < BlockEnd(t, b) && pos == offs[64 * b + j]
      invariant written ==> forall i :: 0 <= i < 64 * b + j ==> Less(t[i].key, key)
    {
      if written {
        ScanStep(t, key, 64 * b + j);
        assert ReadRecord(file, offs[64 * b + j]) == Record(t[64 * b + j], offs[64 * b + j + 1]);
      }
      match ReadRecord(file, pos) {
        case EndOfFile => return None;
        case Truncated => return None;
        case Record(e, next) =>
          var cmp := Compare(e.key, key);
          if cmp == 0 {
            return Some(e.value);
          }
          if cmp > 0 {
            return None;
          }
          pos := next;
      }
    }
    return None;
  }

  /** Standing at entry i with everything before it below the key, the entry decides. */
  lemma {:induction false} ScanStep(t: Table, key: Key, i: nat)
    requires Sorted(t) && i < |t| && forall h :: 0 <= h < i ==> Less(t[h].key, key)
    ensures !Less(t[i].key, key) ==> Lookup(t, key) == if t[i].key == key then Some(t[i].value) else None
  {
    if !Less(t[i].key, key) {
      LowerBoundIsUnique(t, key, i);
      SearchAtLowerBound(t, key);
    }
  }
}
