/** The table of SSTables of storage/zstorage/SSTable.go: files on disk as bytes, the list of their
    metadata in order of age, and the index and bloom caches. */
module SSTables {
  import opened ByteStrings
  import opened Entries
  import opened SSTableFormat
  import opened SSTableIO
  import opened Merge
  import opened Lsm
  import PB = PartitionedBloom

  datatype Meta = Meta(path: nat, level: nat, minKey: Key, maxKey: Key)

  /** What a file was written from. */
  datatype Written = Written(table: Table, blob: Bytes, pb: PB.Partitioned)

  /** No key of the table is vetoed. */
  ghost predicate NoFalseNegatives(pb: PB.Partitioned, t: Table) {
    PB.Valid(pb) && forall i :: 0 <= i < |t| ==> PB.MayContain(pb, t[i].key)
  }

  ghost predicate GoodFile(file: Bytes, w: Written) {
    && IsFileOf(file, w.table, w.blob) && Sorted(w.table)
    && PB.Encodes(w.blob, w.pb) && |w.blob| >= 5 && PB.Encodable(w.pb) && NoFalseNegatives(w.pb, w.table)
  }

  ghost predicate GoodMeta(m: Meta, written: map<nat, Written>) {
    && m.path in written && written[m.path].table != []
    && m.minKey == written[m.path].table[0].key
    && m.maxKey == written[m.path].table[|written[m.path].table| - 1].key
  }

  /** What the store knows about a file and about the cached copies of its index and bloom filter. */
  datatype Fact =
    | FileFact(file: Bytes, w: Written)
    | IndexFact(idx: seq<IndexEntry>, w: Written)
    | BloomFact(bloom: Option<PB.Partitioned>, w: Written)

  ghost predicate Meaning(f: Fact) {
    match f
    case FileFact(file, w) => GoodFile(file, w)
    case IndexFact(idx, w) => idx == BlockIndex(w.table)
    case BloomFact(bloom, w) =>
      && NoFalseNegatives(w.pb, w.table)
      && (bloom == Some(w.pb) || (bloom == None && |w.blob| > MAX_BLOOM_SECTION))
  }

  /** The meaning of a fact, wrapped n times so that proofs which only carry it do not open it. */
  ghost predicate Sealed(f: Fact, n: nat) {
    if n == 0 then Meaning(f) else Sealed(f, n - 1)
  }

  lemma {:induction false} Unseal(f: Fact, n: nat)
    ensures Sealed(f, n) <==> Meaning(f)
  {
    if n > 0 {
      Unseal(f, n - 1);
    }
  }

  ghost predicate Known(f: Fact, path: nat) {
    Sealed(f, path + 2)
  }

  ghost predicate GoodDisk(disk: map<nat, Bytes>, written: map<nat, Written>) {
    forall p :: p in written ==> p in disk && Known(FileFact(disk[p], written[p]), p)
  }

  ghost predicate GoodIndexes(cache: map<nat, seq<IndexEntry>>, written: map<nat, Written>) {
    forall p :: p in cache && p in written ==> Known(IndexFact(cache[p], written[p]), p)
  }

  ghost predicate GoodBlooms(cache: map<nat, Option<PB.Partitioned>>, written: map<nat, Written>) {
    forall p :: p in cache && p in written ==> Known(BloomFact(cache[p], written[p]), p)
  }

  ghost predicate GoodMetas(mata: seq<Meta>, written: map<nat, Written>) {
    && (forall i :: 0 <= i < |mata| ==> GoodMeta(mata[i], written))
    && (forall i, j :: 0 <= i < j < |mata| ==> mata[i].path != mata[j].path)
  }

  // ------------------------------------------------------------- bloom queries

  method QueryBloom(pb: PB.Partitioned, key: Key) returns (r: bool)
    requires PB.Valid(pb)
    ensures r == PB.MayContain(pb, key)
  {
    var ns := PB.Namespace(key, pb.sep);
    if ns !in pb.partitions {
      return false;
    }
    r := PB.Bloom.QueryFilter(pb.partitions[ns], PB.Suffix(key, pb.sep));
  }

  /** loadBloomFromFile: the decoded filter, or nil. */
  method LoadBloom(file: Bytes, ghost w: Written) returns (r: Option<PB.Partitioned>)
    ensures GoodFile(file, w) ==> r == if |w.blob| <= MAX_BLOOM_SECTION then Some(w.pb) else None
  {
    if GoodFile(file, w) {
      BlobReadsBack(file, w.table, w.blob);
    }
    var blob := BloomBlob(file);
    if blob == None {
      return None;
    }
    r := PB.Decode(blob.value, w.pb);
  }

  lemma {:induction false} VetoIsRight(pb: PB.Partitioned, t: Table, key: Key)
    requires NoFalseNegatives(pb, t) && !PB.MayContain(pb, key)
    ensures Lookup(t, key) == None
  {
  }

  // ---------------------------------------------------------- linear fallback

  /** ReadAllFromSSTable: every record up to the data end, or an error. */
  method ReadAll(file: Bytes) returns (r: Option<Table>)
    ensures r == var all := Records(file, 0, DataEnd(file)); if all.clean then Some(all.entries) else None
  {
    var dataEnd := DataEnd(file);
    ghost var all := Records(file, 0, dataEnd);
    var pos: nat := 0;
    var entries: Table := [];
    while true
      invariant all.clean == Records(file, pos, dataEnd).clean
      invariant all.entries == entries + Records(file, pos, dataEnd).entries
      decreases if pos <= |file| then |file| - pos else 0
    {
      if dataEnd > 0 && pos >= dataEnd {
        break;
      }
      match ReadRecord(file, pos) {
        case EndOfFile => break;
        case Truncated => return None;
        case Record(e, next) =>
          assert entries + ([e] + Records(file, next, dataEnd).entries)
              == (entries + [e]) + Records(file, next, dataEnd).entries;
          entries, pos := entries + [e], next;
      }
    }
    assert entries + [] == entries;
    return Some(entries);
  }

  method LinearSearch(t: Table, key: Key) returns (r: Option<Value>)
    ensures r == Lookup(t, key)
  {
    for i := 0 to |t|
      invariant Lookup(t, key) == Lookup(t[i..], key)
    {
      if t[i].key == key {
        return Some(t[i].value);
      }
      assert t[i..][1..] == t[i + 1..];
    }
    return None;
  }

  // ------------------------------------------------------------ writing a file

  function Keys(t: Table): (ks: seq<Key>)
    ensures |ks| == |t| && forall i :: 0 <= i < |t| ==> ks[i] == t[i].key
  {
    seq(|t|, i requires 0 <= i < |t| => t[i].key)
  }

  /** Few and short enough entries that every count and offset fits its fixed-width field. */
  const MAX_BYTES: nat := 0x2000_0000_0000_0000

  predicate Small(t: Table) {
    |t| <= PB.MAX_KEYS && TotalBytes(t) < MAX_BYTES
  }

  lemma {:induction false} KeysAllowance(t: Table)
    ensures PB.Allowance(Keys(t)) <= TotalBytes(t) + 42 * |t|
  {
    if t != [] {
      var n := |t| - 1;
      KeysAllowance(t[..n]);
      assert Keys(t)[..n] == Keys(t[..n]);
      TotalBytesAppend(t[..n], t[n]);
      assert t == t[..n] + [t[n]];
    }
  }

  /** A file of few and short enough entries is below 2^63 bytes, its bloom section included. */
  lemma {:induction false} SmallFile(t: Table, w: Written)
    requires Small(t) && PB.Encodes(w.blob, w.pb) && PB.Sized(w.pb, Keys(t))
    ensures |FileBytes(t, w.blob)| < TWO63
  {
    FileSize(t, w.blob);
    PB.BlobIsSmall(w.blob, w.pb, Keys(t));
    KeysAllowance(t);
  }

  lemma {:induction false} KeysFit(t: Table)
    requires Fits(t)
    ensures forall k :: k in Keys(t) ==> |k| < TWO32
  {
    forall k | k in Keys(t) ensures |k| < TWO32 {
      var i :| 0 <= i < |t| && Keys(t)[i] == k;
      assert FitsEntry(t[i]);
    }
  }

  /** The tail that WriteToSSTable and MergeSSTable both write after the data section. */
  method FinishFile(data: Bytes, idx: seq<IndexEntry>, keys: seq<Key>, ghost t: Table)
    returns (file: Bytes, pb: PB.Partitioned, ghost w: Written)
    requires t != [] && Sorted(t) && Fits(t) && Small(t)
    requires data == EncodeData(t) && idx == BlockIndex(t) && keys == Keys(t)
    ensures w.table == t && w.pb == pb && file == FileBytes(t, w.blob) && |file| < TWO63 && |w.blob| >= 5
    ensures PB.Encodes(w.blob, pb) && PB.Encodable(pb) && NoFalseNegatives(pb, t)
  {
    var index := WriteIndex(idx);
    pb := PB.Build(keys, PB.DEFAULT_SEP);
    var blob := PB.Encode(pb);
    file := data + index + blob + BloomTrailer(blob) + Footer(|idx|, |data|);
    w := Written(t, blob, pb);
    KeysFit(t);
    PB.SizedIsEncodable(pb, keys);
    SmallFile(t, w);
    forall i | 0 <= i < |t| ensures PB.MayContain(pb, t[i].key) {
      assert keys[i] in keys;
    }
  }

  lemma {:induction false} FileIsLongerThanItsParts(t: Table, blob: Bytes)
    ensures |FileBytes(t, blob)| >= |EncodeData(t)| + |blob|
  {
  }

  lemma {:induction false} SealFile(file: Bytes, w: Written, path: nat)
    requires w.table != [] && Sorted(w.table) && Fits(w.table) && Small(w.table) && |file| < TWO63 && |w.blob| >= 5
    requires file == FileBytes(w.table, w.blob)
    requires PB.Encodes(w.blob, w.pb) && PB.Encodable(w.pb) && NoFalseNegatives(w.pb, w.table)
    ensures Known(FileFact(file, w), path)
  {
    FileIsLongerThanItsParts(w.table, w.blob);
    assert FitsFile(w.table, w.blob);
    assert GoodFile(file, w);
    Unseal(FileFact(file, w), path + 2);
  }

  lemma {:induction false} SealCaches(idx: seq<IndexEntry>, w: Written, path: nat)
    requires idx == BlockIndex(w.table) && NoFalseNegatives(w.pb, w.table)
    ensures Known(IndexFact(idx, w), path) && Known(BloomFact(Some(w.pb), w), path)
  {
    Unseal(IndexFact(idx, w), path + 2);
    Unseal(BloomFact(Some(w.pb), w), path + 2);
  }

  /** A file ready to be published under the given name. */
  method BuildFile(data: Bytes, idx: seq<IndexEntry>, keys: seq<Key>, ghost t: Table, ghost path: nat)
    returns (file: Bytes, pb: PB.Partitioned, ghost w: Written)
    requires t != [] && Sorted(t) && Fits(t) && Small(t)
    requires data == EncodeData(t) && idx == BlockIndex(t) && keys == Keys(t)
    ensures w.table == t
    ensures Known(FileFact(file, w), path) && Known(IndexFact(idx, w), path) && Known(BloomFact(Some(pb), w), path)
  {
    file, pb, w := FinishFile(data, idx, keys, t);
    SealFile(file, w, path);
    SealCaches(idx, w, path);
  }

  // --------------------------------------------------------------- abstraction

  ghost function FileOf(m: Meta, written: map<nat, Written>): File {
    File(m.path, m.level, if m.path in written then written[m.path].table else [])
  }

  /** The file list as the readers see it. */
  ghost function FilesOf(mata: seq<Meta>, written: map<nat, Written>): (files: seq<File>)
    ensures |files| == |mata| && forall i :: 0 <= i < |mata| ==> files[i] == FileOf(mata[i], written)
  {
    seq(|mata|, i requires 0 <= i < |mata| => FileOf(mata[i], written))
  }

  lemma {:induction false} OutsideRange(t: Table, key: Key)
    requires Sorted(t) && t != [] && (Less(key, t[0].key) || Less(t[|t| - 1].key, key))
    ensures Lookup(t, key) == None
  {
    if Less(key, t[0].key) {
      AbsentBelowHead(t, key);
    } else {
      AllBelow(t, key, |t| - 1);
      BelowIsAbsent(t, key);
    }
  }

  lemma {:induction false} LookupUpTo(files: seq<File>, i: nat, k: Key)
    requires i < |files|
    ensures FilesLookup(files[..i + 1], k) ==
            if Lookup(files[i].table, k).Some? then Lookup(files[i].table, k) else FilesLookup(files[..i], k)
  {
    assert files[..i + 1] == files[..i] + [files[i]];
    FilesAppend(files[..i], [files[i]], k);
    OneFile(files[i], k);
  }

  ghost predicate NotAbove(t: Table, key: Key) {
    t != [] && !Less(t[|t| - 1].key, key)
  }

  lemma {:induction false} TableIsSorted(file: Bytes, w: Written, path: nat)
    requires Known(FileFact(file, w), path)
    ensures Sorted(w.table)
  {
    Unseal(FileFact(file, w), path + 2);
  }

  method LoadKnownBloom(file: Bytes, ghost w: Written, ghost path: nat) returns (r: Option<PB.Partitioned>)
    requires Known(FileFact(file, w), path)
    ensures Known(BloomFact(r, w), path)
  {
    Unseal(FileFact(file, w), path + 2);
    r := LoadBloom(file, w);
    Unseal(BloomFact(r, w), path + 2);
  }

  method LoadKnownIndex(file: Bytes, ghost w: Written, ghost path: nat) returns (r: Option<seq<IndexEntry>>)
    requires Known(FileFact(file, w), path)
    ensures r.Some? && Known(IndexFact(r.value, w), path)
  {
    Unseal(FileFact(file, w), path + 2);
    r := LoadBlockIndex(file, w.table, w.blob);
    Unseal(IndexFact(r.value, w), path + 2);
  }

  /** The bloom veto: it only ever fires on keys that are not there. */
  method Vetoes(bloom: Option<PB.Partitioned>, key: Key, ghost w: Written, ghost path: nat) returns (veto: bool)
    requires Known(BloomFact(bloom, w), path)
    ensures veto ==> Lookup(w.table, key) == None
    ensures PB.Valid(w.pb) && veto == (bloom.Some? && !PB.MayContain(w.pb, key))
  {
    Unseal(BloomFact(bloom, w), path + 2);
    if bloom == None {
      return false;
    }
    var may := QueryBloom(bloom.value, key);
    if !may {
      VetoIsRight(bloom.value, w.table, key);
    }
    return !may;
  }

  /** Binary search and bounded scan: the answer of a linear search. */
  method SearchKnown(file: Bytes, key: Key, idx: seq<IndexEntry>, ghost w: Written, ghost path: nat)
    returns (r: Option<Value>)
    requires Known(FileFact(file, w), path) && Known(IndexFact(idx, w), path) && NotAbove(w.table, key)
    ensures r == Lookup(w.table, key)
  {
    KnownData(file, w, path);
    KnownIndex(idx, w, path);
    r := SearchBlock(file, key, idx, w.table);
  }

  lemma {:induction false} KnownData(file: Bytes, w: Written, path: nat)
    requires Known(FileFact(file, w), path)
    ensures Sorted(w.table) && Fits(w.table) && Has(file, 0, EncodeData(w.table))
  {
    Unseal(FileFact(file, w), path + 2);
    FileStart(file, w.table, w.blob);
  }

  lemma {:induction false} KnownIndex(idx: seq<IndexEntry>, w: Written, path: nat)
    requires Known(IndexFact(idx, w), path)
    ensures idx == BlockIndex(w.table)
  {
    Unseal(IndexFact(idx, w), path + 2);
  }

  /** readFromSSTableFull, for files without an index. */
  method SearchAll(file: Bytes, key: Key, ghost w: Written, ghost path: nat) returns (r: Option<Value>)
    requires Known(FileFact(file, w), path)
    ensures r == Lookup(w.table, key)
  {
    Unseal(FileFact(file, w), path + 2);
    EntriesReadBack(file, w.table, w.blob);
    var entries := ReadAll(file);
    r := LinearSearch(if entries.Some? then entries.value else [], key);
  }

  /** The choice between the two. */
  method SearchWith(file: Bytes, key: Key, idx: Option<seq<IndexEntry>>, ghost w: Written, ghost path: nat)
    returns (r: Option<Value>)
    requires Known(FileFact(file, w), path) && (idx.Some? ==> Known(IndexFact(idx.value, w), path)) && NotAbove(w.table, key)
    ensures r == Lookup(w.table, key)
  {
    if idx.Some? {
      r := SearchKnown(file, key, idx.value, w, path);
    } else {
      r := SearchAll(file, key, w, path);
    }
  }

  lemma {:induction false} PublishKeeps(mata: seq<Meta>, written: map<nat, Written>, meta: Meta, w: Written)
    requires GoodMetas(mata, written) && meta.path !in written && GoodMeta(meta, written[meta.path := w])
    ensures GoodMetas(mata + [meta], written[meta.path := w])
    ensures FreshPath(FilesOf(mata, written), meta.path)
    ensures FilesOf(mata + [meta], written[meta.path := w]) ==
            FilesOf(mata, written) + [File(meta.path, meta.level, w.table)]
  {
    var written' := written[meta.path := w];
    forall i | 0 <= i < |mata|
      ensures mata[i].path != meta.path && GoodMeta(mata[i], written') && FileOf(mata[i], written') == FileOf(mata[i], written)
    {
      assert GoodMeta(mata[i], written);
    }
  }

  // ---------------------------------------------------------------- compaction

  ghost predicate Listed(sources: seq<Meta>, mata: seq<Meta>) {
    && (forall i :: 0 <= i < |sources| ==> sources[i] in mata)
    && (forall i, j :: 0 <= i < j < |sources| ==> sources[i].path != sources[j].path)
  }

  lemma {:induction false} ListedIsGood(sources: seq<Meta>, mata: seq<Meta>, written: map<nat, Written>)
    requires Listed(sources, mata) && GoodMetas(mata, written)
    ensures GoodMetas(sources, written)
  {
    forall i | 0 <= i < |sources| ensures GoodMeta(sources[i], written) {
      var j :| 0 <= j < |mata| && mata[j] == sources[i];
    }
  }

  /** A known file streams back the table it was written from. */
  lemma {:induction false} SourceStream(file: Bytes, w: Written, path: nat)
    requires Known(FileFact(file, w), path)
    ensures Rest(Open(file)) == Stream(w.table, true) && Clean(None, Stream(w.table, true))
    ensures Fits(w.table)
  {
    Unseal(FileFact(file, w), path + 2);
    EntriesReadBack(file, w.table, w.blob);
    AscendingIsSorted(None, w.table);
  }

  lemma {:induction false} SourcesStream(sources: seq<Meta>, disk: map<nat, Bytes>, written: map<nat, Written>, bytes: seq<Bytes>)
    requires GoodMetas(sources, written) && GoodDisk(disk, written) && |bytes| == |sources|
    requires forall i :: 0 <= i < |sources| ==> bytes[i] == disk[sources[i].path]
    ensures forall i :: 0 <= i < |bytes| ==> Clean(None, Streams(bytes)[i])
    ensures Tables(bytes) == TablesOf(FilesOf(sources, written))
    ensures forall i :: 0 <= i < |bytes| ==> Fits(Tables(bytes)[i]) && Tables(bytes)[i] != []
  {
    forall i | 0 <= i < |bytes|
      ensures Clean(None, Streams(bytes)[i]) && Tables(bytes)[i] == TablesOf(FilesOf(sources, written))[i]
      ensures Fits(Tables(bytes)[i]) && Tables(bytes)[i] != []
    {
      assert GoodMeta(sources[i], written);
      SourceStream(bytes[i], written[sources[i].path], sources[i].path);
    }
  }

  lemma {:induction false} AppendFileOf(metas: seq<Meta>, m: Meta, written: map<nat, Written>, level: nat)
    ensures FilesOf(metas + [m], written) == FilesOf(metas, written) + [FileOf(m, written)]
    ensures LevelFiles(FilesOf(metas + [m], written), level) ==
            LevelFiles(FilesOf(metas, written), level) + if m.level == level then [FileOf(m, written)] else []
  {
    LevelFilesAppend(FilesOf(metas, written), [FileOf(m, written)], level);
    assert [FileOf(m, written)][..0] == [];
  }

  ghost predicate IsLevelOf(result: seq<Meta>, mata: seq<Meta>, written: map<nat, Written>, level: nat) {
    Listed(result, mata) && FilesOf(result, written) == LevelFiles(FilesOf(mata, written), level)
  }

  lemma {:induction false} LevelFilesNext(mata: seq<Meta>, m: Meta, result: seq<Meta>, written: map<nat, Written>, level: nat)
    requires IsLevelOf(result, mata, written, level) && forall i :: 0 <= i < |mata| ==> mata[i].path != m.path
    ensures IsLevelOf(if m.level == level then result + [m] else result, mata + [m], written, level)
  {
    ListedNext(result, mata, m);
    AppendFileOf(mata, m, written, level);
    AppendFileOf(result, m, written, level);
  }

  lemma {:induction false} PrefixGrows(mata: seq<Meta>, i: nat)
    requires i < |mata|
    ensures mata[..i + 1] == mata[..i] + [mata[i]]
  {
  }

  method SelectLevel(mata: seq<Meta>, level: nat, ghost written: map<nat, Written>) returns (result: seq<Meta>)
    requires GoodMetas(mata, written)
    ensures IsLevelOf(result, mata, written, level)
  {
    result := [];
    ghost var seen: seq<Meta> := [];
    for i := 0 to |mata|
      invariant seen == mata[..i] && IsLevelOf(result, seen, written, level)
    {
      PrefixGrows(mata, i);
      LevelFilesNext(seen, mata[i], result, written, level);
      seen := seen + [mata[i]];
      if mata[i].level == level {
        result := result + [mata[i]];
      }
    }
    assert seen == mata;
  }

  lemma {:induction false} ListedNext(sources: seq<Meta>, mata: seq<Meta>, m: Meta)
    requires Listed(sources, mata) && forall i :: 0 <= i < |mata| ==> mata[i].path != m.path
    ensures Listed(sources, mata + [m]) && Listed(sources + [m], mata + [m])
  {
    forall i | 0 <= i < |sources| ensures sources[i].path != m.path && sources[i] in mata + [m] {
      var j :| 0 <= j < |mata| && mata[j] == sources[i];
      assert (mata + [m])[j] == sources[i];
    }
    assert (mata + [m])[|mata|] == m;
  }

  lemma {:induction false} DropKeepsMetas(mata: seq<Meta>, i: nat, written: map<nat, Written>)
    requires GoodMetas(mata, written) && i < |mata|
    ensures GoodMetas(mata[..i] + mata[i + 1..], written - {mata[i].path})
    ensures forall m :: m in mata && m != mata[i] ==>
      m in mata[..i] + mata[i + 1..] && FileOf(m, written - {mata[i].path}) == FileOf(m, written)
  {
    var rest, written' := mata[..i] + mata[i + 1..], written - {mata[i].path};
    forall j | 0 <= j < |rest| ensures rest[j].path != mata[i].path && GoodMeta(rest[j], written') {
      assert GoodMeta(mata[if j < i then j else j + 1], written);
    }
    forall m | m in mata && m != mata[i] ensures m in rest && FileOf(m, written') == FileOf(m, written) {
      var j :| 0 <= j < |mata| && mata[j] == m;
      assert rest[if j < i then j else j - 1] == m;
    }
  }

  /** Forgetting a file and taking it off the list removes it, and only it, for the readers. */
  lemma {:induction false} DropIsRemove(mata: seq<Meta>, i: nat, written: map<nat, Written>)
    requires GoodMetas(mata, written) && i < |mata|
    ensures FilesOf(mata[..i] + mata[i + 1..], written - {mata[i].path}) ==
            Remove(FilesOf(mata, written), FileOf(mata[i], written))
  {
    var rest, written' := mata[..i] + mata[i + 1..], written - {mata[i].path};
    var files := FilesOf(mata, written);
    RemoveAt(files, i);
    forall j | 0 <= j < |rest| ensures FilesOf(rest, written')[j] == (files[..i] + files[i + 1..])[j] {
      assert rest[j] == mata[if j < i then j else j + 1];
    }
  }

  method IndexOfMeta(mata: seq<Meta>, meta: Meta) returns (i: nat)
    requires meta in mata
    ensures i < |mata| && mata[i] == meta
  {
    i := 0;
    while mata[i] != meta
      invariant 0 <= i < |mata|
      invariant exists j :: i <= j < |mata| && mata[j] == meta
      decreases |mata| - i
    {
      i := i + 1;
    }
  }

  ghost predicate AllClean(bytes: seq<Bytes>) {
    forall i :: 0 <= i < |bytes| ==> Clean(None, Streams(bytes)[i])
  }

  /** Together the sources are small enough to be merged into one file. */
  ghost predicate SmallTogether(tables: seq<Table>) {
    TotalLeft(tables) <= PB.MAX_KEYS && BytesLeft(tables) < MAX_BYTES
  }

  /** The body of MergeSSTable between opening the sources and publishing the result. It fails only
      on a bad source or on sources without entries. */
  method MergeToFile(bytes: seq<Bytes>, ghost tables: seq<Table>, ghost path: nat)
    returns (ok: bool, file: Bytes, idx: seq<IndexEntry>, pb: PB.Partitioned, minKey: Key, maxKey: Key, ghost w: Written)
    requires tables == Tables(bytes) && SmallTogether(tables)
    requires forall i :: 0 <= i < |bytes| ==> Fits(tables[i])
    ensures AllClean(bytes) && tables != [] && tables[0] != [] ==> ok
    ensures ok ==> w.table != [] && IsMerge(w.table, tables)
    ensures ok ==> |w.table| <= TotalLeft(tables) && TotalBytes(w.table) <= BytesLeft(tables)
    ensures ok ==> minKey == w.table[0].key && maxKey == w.table[|w.table| - 1].key
    ensures ok ==> Known(FileFact(file, w), path) && Known(IndexFact(idx, w), path) && Known(BloomFact(Some(pb), w), path)
  {
    file, idx, pb, minKey, maxKey := [], [], PB.Partitioned(0, map[]), [], [];
    w := Written([], [], pb);
    var merged;
    ghost var out;
    ok, merged, out := MergeFiles(bytes);
    if ok && tables != [] && tables[0] != [] {
      MergeIsNonEmpty(out, tables);
    }
    if !ok || merged.keys == [] {
      return false, file, idx, pb, minKey, maxKey, w;
    }
    MergeFits(out, tables);
    assert merged.keys == Keys(out);
    file, pb, w := BuildFile(merged.data, merged.idx, merged.keys, out, path);
    idx, minKey, maxKey := merged.idx, merged.keys[0], merged.keys[|merged.keys| - 1];
  }

  class SSTable {
    var mata: seq<Meta>
    var disk: map<nat, Bytes>
    var indexCache: map<nat, seq<IndexEntry>>
    var bloomCache: map<nat, Option<PB.Partitioned>>
    var clock: nat                        // names files; never goes back
    ghost var written: map<nat, Written>  // what every live file was written from

    ghost predicate Valid()
      reads this
    {
      && GoodDisk(disk, written) && GoodIndexes(indexCache, written) && GoodBlooms(bloomCache, written)
      && GoodMetas(mata, written)
      && (forall p :: p in disk || p in indexCache || p in bloomCache ==> p < clock)
    }

    ghost function Files(): seq<File>
      reads this
    {
      FilesOf(mata, written)
    }

    constructor ()
      ensures Valid() && Files() == []
    {
      mata, disk, indexCache, bloomCache, clock, written := [], map[], map[], map[], 0, map[];
    }

    // -------------------------------------------------------------- reading

    method GetBloom(path: nat) returns (r: Option<PB.Partitioned>)
      requires Valid() && path in written
      modifies this`bloomCache
      ensures Valid() && Known(BloomFact(r, written[path]), path)
    {
      if path in bloomCache {
        return bloomCache[path];
      }
      r := LoadKnownBloom(disk[path], written[path], path);
      bloomCache := bloomCache[path := r];
    }

    method GetBlockIndex(path: nat) returns (r: Option<seq<IndexEntry>>)
      requires Valid() && path in written
      modifies this`indexCache
      ensures Valid() && r.Some? && Known(IndexFact(r.value, written[path]), path)
    {
      if path in indexCache {
        return Some(indexCache[path]);
      }
      r := LoadKnownIndex(disk[path], written[path], path);
      if r.Some? {
        indexCache := indexCache[path := r.value];
      }
    }

    /** The whole point lookup on one file: bloom veto, binary search, block scan. */
    method ReadFromSSTable(path: nat, key: Key) returns (r: Option<Value>)
      requires Valid() && path in written && NotAbove(written[path].table, key)
      modifies this`bloomCache, this`indexCache
      ensures Valid() && r == Lookup(written[path].table, key)
    {
      var bloom := GetBloom(path);
      var veto := Vetoes(bloom, key, written[path], path);
      if veto {
        return None;
      }
      var idx := GetBlockIndex(path);
      r := SearchWith(disk[path], key, idx, written[path], path);
    }

    /** getFromSSTables: newest file first, skipping files whose key range excludes the key. */
    method GetFromSSTables(key: Key) returns (r: Option<Value>)
      requires Valid()
      modifies this`bloomCache, this`indexCache
      ensures Valid()
      ensures r == FilesLookup(Files(), key)
    {
      var i := |mata|;
      ghost var files := Files();
      assert files[..i] == files;
      while i > 0
        invariant 0 <= i <= |mata| && Valid()
        invariant FilesLookup(files, key) == FilesLookup(files[..i], key)
      {
        i := i - 1;
        var meta := mata[i];
        LookupUpTo(files, i, key);
        assert GoodMeta(meta, written);
        TableIsSorted(disk[meta.path], written[meta.path], meta.path);
        if Compare(key, meta.minKey) < 0 || Compare(key, meta.maxKey) > 0 {
          CompareFlips(key, meta.maxKey);
          OutsideRange(files[i].table, key);
        } else {
          CompareFlips(key, meta.maxKey);
          assert NotAbove(written[meta.path].table, key);
          var v := ReadFromSSTable(meta.path, key);
          if v.Some? {
            return v;
          }
        }
      }
      assert TablesOf(files[..0]) == [];
      return None;
    }

    // -------------------------------------------------------------- writing

    /** Putting a finished file on disk, in the caches and at the end of the list. */
    method Publish(file: Bytes, idx: seq<IndexEntry>, pb: PB.Partitioned, level: nat, minKey: Key, maxKey: Key,
                   ghost w: Written)
      returns (meta: Meta)
      requires Valid() && w.table != []
      requires Known(FileFact(file, w), clock) && Known(IndexFact(idx, w), clock) && Known(BloomFact(Some(pb), w), clock)
      requires minKey == w.table[0].key && maxKey == w.table[|w.table| - 1].key
      modifies this
      ensures Valid() && meta == Meta(old(clock), level, minKey, maxKey) && mata == old(mata) + [meta]
      ensures Files() == old(Files()) + [File(meta.path, level, w.table)]
      ensures FreshPath(old(Files()), meta.path)
      ensures written == old(written)[meta.path := w]
    {
      var path := clock;
      meta := Meta(path, level, minKey, maxKey);
      PublishKeeps(mata, written, meta, w);
      clock := clock + 1;
      disk := disk[path := file];
      indexCache := indexCache[path := idx];
      bloomCache := bloomCache[path := Some(pb)];
      mata := mata + [meta];
      written := written[path := w];
    }

    /** WriteToSSTable. ioFails says that an I/O call of this write fails; the file is then not
        published. */
    method WriteToSSTable(entries: Table, ioFails: bool) returns (ok: bool)
      requires Valid() && Sorted(entries) && Fits(entries) && Small(entries)
      modifies this
      ensures Valid()
      ensures ok == (entries != [] && !ioFails)
      ensures !ok ==> Files() == old(Files())
      ensures ok ==> FreshPath(old(Files()), old(clock))
      ensures ok ==> Files() == old(Files()) + [File(old(clock), 0, entries)]
    {
      if entries == [] {
        return false;
      }
      var data, idx := WriteData(entries);
      var file, pb, w := BuildFile(data, idx, Keys(entries), entries, clock);
      ok := !ioFails;
      if ok {
        var _ := Publish(file, idx, pb, 0, entries[0].key, entries[|entries| - 1].key, w);
      }
    }

    // ------------------------------------------------------------ compaction

    method GetLevelFiles(level: nat) returns (result: seq<Meta>)
      requires Valid()
      ensures Listed(result, mata)
      ensures FilesOf(result, written) == LevelFiles(Files(), level)
    {
      result := SelectLevel(mata, level, written);
    }

    /** MergeSSTable: nil when there is nothing to merge or an I/O call fails. */
    method MergeSSTable(sources: seq<Meta>, targetLevel: nat, ioFails: bool)
      returns (newMeta: Option<Meta>, ghost out: Table)
      requires Valid() && Listed(sources, mata) && SmallTogether(TablesOf(FilesOf(sources, written)))
      modifies this
      ensures Valid()
      ensures newMeta.Some? == (sources != [] && !ioFails)
      ensures newMeta == None ==> mata == old(mata) && written == old(written)
      ensures newMeta.Some? ==>
        && IsMerge(out, TablesOf(FilesOf(sources, old(written))))
        && |out| <= TotalLeft(TablesOf(FilesOf(sources, old(written))))
        && TotalBytes(out) <= BytesLeft(TablesOf(FilesOf(sources, old(written))))
        && newMeta.value.path == old(clock) && FreshPath(old(Files()), old(clock)) && mata == old(mata) + [newMeta.value]
        && Files() == old(Files()) + [File(old(clock), targetLevel, out)]
        && (forall p :: p in old(written) ==> p in written && written[p] == old(written)[p])
    {
      newMeta, out := None, [];
      if sources == [] {
        return;
      }
      ListedIsGood(sources, mata, written);
      var bytes := ReadSources(sources);
      SourcesStream(sources, disk, written, bytes);
      var ok, file, idx, pb, minKey, maxKey, w := MergeToFile(bytes, Tables(bytes), clock);
      if ok && !ioFails {
        out := w.table;
        var m := Publish(file, idx, pb, targetLevel, minKey, maxKey, w);
        newMeta := Some(m);
      }
    }

    method ReadSources(sources: seq<Meta>) returns (bytes: seq<Bytes>)
      requires GoodDisk(disk, written) && GoodMetas(sources, written)
      ensures |bytes| == |sources|
      ensures forall i :: 0 <= i < |sources| ==> sources[i].path in disk && bytes[i] == disk[sources[i].path]
    {
      bytes := [];
      for i := 0 to |sources|
        invariant |bytes| == i
        invariant forall j :: 0 <= j < i ==> sources[j].path in disk && bytes[j] == disk[sources[j].path]
      {
        assert GoodMeta(sources[i], written);
        bytes := bytes + [disk[sources[i].path]];
      }
    }

    /** DeleteSSTable followed by RemoveMata. */
    method DropSource(meta: Meta)
      requires Valid() && meta in mata
      modifies this`mata, this`disk, this`indexCache, this`bloomCache, this`written
      ensures Valid()
      ensures Files() == Remove(old(Files()), FileOf(meta, old(written)))
      ensures disk == old(disk) - {meta.path}
      ensures indexCache == old(indexCache) - {meta.path} && bloomCache == old(bloomCache) - {meta.path}
      ensures forall m :: m in old(mata) && m != meta ==> m in mata && FileOf(m, written) == FileOf(m, old(written))
    {
      var i := IndexOfMeta(mata, meta);
      DropKeepsMetas(mata, i, written);
      DropIsRemove(mata, i, written);
      disk := disk - {meta.path};
      indexCache := indexCache - {meta.path};
      bloomCache := bloomCache - {meta.path};
      written := written - {meta.path};
      mata := mata[..i] + mata[i + 1..];
    }
  }
}
