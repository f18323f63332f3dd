/** The K-way merge of storage/zstorage/merge_iterator.go, over the record cursors of iterator.go. */
module Merge {
  import opened ByteStrings
  import opened Entries
  import opened SSTableFormat
  import opened SSTableIO

  // ------------------------------------------------------------ record cursor

  /** sstableIterator: a position in a file's data section. */
  datatype Cursor = Cursor(file: Bytes, dataEnd: int, pos: nat)

  function Open(file: Bytes): Cursor {
    Cursor(file, DataEnd(file), 0)
  }

  function Rest(c: Cursor): Stream {
    Records(c.file, c.pos, c.dataEnd)
  }

  datatype Pulled = Item(entry: Entry, rest: Cursor) | Exhausted | Failed

  /** sstableIterator.Next: delivers the first remaining record, or says why there is none. */
  method NextRecord(c: Cursor) returns (r: Pulled)
    ensures Rest(c).entries != [] ==>
      r.Item? && Rest(c) == Stream([r.entry] + Rest(r.rest).entries, Rest(r.rest).clean)
    ensures Rest(c).entries == [] ==> r == if Rest(c).clean then Exhausted else Failed
  {
    if c.dataEnd > 0 && c.pos >= c.dataEnd {
      return Exhausted;
    }
    match ReadRecord(c.file, c.pos) {
      case EndOfFile => return Exhausted;
      case Truncated => return Failed;
      case Record(e, next) => return Item(e, c.(pos := next));
    }
  }

  // ------------------------------------------------------------ specification

  /** The answer of the newest table that has the key; the last table is the newest. */
  function Newest(tables: seq<Table>, k: Key): (r: Option<Value>)
    ensures r == None <==> forall j :: 0 <= j < |tables| ==> Lookup(tables[j], k) == None
  {
    if tables == [] then None
    else
      var n := |tables| - 1;
      if Lookup(tables[n], k).Some? then Lookup(tables[n], k) else Newest(tables[..n], k)
  }

  /** t is the merge of the tables: ascending, each key once with its newest value, tombstones kept. */
  ghost predicate IsMerge(t: Table, tables: seq<Table>) {
    Sorted(t) && forall k :: Lookup(t, k) == Newest(tables, k)
  }

  lemma {:induction false} NewestIs(tables: seq<Table>, k: Key, j: nat)
    requires j < |tables| && Lookup(tables[j], k).Some?
    requires forall i :: j < i < |tables| ==> Lookup(tables[i], k) == None
    ensures Newest(tables, k) == Lookup(tables[j], k)
  {
    var n := |tables| - 1;
    if j < n {
      NewestIs(tables[..n], k, j);
    }
  }

  lemma {:induction false} NewestAgrees(tables: seq<Table>, tables': seq<Table>, k: Key)
    requires |tables| == |tables'|
    requires forall j :: 0 <= j < |tables| ==> Lookup(tables[j], k) == Lookup(tables'[j], k)
    ensures Newest(tables, k) == Newest(tables', k)
  {
    if tables != [] {
      var n := |tables| - 1;
      NewestAgrees(tables[..n], tables'[..n], k);
    }
  }

  /** A source that starts after prev and delivers strictly ascending keys without a read error. */
  predicate Clean(prev: Option<Key>, s: Stream) {
    s.clean && Ascending(prev, s.entries)
  }

  predicate Ascending(prev: Option<Key>, t: Table)
    decreases t
  {
    t == [] || ((prev == None || Less(prev.value, t[0].key)) && Ascending(Some(t[0].key), t[1..]))
  }

  lemma {:induction false} AscendingIsSorted(prev: Option<Key>, t: Table)
    ensures Ascending(prev, t) <==>
            Sorted(t) && (prev.Some? ==> forall e :: e in t ==> Less(prev.value, e.key))
    decreases t
  {
    if t != [] {
      AscendingIsSorted(Some(t[0].key), t[1..]);
      if Ascending(prev, t) {
        assert t == [t[0]] + t[1..];
        SortedCons(t[0], t[1..]);
        if prev.Some? {
          forall e | e in t ensures Less(prev.value, e.key) {
            if e != t[0] { LessIsTransitive(prev.value, t[0].key, e.key); }
          }
        }
      }
      if Sorted(t) && (prev.Some? ==> forall e :: e in t ==> Less(prev.value, e.key)) {
        forall e | e in t[1..] ensures Less(t[0].key, e.key) {
          var i :| 0 <= i < |t[1..]| && t[1..][i] == e;
          assert t[i + 1] == e;
        }
      }
    }
  }

  // ------------------------------------------------------------------ the heap

  /** A source in the heap: its current entry and what follows. */
  datatype Source = Source(srcIdx: nat, key: Key, value: Value, it: Cursor)

  /** mergeHeap.Less: smaller key first, and among equal keys the newer source. */
  predicate Before(a: Source, b: Source) {
    if Compare(a.key, b.key) != 0 then Compare(a.key, b.key) < 0 else a.srcIdx > b.srcIdx
  }

  lemma {:induction false} BeforeIsTransitive(a: Source, b: Source, c: Source)
    requires Before(a, b) && Before(b, c)
    ensures Before(a, c)
  {
    if Less(a.key, b.key) && Less(b.key, c.key) {
      LessIsTransitive(a.key, b.key, c.key);
    }
  }

  /** The element that container/heap keeps at index 0. */
  method Top(h: seq<Source>) returns (t: nat)
    requires h != []
    ensures t < |h| && forall j :: 0 <= j < |h| ==> !Before(h[j], h[t])
  {
    t := 0;
    for i := 1 to |h|
      invariant t < |h| && forall j :: 0 <= j < i ==> !Before(h[j], h[t])
    {
      if Before(h[i], h[t]) {
        forall j | 0 <= j < i + 1 ensures !Before(h[j], h[i]) {
          if Before(h[j], h[i]) {
            BeforeIsTransitive(h[j], h[i], h[t]);
          }
        }
        t := i;
      }
    }
  }

  /** pull: the next entry of a source, checked against the previous key. */
  method Pull(it: Cursor, prev: Option<Key>, srcIdx: nat) returns (ok: bool, s: Option<Source>)
    ensures !ok ==> !Clean(prev, Rest(it))
    ensures ok && s == None ==> Rest(it).entries == [] && Clean(prev, Rest(it))
    ensures ok && s.Some? ==>
      && s.value.srcIdx == srcIdx
      && Rest(it).entries == [Entry(s.value.key, s.value.value)] + Rest(s.value.it).entries
      && (Clean(prev, Rest(it)) <==> Clean(Some(s.value.key), Rest(s.value.it)))
      && (prev.Some? ==> Less(prev.value, s.value.key))
  {
    var r := NextRecord(it);
    match r {
      case Failed => return false, None;
      case Exhausted => return true, None;
      case Item(e, rest) =>
        if prev.Some? && Compare(e.key, prev.value) <= 0 {
          CompareFlips(e.key, prev.value);
          return false, None;
        }
        if prev.Some? {
          CompareFlips(e.key, prev.value);
        }
        assert ([e] + Rest(rest).entries)[1..] == Rest(rest).entries;
        return true, Some(Source(srcIdx, e.key, e.value, rest));
    }
  }

  // ------------------------------------------------------------ heap invariant

  ghost predicate InHeap(s: Source, left: seq<Table>, full: seq<Stream>) {
    && s.srcIdx < |left| == |full|
    && left[s.srcIdx] == [Entry(s.key, s.value)] + Rest(s.it).entries
    && (Clean(None, full[s.srcIdx]) <==> Clean(Some(s.key), Rest(s.it)))
  }

  ghost predicate Queued(h: seq<Source>, j: nat) {
    exists i :: 0 <= i < |h| && h[i].srcIdx == j
  }

  /** left[j] is what source j has not output yet: its heap entry and what follows, or nothing. */
  ghost predicate HeapOk(h: seq<Source>, left: seq<Table>, full: seq<Stream>) {
    && |left| == |full|
    && (forall i :: 0 <= i < |h| ==> InHeap(h[i], left, full))
    && (forall i, j :: 0 <= i < j < |h| ==> h[i].srcIdx != h[j].srcIdx)
    && (forall j: nat :: j < |full| ==> Queued(h, j) || (left[j] == [] && Clean(None, full[j])))
  }

  /** Taking source t off the heap and putting its successor, if any, back on. */
  function Replace(h: seq<Source>, t: nat, s: Option<Source>): seq<Source>
    requires t < |h|
  {
    var h' := h[..t] + h[t + 1..];
    if s == None then h' else h' + [s.value]
  }

  ghost predicate Follows(from: Source, s: Option<Source>, clean: bool) {
    match s
    case None => Rest(from.it).entries == [] && clean
    case Some(n) =>
      && n.srcIdx == from.srcIdx
      && Rest(from.it).entries == [Entry(n.key, n.value)] + Rest(n.it).entries
      && (clean <==> Clean(Some(n.key), Rest(n.it)))
  }

  lemma {:induction false} ReplaceAt(h: seq<Source>, t: nat, s: Option<Source>)
    requires t < |h|
    ensures |Replace(h, t, s)| == |h| - 1 + (if s.Some? then 1 else 0)
    ensures forall i :: 0 <= i < |h| - 1 ==> Replace(h, t, s)[i] == h[if i < t then i else i + 1]
    ensures s.Some? ==> Replace(h, t, s)[|h| - 1] == s.value
  {
  }

  lemma {:induction false} ReplaceKeepsInHeap(h: seq<Source>, left: seq<Table>, full: seq<Stream>, t: nat, s: Option<Source>, i: nat)
    requires HeapOk(h, left, full) && t < |h|
    requires Follows(h[t], s, Clean(None, full[h[t].srcIdx]))
    requires i < |Replace(h, t, s)|
    ensures InHeap(Replace(h, t, s)[i], left[h[t].srcIdx := left[h[t].srcIdx][1..]], full)
  {
    assert InHeap(h[t], left, full);
    ReplaceAt(h, t, s);
    assert left[h[t].srcIdx][1..] == Rest(h[t].it).entries;
    if i < |h| - 1 {
      assert InHeap(h[if i < t then i else i + 1], left, full);
    }
  }

  lemma {:induction false} ReplaceKeepsQueued(h: seq<Source>, t: nat, s: Option<Source>, j: nat)
    requires t < |h| && (s.Some? ==> s.value.srcIdx == h[t].srcIdx)
    requires Queued(h, j) && (j == h[t].srcIdx ==> s.Some?)
    ensures Queued(Replace(h, t, s), j)
  {
    ReplaceAt(h, t, s);
    var h' := Replace(h, t, s);
    if j == h[t].srcIdx {
      assert h'[|h| - 1].srcIdx == j;
    } else {
      var i :| 0 <= i < |h| && h[i].srcIdx == j;
      assert h'[if i < t then i else i - 1].srcIdx == j;
    }
  }

  lemma {:induction false} HeapAfterReplace(h: seq<Source>, left: seq<Table>, full: seq<Stream>, t: nat, s: Option<Source>)
    requires HeapOk(h, left, full) && t < |h|
    requires Follows(h[t], s, Clean(None, full[h[t].srcIdx]))
    ensures HeapOk(Replace(h, t, s), left[h[t].srcIdx := left[h[t].srcIdx][1..]], full)
  {
    var src := h[t].srcIdx;
    var h', left' := Replace(h, t, s), left[src := left[src][1..]];
    forall i | 0 <= i < |h'| ensures InHeap(h'[i], left', full) {
      ReplaceKeepsInHeap(h, left, full, t, s, i);
    }
    assert InHeap(h[t], left, full);
    assert left[src][1..] == Rest(h[t].it).entries;
    forall j: nat | j < |full| ensures Queued(h', j) || (left'[j] == [] && Clean(None, full[j])) {
      assert Queued(h, j) || (left[j] == [] && Clean(None, full[j]));
      if Queued(h, j) && (j == src ==> s.Some?) {
        ReplaceKeepsQueued(h, t, s, j);
      }
    }
    ReplaceAt(h, t, s);
  }

  function Streams(files: seq<Bytes>): (ss: seq<Stream>)
    ensures |ss| == |files|
    ensures forall i :: 0 <= i < |files| ==> ss[i] == Rest(Open(files[i]))
  {
    seq(|files|, i requires 0 <= i < |files| => Rest(Open(files[i])))
  }

  function Tables(files: seq<Bytes>): (ts: seq<Table>)
    ensures |ts| == |files|
    ensures forall i :: 0 <= i < |files| ==> ts[i] == Streams(files)[i].entries
  {
    seq(|files|, i requires 0 <= i < |files| => Streams(files)[i].entries)
  }

  lemma {:induction false} HeapAfterPush(h: seq<Source>, left: seq<Table>, full: seq<Stream>, stream: Stream, s: Option<Source>)
    requires HeapOk(h, left, full)
    requires s == None ==> stream.entries == [] && Clean(None, stream)
    requires s.Some? ==>
      && s.value.srcIdx == |full|
      && stream.entries == [Entry(s.value.key, s.value.value)] + Rest(s.value.it).entries
      && (Clean(None, stream) <==> Clean(Some(s.value.key), Rest(s.value.it)))
    ensures HeapOk(if s.Some? then h + [s.value] else h, left + [stream.entries], full + [stream])
  {
    var h' := if s.Some? then h + [s.value] else h;
    var left', full' := left + [stream.entries], full + [stream];
    forall i | 0 <= i < |h'| ensures InHeap(h'[i], left', full') {
      if i < |h| {
        assert InHeap(h[i], left, full);
      }
    }
    forall i | 0 <= i < |h| ensures h[i].srcIdx < |full| {
      assert InHeap(h[i], left, full);
    }
    forall j: nat | j < |full'| ensures Queued(h', j) || (left'[j] == [] && Clean(None, full'[j])) {
      if j < |full| {
        assert Queued(h, j) || (left[j] == [] && Clean(None, full[j]));
        if Queued(h, j) {
          var i :| 0 <= i < |h| && h[i].srcIdx == j;
          assert h'[i].srcIdx == j;
        }
      } else if s.Some? {
        assert h'[|h|].srcIdx == j;
      }
    }
  }

  lemma {:induction false} HeapAfterPull(h: seq<Source>, tables: seq<Table>, all: seq<Stream>, i: nat, s: Option<Source>)
    requires i < |tables| == |all| && tables[i] == all[i].entries && HeapOk(h, tables[..i], all[..i])
    requires s == None ==> all[i].entries == [] && Clean(None, all[i])
    requires s.Some? ==>
      && s.value.srcIdx == i
      && all[i].entries == [Entry(s.value.key, s.value.value)] + Rest(s.value.it).entries
      && (Clean(None, all[i]) <==> Clean(Some(s.value.key), Rest(s.value.it)))
    ensures HeapOk(if s.Some? then h + [s.value] else h, tables[..i + 1], all[..i + 1])
  {
    HeapAfterPush(h, tables[..i], all[..i], all[i], s);
    assert tables[..i + 1] == tables[..i] + [tables[i]] && all[..i + 1] == all[..i] + [all[i]];
  }

  // ----------------------------------------------------------------- one step

  ghost predicate AtLeast(left: seq<Table>, k: Key) {
    forall j :: 0 <= j < |left| && left[j] != [] ==> !Less(left[j][0].key, k)
  }

  function Consume(t: Table, k: Key): Table {
    if t != [] && t[0].key == k then t[1..] else t
  }

  /** Source j is the newest one whose next entry has key k. */
  ghost predicate IsTop(left: seq<Table>, j: nat, k: Key) {
    && j < |left| && left[j] != [] && left[j][0].key == k
    && (forall i :: j < i < |left| && left[i] != [] ==> left[i][0].key != k)
  }

  /** What one Next does to the sources: the least key k is taken from every source that has it
      next, and the value output is the newest of them. */
  ghost predicate IsStep(left: seq<Table>, left': seq<Table>, k: Key, v: Value) {
    && |left| == |left'| && AtLeast(left, k)
    && (exists j: nat :: IsTop(left, j, k) && left[j][0].value == v)
    && (forall j :: 0 <= j < |left| ==> left'[j] == Consume(left[j], k))
  }

  /** Sources already advanced past k; the others are as before. */
  ghost predicate Consuming(left: seq<Table>, left': seq<Table>, k: Key) {
    && |left| == |left'|
    && (forall j :: 0 <= j < |left| ==>
          || left'[j] == left[j]
          || (&& left[j] != [] && left[j][0].key == k && left'[j] == left[j][1..]
              && (left'[j] != [] ==> Less(k, left'[j][0].key))))
  }

  ghost function Pending(left: seq<Table>, k: Key): set<nat> {
    set j: nat | j < |left| && left[j] != [] && left[j][0].key == k
  }

  lemma {:induction false} TopHasLeastKey(h: seq<Source>, left: seq<Table>, full: seq<Stream>, t: nat)
    requires HeapOk(h, left, full) && t < |h|
    requires forall j :: 0 <= j < |h| ==> !Before(h[j], h[t])
    ensures AtLeast(left, h[t].key) && IsTop(left, h[t].srcIdx, h[t].key)
    ensures left[h[t].srcIdx][0] == Entry(h[t].key, h[t].value)
  {
    assert InHeap(h[t], left, full);
    forall j | 0 <= j < |left| && left[j] != []
      ensures !Less(left[j][0].key, h[t].key) && (j > h[t].srcIdx ==> left[j][0].key != h[t].key)
    {
      assert Queued(h, j);
      var i :| 0 <= i < |h| && h[i].srcIdx == j;
      assert InHeap(h[i], left, full);
      assert !Before(h[i], h[t]);
    }
  }

  lemma {:induction false} ConsumingStep(before: seq<Table>, left: seq<Table>, k: Key, src: nat)
    requires Consuming(before, left, k) && AtLeast(left, k)
    requires src < |left| && left[src] != [] && left[src][0].key == k
    requires |left[src]| > 1 ==> Less(k, left[src][1].key)
    ensures var left' := left[src := left[src][1..]];
            Consuming(before, left', k) && AtLeast(left', k) && Pending(left', k) < Pending(left, k)
  {
    var left' := left[src := left[src][1..]];
    if |left[src]| > 1 {
      CompareFlips(k, left[src][1].key);
    }
    assert src in Pending(left, k) && src !in Pending(left', k);
  }

  lemma {:induction false} ConsumingDone(before: seq<Table>, left: seq<Table>, k: Key)
    requires Consuming(before, left, k)
    requires forall j :: 0 <= j < |left| && left[j] != [] ==> left[j][0].key != k
    ensures forall j :: 0 <= j < |left| ==> left[j] == Consume(before[j], k)
  {
  }

  lemma {:induction false} NoMoreDuplicates(left: seq<Table>, k: Key, top: nat)
    requires top < |left| && left[top] != [] && left[top][0].key != k
    requires AtLeast(left, k) && AtLeast(left, left[top][0].key)
    ensures forall j :: 0 <= j < |left| && left[j] != [] ==> left[j][0].key != k
  {
    CompareFlips(k, left[top][0].key);
  }

  class MergeIterator {
    var h: seq<Source>
    var curKey: Key
    var curVal: Value
    var err: bool
    ghost const full: seq<Stream>  // what each source file delivers, oldest source first
    ghost var left: seq<Table>     // what each source has not output yet

    ghost predicate Valid()
      reads this
    {
      && |left| == |full|
      && (err ==> exists j :: 0 <= j < |full| && !Clean(None, full[j]))
      && (!err ==> HeapOk(h, left, full))
    }

    /** newMergeIterator: one source per file, the first entry of each on the heap. */
    constructor (files: seq<Bytes>)
      ensures Valid() && full == Streams(files)
      ensures !err ==> left == Tables(files)
    {
      var heap, failed, remaining := FillHeap(files);
      full := Streams(files);
      left := remaining;
      h, err := heap, failed;
      curKey, curVal := [], None;
    }

    static method FillHeap(files: seq<Bytes>) returns (heap: seq<Source>, failed: bool, ghost remaining: seq<Table>)
      ensures |remaining| == |files|
      ensures failed ==> exists j :: 0 <= j < |files| && !Clean(None, Streams(files)[j])
      ensures !failed ==> HeapOk(heap, remaining, Streams(files)) && remaining == Tables(files)
    {
      heap, failed := [], false;
      ghost var all, tables := Streams(files), Tables(files);
      remaining := tables;
      for i := 0 to |files|
        invariant HeapOk(heap, tables[..i], all[..i])
      {
        var ok, s := Pull(Open(files[i]), None, i);
        assert all[i] == Rest(Open(files[i]));
        if !ok {
          failed := true;
          return;
        }
        HeapAfterPull(heap, tables, all, i, s);
        heap := if s.Some? then heap + [s.value] else heap;
      }
      assert tables[..|files|] == tables && all[..|files|] == all;
    }

    /** heap.Pop followed by advance. */
    method PopAndAdvance(t: nat)
      requires Valid() && !err && t < |h|
      modifies this
      ensures Valid() && curKey == old(curKey) && curVal == old(curVal)
      ensures var src := old(h[t]).srcIdx;
        !err ==> src < |old(left)| && old(left)[src] != [] && left == old(left)[src := old(left)[src][1..]]
                 && (left[src] != [] ==> Less(old(h[t].key), left[src][0].key))
    {
      var top := h[t];
      assert InHeap(top, left, full);
      var ok, s := Pull(top.it, Some(top.key), top.srcIdx);
      if !ok {
        err := true;
        h := h[..t] + h[t + 1..];
      } else {
        HeapAfterReplace(h, left, full, t, s);
        assert left[top.srcIdx][1..] == Rest(top.it).entries;
        h := Replace(h, t, s);
        left := left[top.srcIdx := left[top.srcIdx][1..]];
      }
    }

    /** Next: one deduplicated output entry, or the end, or an error. */
    method Next() returns (more: bool)
      requires Valid()
      modifies this
      ensures Valid()
      ensures more ==> !err && IsStep(old(left), left, curKey, curVal)
      ensures !more && !err ==> left == old(left) && forall j :: 0 <= j < |left| ==> left[j] == []
    {
      if err || h == [] {
        return false;
      }
      var t := Top(h);
      var dupKey := h[t].key;
      curKey, curVal := dupKey, h[t].value;
      TopHasLeastKey(h, left, full, t);
      ghost var before, src := left, h[t].srcIdx;
      PopAndAdvance(t);
      if err {
        return false;
      }
      ConsumingStep(before, before, dupKey, src);
      more := DropOlder(dupKey, old(left));
    }

    /** The loop that discards older versions of the key just output. */
    method DropOlder(dupKey: Key, ghost before: seq<Table>) returns (ok: bool)
      requires Valid() && !err && Consuming(before, left, dupKey) && AtLeast(left, dupKey)
      modifies this
      ensures Valid() && curKey == old(curKey) && curVal == old(curVal)
      ensures ok <==> !err
      ensures ok ==> |left| == |before| && forall j :: 0 <= j < |left| ==> left[j] == Consume(before[j], dupKey)
    {
      while h != []
        invariant Valid() && !err && curKey == old(curKey) && curVal == old(curVal)
        invariant Consuming(before, left, dupKey) && AtLeast(left, dupKey)
        decreases Pending(left, dupKey)
      {
        var t := Top(h);
        TopHasLeastKey(h, left, full, t);
        if h[t].key != dupKey {
          NoMoreDuplicates(left, dupKey, h[t].srcIdx);
          break;
        }
        ghost var left0, src := left, h[t].srcIdx;
        PopAndAdvance(t);
        if err {
          return false;
        }
        ConsumingStep(before, left0, dupKey, src);
      }
      if h == [] {
        assert forall j: nat :: j < |full| ==> !Queued(h, j);
      }
      ConsumingDone(before, left, dupKey);
      return true;
    }
  }

  // ---------------------------------------------------------------- whole runs

  ghost predicate AllSorted(tables: seq<Table>) {
    forall j :: 0 <= j < |tables| ==> Sorted(tables[j])
  }

  ghost predicate Above(left: seq<Table>, k: Key) {
    forall j :: 0 <= j < |left| && left[j] != [] ==> Less(k, left[j][0].key)
  }

  /** Midway: the output so far, completed by what is left, is the merge of the tables. */
  ghost predicate Merging(out: Table, left: seq<Table>, tables: seq<Table>) {
    && AllSorted(left) && Sorted(out)
    && (out != [] ==> Above(left, out[|out| - 1].key))
    && (forall q :: Answer(out, left, q) == Newest(tables, q))
  }

  /** A key's value in the output, or else the newest one still to come. */
  function Answer(out: Table, left: seq<Table>, q: Key): Option<Value> {
    if Lookup(out, q).Some? then Lookup(out, q) else Newest(left, q)
  }

  lemma {:induction false} SortedAppend(t: Table, e: Entry)
    requires Sorted(t) && (t != [] ==> Less(t[|t| - 1].key, e.key))
    ensures Sorted(t + [e]) && Lookup(t, e.key) == None
  {
    if t != [] {
      AllBelow(t, e.key, |t| - 1);
    }
    BelowIsAbsent(t, e.key);
    SortedSnoc(t, e);
  }

  lemma {:induction false} SortedSnoc(t: Table, e: Entry)
    requires Sorted(t) && forall i :: 0 <= i < |t| ==> Less(t[i].key, e.key)
    ensures Sorted(t + [e])
  {
  }

  lemma {:induction false} BelowIsAbsent(t: Table, k: Key)
    requires forall i :: 0 <= i < |t| ==> Less(t[i].key, k)
    ensures Lookup(t, k) == None
  {
    assert Compare(k, k) == 0;
  }

  lemma {:induction false} AbsentBelowHead(t: Table, k: Key)
    requires Sorted(t) && (t != [] ==> Less(k, t[0].key))
    ensures Lookup(t, k) == None
  {
    forall i | 0 <= i < |t| ensures t[i].key != k {
      if i > 0 { LessIsTransitive(k, t[0].key, t[i].key); }
    }
  }

  lemma {:induction false} NewestOfTop(left: seq<Table>, k: Key, j: nat)
    requires AllSorted(left) && AtLeast(left, k) && IsTop(left, j, k)
    ensures Newest(left, k) == Some(left[j][0].value)
  {
    LookupAt(left[j], 0);
    forall i | j < i < |left| ensures Lookup(left[i], k) == None {
      if left[i] != [] { CompareFlips(left[i][0].key, k); }
      AbsentBelowHead(left[i], k);
    }
    NewestIs(left, k, j);
  }

  lemma {:induction false} ConsumeKeepsOthers(left: seq<Table>, left': seq<Table>, k: Key, q: Key)
    requires |left| == |left'| && q != k && forall j :: 0 <= j < |left| ==> left'[j] == Consume(left[j], k)
    ensures Newest(left', q) == Newest(left, q)
  {
    NewestAgrees(left', left, q);
  }

  lemma {:induction false} ConsumeIsAbove(left: seq<Table>, left': seq<Table>, k: Key)
    requires AllSorted(left) && AtLeast(left, k) && |left| == |left'|
    requires forall j :: 0 <= j < |left| ==> left'[j] == Consume(left[j], k)
    ensures AllSorted(left') && Above(left', k)
  {
    forall j | 0 <= j < |left| ensures Sorted(left'[j]) && (left'[j] != [] ==> Less(k, left'[j][0].key)) {
      if left[j] != [] {
        CompareFlips(left[j][0].key, k);
        if left[j][0].key == k && |left[j]| > 1 {
          assert Less(left[j][0].key, left[j][1].key);
        }
      }
    }
  }

  lemma {:induction false} MergingStep(out: Table, left: seq<Table>, left': seq<Table>, tables: seq<Table>, k: Key, v: Value)
    requires Merging(out, left, tables) && IsStep(left, left', k, v)
    ensures Merging(out + [Entry(k, v)], left', tables)
  {
    SortedAppend(out, Entry(k, v));
    ConsumeIsAbove(left, left', k);
    forall q ensures Answer(out + [Entry(k, v)], left', q) == Newest(tables, q) {
      AnswerAfterStep(out, left, left', k, v, q);
      assert Answer(out, left, q) == Newest(tables, q);
    }
  }

  lemma {:induction false} AnswerAfterStep(out: Table, left: seq<Table>, left': seq<Table>, k: Key, v: Value, q: Key)
    requires AllSorted(left) && IsStep(left, left', k, v) && Lookup(out, k) == None
    ensures Answer(out + [Entry(k, v)], left', q) == Answer(out, left, q)
  {
    LookupAppend(out, [Entry(k, v)], q);
    if q == k {
      var j: nat :| IsTop(left, j, k) && left[j][0].value == v;
      NewestOfTop(left, k, j);
    } else {
      ConsumeKeepsOthers(left, left', k, q);
    }
  }

  function TotalLeft(left: seq<Table>): nat {
    if left == [] then 0 else |left[|left| - 1]| + TotalLeft(left[..|left| - 1])
  }

  lemma {:induction false} TotalLeftDrops(left: seq<Table>, left': seq<Table>, k: Key)
    requires |left| == |left'| && forall j :: 0 <= j < |left| ==> left'[j] == Consume(left[j], k)
    ensures TotalLeft(left') <= TotalLeft(left)
    ensures (exists j: nat :: j < |left| && left[j] != [] && left[j][0].key == k) ==> TotalLeft(left') < TotalLeft(left)
  {
    if left != [] {
      var n := |left| - 1;
      TotalLeftDrops(left[..n], left'[..n], k);
      if j: nat :| j < |left| && left[j] != [] && left[j][0].key == k {
        if j < n { assert left[..n][j] == left[j]; }
      }
    }
  }

  function BytesLeft(left: seq<Table>): nat {
    if left == [] then 0 else TotalBytes(left[|left| - 1]) + BytesLeft(left[..|left| - 1])
  }

  /** What a step yields, it takes from some source. */
  lemma {:induction false} BytesLeftDrop(left: seq<Table>, left': seq<Table>, k: Key)
    requires |left| == |left'| && forall j :: 0 <= j < |left| ==> left'[j] == Consume(left[j], k)
    ensures BytesLeft(left') <= BytesLeft(left)
    ensures forall j :: 0 <= j < |left| && left[j] != [] && left[j][0].key == k ==>
      BytesLeft(left') + EntryLen(left[j][0]) <= BytesLeft(left)
  {
    if left != [] {
      var n := |left| - 1;
      BytesLeftDrop(left[..n], left'[..n], k);
      forall j | 0 <= j < |left| && left[j] != [] && left[j][0].key == k
        ensures BytesLeft(left') + EntryLen(left[j][0]) <= BytesLeft(left)
      {
        if j < n { assert left[..n][j] == left[j]; }
      }
    }
  }

  /** Output and sources together never grow. */
  ghost predicate NoLarger(out: Table, left: seq<Table>, tables: seq<Table>) {
    && |out| + TotalLeft(left) <= TotalLeft(tables)
    && TotalBytes(out) + BytesLeft(left) <= BytesLeft(tables)
  }

  lemma {:induction false} StepIsNoLarger(out: Table, left: seq<Table>, left': seq<Table>, tables: seq<Table>, k: Key, v: Value)
    requires NoLarger(out, left, tables) && IsStep(left, left', k, v)
    ensures NoLarger(out + [Entry(k, v)], left', tables) && TotalLeft(left') < TotalLeft(left)
  {
    var j: nat :| IsTop(left, j, k) && left[j][0].value == v;
    assert left[j][0] == Entry(k, v);
    TotalLeftDrops(left, left', k);
    BytesLeftDrop(left, left', k);
    TotalBytesAppend(out, Entry(k, v));
  }

  lemma {:induction false} HeapEntryIsLeft(h: seq<Source>, left: seq<Table>, full: seq<Stream>, i: nat)
    requires HeapOk(h, left, full) && i < |h|
    ensures h[i].srcIdx < |left| && left[h[i].srcIdx] != []
  {
    assert InHeap(h[i], left, full);
  }

  lemma {:induction false} DrainedIsClean(h: seq<Source>, left: seq<Table>, full: seq<Stream>, j: nat)
    requires HeapOk(h, left, full) && (forall i :: 0 <= i < |left| ==> left[i] == []) && j < |full|
    ensures Clean(None, full[j])
  {
    if h != [] {
      HeapEntryIsLeft(h, left, full, 0);
      assert false;
    }
    assert Queued(h, j) || Clean(None, full[j]);
  }

  lemma {:induction false} CleanIsSorted(files: seq<Bytes>)
    requires forall j :: 0 <= j < |files| ==> Clean(None, Streams(files)[j])
    ensures AllSorted(Tables(files))
  {
    forall j | 0 <= j < |files| ensures Sorted(Tables(files)[j]) {
      AscendingIsSorted(None, Streams(files)[j].entries);
    }
  }

  /** What the streaming writer has produced for the entries output so far. */
  datatype Writer = Writer(data: Bytes, idx: seq<IndexEntry>, keys: seq<Key>, dataOffset: nat)

  ghost predicate Wrote(w: Writer, out: Table) {
    && w.data == EncodeData(out) && w.idx == BlockIndex(out) && w.dataOffset == |w.data|
    && |w.keys| == |out| && (forall i :: 0 <= i < |out| ==> w.keys[i] == out[i].key)
  }

  method Emit(w: Writer, count: nat, k: Key, v: Value, ghost out: Table) returns (w': Writer)
    requires Wrote(w, out) && count == |out|
    ensures Wrote(w', out + [Entry(k, v)])
  {
    AppendRecord(out, Entry(k, v));
    var idx := PutIndex(w.idx, count, k, w.dataOffset);
    var data := PutRecord(w.data, Entry(k, v));
    var dataOffset := w.dataOffset + if v == None then 8 + |k| else 8 + |k| + |v.value|;
    w' := Writer(data, idx, w.keys + [k], dataOffset);
  }

  /** The loop of MergeSSTable: streams the merge of the files into a data section, with a running
      offset for the block index. It succeeds exactly when every source is clean. */
  method MergeFiles(files: seq<Bytes>) returns (ok: bool, w: Writer, ghost out: Table)
    ensures ok <==> forall j :: 0 <= j < |files| ==> Clean(None, Streams(files)[j])
    ensures ok ==> IsMerge(out, Tables(files)) && Wrote(w, out)
    ensures ok ==> |out| <= TotalLeft(Tables(files)) && TotalBytes(out) <= BytesLeft(Tables(files))
  {
    w, out := Writer([], [], [], 0), [];
    var mi := new MergeIterator(files);
    if mi.err {
      return false, w, out;
    }
    assert Merging([], mi.left, Tables(files)) <== AllSorted(Tables(files));
    ok, w, out := Drain(mi, Tables(files));
    if ok {
      forall j | 0 <= j < |files| ensures Clean(None, Streams(files)[j]) {
        DrainedIsClean(mi.h, mi.left, mi.full, j);
      }
      CleanIsSorted(files);
      MergingIsDone(out, mi.left, Tables(files));
    }
  }

  lemma {:induction false} MergingIsDone(out: Table, left: seq<Table>, tables: seq<Table>)
    requires Merging(out, left, tables) && forall i :: 0 <= i < |left| ==> left[i] == []
    ensures IsMerge(out, tables)
  {
    forall q ensures Lookup(out, q) == Newest(tables, q) {
      assert Answer(out, left, q) == Newest(tables, q);
    }
  }

  ghost predicate Draining(out: Table, left: seq<Table>, tables: seq<Table>, all: seq<Table>) {
    NoLarger(out, left, all) && (AllSorted(tables) ==> Merging(out, left, tables))
  }

  lemma {:induction false} DrainingStep(out: Table, left: seq<Table>, left': seq<Table>, tables: seq<Table>, all: seq<Table>, k: Key, v: Value)
    requires Draining(out, left, tables, all) && IsStep(left, left', k, v)
    ensures Draining(out + [Entry(k, v)], left', tables, all) && TotalLeft(left') < TotalLeft(left)
  {
    StepIsNoLarger(out, left, left', all, k, v);
    if AllSorted(tables) {
      MergingStep(out, left, left', tables, k, v);
    }
  }

  method Drain(mi: MergeIterator, ghost tables: seq<Table>) returns (ok: bool, w: Writer, ghost out: Table)
    requires mi.Valid() && !mi.err && (AllSorted(tables) ==> Merging([], mi.left, tables))
    modifies mi
    ensures mi.Valid() && ok == !mi.err && Wrote(w, out)
    ensures ok ==> forall j :: 0 <= j < |mi.left| ==> mi.left[j] == []
    ensures ok && AllSorted(tables) ==> Merging(out, mi.left, tables)
    ensures ok ==> NoLarger(out, mi.left, old(mi.left))
  {
    w, out := Writer([], [], [], 0), [];
    ghost var all := mi.left;
    var count := 0;
    while true
      invariant mi.Valid() && !mi.err
      invariant Draining(out, mi.left, tables, all)
      invariant Wrote(w, out) && count == |out|
      decreases TotalLeft(mi.left)
    {
      ghost var left0 := mi.left;
      var more := mi.Next();
      if !more {
        return !mi.err, w, out;
      }
      DrainingStep(out, left0, mi.left, tables, all, mi.curKey, mi.curVal);
      w := Emit(w, count, mi.curKey, mi.curVal, out);
      out := out + [Entry(mi.curKey, mi.curVal)];
      count := count + 1;
    }
  }

  lemma {:induction false} LookupIsMember(t: Table, k: Key)
    requires Lookup(t, k).Some?
    ensures Entry(k, Lookup(t, k).value) in t
  {
    if t[0].key != k {
      LookupIsMember(t[1..], k);
    }
  }

  lemma {:induction false} NewestIsMember(tables: seq<Table>, k: Key) returns (j: nat)
    requires Newest(tables, k).Some?
    ensures j < |tables| && Entry(k, Newest(tables, k).value) in tables[j]
  {
    var n := |tables| - 1;
    if Lookup(tables[n], k).Some? {
      j := n;
      LookupIsMember(tables[n], k);
    } else {
      j := NewestIsMember(tables[..n], k);
    }
  }

  /** A merge holds only entries of its sources, so it fits where they fit. */
  lemma {:induction false} MergeFits(t: Table, tables: seq<Table>)
    requires IsMerge(t, tables) && forall j :: 0 <= j < |tables| ==> Fits(tables[j])
    ensures Fits(t)
  {
    forall i | 0 <= i < |t| ensures FitsEntry(t[i]) {
      LookupAt(t, i);
      var j := NewestIsMember(tables, t[i].key);
      assert t[i] in tables[j];
    }
  }

  lemma {:induction false} MergeIsNonEmpty(t: Table, tables: seq<Table>)
    requires IsMerge(t, tables) && tables != [] && tables[0] != []
    ensures t != []
  {
    var k := tables[0][0].key;
    assert Lookup(tables[0], k).Some?;
    assert Newest(tables, k).Some?;
  }
}
