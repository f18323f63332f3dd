/** The memtable of storage/zstorage/memtable.go over real skip lists, real files and a real credit
    pool. Each method is one step, or one short run of steps, of the Lsm step system. */
module MemTables {
  import opened ByteStrings
  import opened Entries
  import opened SSTableFormat
  import opened Merge
  import opened Lsm
  import opened SSTables
  import opened SkipLists
  import opened Credit
  import opened RangeScan

  ghost predicate Apart(a: seq<SkipNode>, b: seq<SkipNode>) {
    forall n :: n in a ==> n !in b
  }

  class MemTable {
    var active: SkipList
    var dirty: SkipList?
    const sst: SSTable
    const credits: Pool
    const maxLevel: nat
    const maxMemTableSize: int
    const maxCompactionSize: int
    var flushSignal: bool      // FlushChan, which holds one signal at most
    ghost var flush: FlushPc

    ghost function DirtyNodes(): set<SkipNode>
      reads this, dirty
    {
      if dirty == null then {} else set n | n in dirty.nodes
    }

    /** Both skip lists are well formed and share no node. */
    ghost predicate ListsValid()
      reads this, active, active.nodes, dirty, DirtyNodes()
    {
      && active.Valid() && active.maxLevel == maxLevel >= 1 && Fits(active.contents)
      && (dirty != null ==> dirty != active && dirty.Valid() && Fits(dirty.contents) && dirty.contents != [] && Apart(active.nodes, dirty.nodes))
    }

    ghost predicate Valid()
      reads this, active, active.nodes, dirty, DirtyNodes(), sst
    {
      && ListsValid()
      && (flush.Writing? || flush.Published? ==> dirty != null)
      && sst.Valid()
    }

    /** The state of the step system that this memtable stands for. */
    ghost function Abs(): Lsm.State
      reads this, active, dirty, sst
    {
      Lsm.State(active.contents, if dirty == null then None else Some(dirty.contents), sst.Files(),
                flush, Resting, maxCompactionSize)
    }

    ghost function Unflushed(): int
      reads this, active, dirty
    {
      active.byteSize + if dirty == null then 0 else dirty.byteSize
    }

    constructor (budget: int, maxLevel: nat, maxMemTableSize: int, maxCompactionSize: int)
      requires 1 <= maxLevel
      ensures Valid() && Abs() == Init(maxCompactionSize)
      ensures credits.used == Unflushed() == 0
    {
      active := new SkipList(maxLevel);
      dirty := null;
      sst := new SSTable();
      credits := new Pool(budget);
      this.maxLevel, this.maxMemTableSize, this.maxCompactionSize := maxLevel, maxMemTableSize, maxCompactionSize;
      flushSignal, flush := false, Idle;
    }

    // -------------------------------------------------------------- reading

    /** active, then dirty, then the files; a tombstone reads as not found. */
    method Get(key: Key) returns (r: Option<Bytes>)
      requires Valid()
      modifies sst`bloomCache, sst`indexCache
      ensures Valid() && Abs() == old(Abs())
      ensures r == Lsm.Get(Abs(), key)
      ensures forall b :: r == Some(b) <==> Find(Abs(), key) == Some(Some(b))
    {
      var v := SearchLists(key);
      if v == None {
        v := sst.GetFromSSTables(key);
      }
      r := if v.Some? then v.value else None;
    }

    method SearchLists(key: Key) returns (v: Option<Value>)
      requires ListsValid()
      ensures v == if Lookup(active.contents, key).Some? || dirty == null then Lookup(active.contents, key)
                   else Lookup(dirty.contents, key)
    {
      v := active.Search(key);
      if v == None && dirty != null {
        v := dirty.Search(key);
      }
    }

    // ------------------------------------------------------------- scanning

    /** a and d stand i and j entries into active and dirty. */
    ghost predicate StandsAt(a: SkipNode?, d: SkipNode?, i: nat, j: nat)
      reads this, active, dirty
    {
      && i <= |active.contents| && a == SkipList.At(active.nodes, i + 1)
      && j <= |DirtyContents()| && d == if dirty == null then null else SkipList.At(dirty.nodes, j + 1)
    }

    ghost function DirtyContents(): Table
      reads this, dirty
    {
      if dirty == null then [] else dirty.contents
    }

    /** What is left to visit from there. */
    ghost function Left(i: nat, j: nat): Table
      requires i <= |active.contents| && j <= |DirtyContents()|
      reads this, active, dirty
    {
      Overlay(active.contents[i..], DirtyContents()[j..])
    }

    /** The switch of ScanRange: the smaller key; on a tie active's entry, advancing both. */
    method TakeNext(a: SkipNode?, d: SkipNode?, ghost i: nat, ghost j: nat)
      returns (e: Entry, a': SkipNode?, d': SkipNode?, ghost i': nat, ghost j': nat)
      requires ListsValid() && StandsAt(a, d, i, j) && (a != null || d != null)
      ensures StandsAt(a', d', i', j') && i' + j' > i + j
      ensures Left(i, j) != [] && e == Left(i, j)[0] && Left(i', j') == Left(i, j)[1..]
    {
      var inA, inD, nextA, nextD := ReadBoth(a, d, i, j);
      e, a', d', i', j' := Choose(a, d, inA, inD, nextA, nextD, i, j);
    }

    method Choose(a: SkipNode?, d: SkipNode?, inA: Entry, inD: Entry, nextA: SkipNode?, nextD: SkipNode?, ghost i: nat, ghost j: nat)
      returns (e: Entry, a': SkipNode?, d': SkipNode?, ghost i': nat, ghost j': nat)
      requires StandsAt(a, d, i, j) && (a != null || d != null)
      requires (a == null <==> i == |active.contents|) && (d == null <==> j == |DirtyContents()|)
      requires a != null ==> inA == active.contents[i] && StandsAt(nextA, d, i + 1, j)
      requires d != null ==> inD == DirtyContents()[j] && StandsAt(a, nextD, i, j + 1)
      ensures StandsAt(a', d', i', j') && i' + j' > i + j
      ensures Left(i, j) != [] && e == Left(i, j)[0] && Left(i', j') == Left(i, j)[1..]
    {
      OverlayAt(active.contents, DirtyContents(), i, j);
      if d == null || (a != null && Compare(inA.key, inD.key) < 0) {
        e, a', d', i', j' := inA, nextA, d, i + 1, j;
      } else if a == null || Compare(inD.key, inA.key) < 0 {
        e, a', d', i', j' := inD, a, nextD, i, j + 1;
      } else {
        e, a', d', i', j' := inA, nextA, nextD, i + 1, j + 1;
      }
    }

    method ReadBoth(a: SkipNode?, d: SkipNode?, ghost i: nat, ghost j: nat)
      returns (inA: Entry, inD: Entry, nextA: SkipNode?, nextD: SkipNode?)
      requires ListsValid() && StandsAt(a, d, i, j)
      ensures a == null <==> i == |active.contents|
      ensures d == null <==> j == |DirtyContents()|
      ensures a != null ==> inA == active.contents[i] && StandsAt(nextA, d, i + 1, j)
      ensures d != null ==> inD == DirtyContents()[j] && StandsAt(a, nextD, i, j + 1)
    {
      inA, inD, nextA, nextD := Entry([], None), Entry([], None), a, d;
      if a != null { inA, nextA := active.ReadNode(a, i); }
      if d != null { inD, nextD := dirty.ReadNode(d, j); }
    }

    /** Calls fn, with its state threaded through, on every live entry of the hot data in range. */
    method ScanRange<A>(start: Key, end: Key, fn: (A, Key, Bytes) -> (A, bool), init: A) returns (acc: A)
      requires ListsValid()
      ensures acc == Visit(fn, init, HotHits(Abs(), start, end))
    {
      var a, d := ScanStart(start);
      SkipBelowStart(active.contents, DirtyContents(), start, end);
      acc := ScanFrom(a, d, end, fn, init, LowerBound(active.contents, start), LowerBound(DirtyContents(), start));
    }

    method ScanStart(start: Key) returns (a: SkipNode?, d: SkipNode?)
      requires ListsValid()
      ensures StandsAt(a, d, LowerBound(active.contents, start), LowerBound(DirtyContents(), start))
    {
      d := null;
      a := active.FirstGTE(start);
      if dirty != null {
        d := dirty.FirstGTE(start);
      }
    }

    /** The loop of ScanRange. */
    method ScanFrom<A>(first: SkipNode?, firstDirty: SkipNode?, end: Key, fn: (A, Key, Bytes) -> (A, bool), init: A,
                       ghost i0: nat, ghost j0: nat)
      returns (acc: A)
      requires ListsValid() && StandsAt(first, firstDirty, i0, j0)
      ensures acc == Visit(fn, init, LiveIn(Left(i0, j0), [], end))
    {
      var a, d := first, firstDirty;
      ghost var i, j := i0, j0;
      acc := init;
      while a != null || d != null
        invariant StandsAt(a, d, i, j)
        invariant Visit(fn, acc, LiveIn(Left(i, j), [], end)) == Visit(fn, init, LiveIn(Left(i0, j0), [], end))
        decreases |active.contents| + |DirtyContents()| - i - j
      {
        var stop;
        acc, stop, a, d, i, j := VisitNext(a, d, end, fn, acc, i, j);
        if stop {
          return;
        }
      }
      NothingLeft(i, j);
    }

    lemma {:induction false} NothingLeft(i: nat, j: nat)
      requires ListsValid() && StandsAt(null, null, i, j)
      ensures Left(i, j) == []
    {
    }

    /** One turn: stop past the upper bound or when fn says so, and skip tombstones. */
    method VisitNext<A>(a: SkipNode?, d: SkipNode?, end: Key, fn: (A, Key, Bytes) -> (A, bool), acc: A, ghost i: nat, ghost j: nat)
      returns (acc': A, stop: bool, a': SkipNode?, d': SkipNode?, ghost i': nat, ghost j': nat)
      requires ListsValid() && StandsAt(a, d, i, j) && (a != null || d != null)
      ensures StandsAt(a', d', i', j') && i' + j' > i + j
      ensures Visit(fn, acc, LiveIn(Left(i, j), [], end)) ==
              if stop then acc' else Visit(fn, acc', LiveIn(Left(i', j'), [], end))
    {
      LeftIsSorted(i, j);
      acc', stop := acc, false;
      var e;
      e, a', d', i', j' := TakeNext(a, d, i, j);
      assert Left(i, j) == [e] + Left(i', j');
      VisitHead(fn, acc, e, Left(i', j'), end);
      if end != [] && Compare(e.key, end) > 0 {
        stop := true;
      } else if e.value.Some? {
        var (next, go) := fn(acc, e.key, e.value.value);
        acc', stop := next, !go;
      }
    }

    lemma {:induction false} LeftIsSorted(i: nat, j: nat)
      requires ListsValid() && i <= |active.contents| && j <= |DirtyContents()|
      ensures Sorted(Left(i, j))
    {
      OverlayIsSorted(active.contents[i..], DirtyContents()[j..]);
    }

    // -------------------------------------------------------------- writing

    /** Put and Delete (with None) up to the point where they return, or block in Acquire. */
    method Write(key: Key, value: Value, newLevel: nat) returns (admitted: bool)
      requires Valid() && FitsEntry(Entry(key, value)) && 1 <= newLevel <= maxLevel
      modifies this, credits, active, active.nodes
      ensures Valid()
      ensures active == old(active) && forall i :: 0 <= i < |active.nodes| ==> active.nodes[i] in old(active.nodes) || fresh(active.nodes[i])
      ensures admitted == old(credits.Fits(|key| + ValueLen(value)))
      ensures var full := |key| + if value.Some? then |value.value| else 0;
              !admitted <==> credits.budget > 0 && old(credits.used) != 0 && old(credits.used) + full > credits.budget
      ensures Abs() == if admitted then Apply(old(Abs()), Step.Write(key, value)) else old(Abs())
      ensures forall q :: Find(Abs(), q) == if admitted && q == key then Some(value) else Find(old(Abs()), q)
      ensures !admitted ==> credits.used == old(credits.used)
      ensures admitted && credits.budget > 0 && old(credits.used == Unflushed()) ==>
        Unflushed() <= Max(credits.budget, |key| + ValueLen(value))
      ensures old(credits.used == Unflushed()) ==> credits.used == Unflushed()
      ensures flushSignal == (old(flushSignal) || !admitted || active.size > maxMemTableSize)
    {
      var full := |key| + ValueLen(value);
      WriteShows(Abs(), key, value);
      admitted := credits.TryAcquire(full);
      if admitted {
        WriteReserved(key, value, newLevel);
      } else {
        flushSignal := true;
      }
    }

    /** The rest of a write that had to wait, once there is room. */
    method WriteAfterWait(key: Key, value: Value, newLevel: nat)
      requires Valid() && FitsEntry(Entry(key, value)) && 1 <= newLevel <= maxLevel
      requires credits.Fits(|key| + ValueLen(value))
      modifies this, credits, active, active.nodes
      ensures Valid()
      ensures Abs() == Apply(old(Abs()), Step.Write(key, value))
      ensures forall q :: Find(Abs(), q) == if q == key then Some(value) else Find(old(Abs()), q)
      ensures credits.budget > 0 && old(credits.used == Unflushed()) ==>
        Unflushed() <= Max(credits.budget, |key| + ValueLen(value))
      ensures old(credits.used == Unflushed()) ==> credits.used == Unflushed()
      ensures flushSignal == (old(flushSignal) || active.size > maxMemTableSize)
    {
      WriteShows(Abs(), key, value);
      credits.Acquire(|key| + ValueLen(value));
      WriteReserved(key, value, newLevel);
    }

    /** The rest of Put and Delete, once the credit is held: insert, signal, refund the excess. */
    method WriteReserved(key: Key, value: Value, newLevel: nat)
      requires Valid() && FitsEntry(Entry(key, value)) && 1 <= newLevel <= maxLevel
      modifies this`flushSignal, credits, active, active.nodes
      ensures Valid()
      ensures forall i :: 0 <= i < |active.nodes| ==> active.nodes[i] in old(active.nodes) || fresh(active.nodes[i])
      ensures Abs() == Apply(old(Abs()), Step.Write(key, value))
      ensures Unflushed() <= old(Unflushed()) + |key| + ValueLen(value)
      ensures old(credits.used == Unflushed() + |key| + ValueLen(value)) ==> credits.used == Unflushed()
      ensures flushSignal == (old(flushSignal) || active.size > maxMemTableSize)
    {
      var full := |key| + ValueLen(value);
      var delta := InsertActive(key, value, newLevel);
      Settle(full - delta);
    }

    /** Signals a flush if active has grown too large, and refunds the excess. */
    method Settle(over: int)
      modifies this`flushSignal, credits
      ensures old(credits.used) >= over ==> credits.used == old(credits.used) - over
      ensures flushSignal == (old(flushSignal) || active.size > maxMemTableSize)
    {
      if active.size > maxMemTableSize {
        flushSignal := true;
      }
      if over != 0 {
        credits.Release(over);
      }
    }

    method InsertActive(key: Key, value: Value, newLevel: nat) returns (delta: int)
      requires ListsValid() && FitsEntry(Entry(key, value)) && 1 <= newLevel <= maxLevel
      modifies active, active.nodes
      ensures ListsValid()
      ensures forall i :: 0 <= i < |active.nodes| ==> active.nodes[i] in old(active.nodes) || fresh(active.nodes[i])
      ensures active.contents == Insert(old(active.contents), key, value)
      ensures delta == active.byteSize - old(active.byteSize) <= |key| + ValueLen(value)
    {
      InsertKeepsFits(active.contents, key, value);
      TotalBytesAfterInsert(active.contents, key, value);
      delta := active.Insert(key, value, newLevel);
      if dirty != null {
        forall a | 0 <= a < |dirty.nodes| ensures unchanged(dirty.nodes[a]) {
          assert dirty.nodes[a] in dirty.nodes;
        }
      }
    }

    // ------------------------------------------------------------- flushing

    /** The first locked phase of Flush. */
    method FlushSwap() returns (started: bool)
      requires Valid() && flush.Idle?
      modifies this
      ensures Valid()
      ensures started == Enabled(old(Abs()), FlushBegin)
      ensures Abs() == if started then Apply(old(Abs()), FlushBegin) else old(Abs())
      ensures Unflushed() == old(Unflushed())
      ensures (dirty == old(dirty) || dirty == old(active))
    {
      if dirty == null {
        if active.size == 0 {
          return false;
        }
        dirty := active;
        active := new SkipList(maxLevel);
      }
      flush := Writing;
      return true;
    }

    /** The unlocked phase: dirty becomes the newest file, or, when I/O fails, stays for a retry. */
    method FlushWrite(ioFails: bool) returns (ok: bool, ghost path: nat)
      requires Valid() && flush.Writing? && Small(dirty.contents)
      modifies this`flush, this`flushSignal, sst
      ensures Valid()
      ensures var step := if ok then FlushPublish(path) else FlushFail;
              Enabled(old(Abs()), step) && Abs() == Apply(old(Abs()), step)
      ensures ok == !ioFails
      ensures !ok ==> flushSignal
    {
      ok, path := WriteDirty(ioFails);
      if ok {
        flush := Published;
      } else {
        flush := Idle;
        flushSignal := true;
      }
    }

    method WriteDirty(ioFails: bool) returns (ok: bool, ghost path: nat)
      requires Valid() && flush.Writing? && Small(dirty.contents)
      modifies sst
      ensures sst.Valid()
      ensures ok == !ioFails
      ensures ok ==> FreshPath(old(sst.Files()), path)
      ensures sst.Files() == old(sst.Files()) + if ok then [File(path, 0, dirty.contents)] else []
    {
      path := sst.clock;
      var entries := dirty.CollectAllEntry();
      ok := sst.WriteToSSTable(entries, ioFails);
    }

    /** The second locked phase, then the release of dirty's bytes. */
    method FlushDone()
      requires Valid() && flush.Published?
      modifies this`flush, this`dirty, credits
      ensures Valid() && flush.Idle?
      ensures Abs() == Apply(old(Abs()), FlushClear)
      ensures old(credits.used == Unflushed()) ==> credits.used == Unflushed()
    {
      var freed := dirty.byteSize;
      dirty := null;
      flush := Idle;
      credits.Release(freed);
    }

    /** One call of Flush by the single flush worker: nothing to do, a failure that keeps dirty, or
        a file published and dirty cleared. No read can tell. */
    method Flush(ioFails: bool) returns (ghost steps: seq<Step>)
      requires Valid() && flush.Idle?
      requires Small(active.contents) && (dirty != null ==> Small(dirty.contents))
      modifies this, sst, credits
      ensures Valid() && flush.Idle?
      ensures IsFlush(steps) && Runs(old(Abs()), steps) && Abs() == Exec(old(Abs()), steps)
      ensures steps == [] <==> old(dirty == null && active.contents == [])
      ensures steps != [] ==> (|steps| == 3 <==> !ioFails)
      ensures old(Inv(Abs())) ==> Inv(Abs()) && forall k :: Find(Abs(), k) == Find(old(Abs()), k)
      ensures old(credits.used == Unflushed()) ==> credits.used == Unflushed()
    {
      ghost var s := Abs();
      steps := [];
      var started := FlushSwap();
      if started {
        var ok;
        ghost var path;
        ok, path := FlushWriteAndClear(ioFails);
        steps := [FlushBegin] + if ok then [FlushPublish(path), FlushClear] else [FlushFail];
        assert steps[1..] == if ok then [FlushPublish(path), FlushClear] else [FlushFail];
      }
      if Inv(s) {
        FlushIsInvisible(s, steps);
      }
    }

    method FlushWriteAndClear(ioFails: bool) returns (ok: bool, ghost path: nat)
      requires Valid() && flush.Writing? && Small(dirty.contents)
      modifies this`flush, this`flushSignal, this`dirty, sst, credits
      ensures Valid() && flush.Idle?
      ensures ok == !ioFails
      ensures var steps := if ok then [FlushPublish(path), FlushClear] else [FlushFail];
              Runs(old(Abs()), steps) && Abs() == Exec(old(Abs()), steps)
      ensures old(credits.used == Unflushed()) ==> credits.used == Unflushed()
    {
      ghost var s := Abs();
      ok, path := FlushWrite(ioFails);
      if ok {
        FlushDone();
        RunOfTwo(s, FlushPublish(path), FlushClear);
      } else {
        RunOfOne(s, FlushFail);
      }
    }

    // ----------------------------------------------------------- compaction

    /** One level of the loop, for an engine in state s: skipped when short, merged, or left alone when
        the merge fails. */
    static method CompactLevel(sst: SSTable, level: nat, maxCompactionSize: int, ioFails: nat -> bool, ghost s: Lsm.State)
      returns (complete: bool, ghost steps: seq<Step>)
      requires sst.Valid() && SmallTogether(TablesOf(sst.Files())) && StandsAtLevel(s, sst.Files(), level, maxCompactionSize)
      modifies sst
      ensures sst.Valid() && SmallTogether(TablesOf(sst.Files()))
      ensures complete == (Count(s.files, level) < Limit(maxCompactionSize) || !ioFails(level))
      ensures IsPass(s, PastLevel(s, sst.Files()), steps, complete, ioFails)
      ensures complete ==> IsLevelPass(s.files, sst.Files(), level, maxCompactionSize)
    {
      var files := sst.GetLevelFiles(level);
      if |files| < maxCompactionSize || files == [] {
        steps := SkipStep(s, ioFails);
        return true, steps;
      }
      LevelIsPart(sst.Files(), level);
      complete, steps := MergeLevel(sst, files, level, ioFails, s);
      if complete {
        LevelPassIsSmall(s.files, sst.Files(), level, maxCompactionSize);
      }
    }

    static method MergeLevel(sst: SSTable, files: seq<Meta>, level: nat, ioFails: nat -> bool, ghost s: Lsm.State)
      returns (merged: bool, ghost steps: seq<Step>)
      requires sst.Valid() && Listed(files, sst.mata) && FilesOf(files, sst.written) == LevelFiles(sst.Files(), level)
      requires SmallTogether(TablesOf(FilesOf(files, sst.written)))
      requires s.files == sst.Files() && s.compact == AtLevel(level) && Fires(s)
      modifies sst
      ensures sst.Valid()
      ensures merged == !ioFails(level)
      ensures IsPass(s, PastLevel(s, sst.Files()), steps, merged, ioFails)
      ensures merged ==> IsLevelPass(s.files, sst.Files(), level, s.maxCompaction)
      ensures !merged ==> sst.Files() == s.files
    {
      ghost var f;
      merged, f := MergeAndDrop(sst, files, level, ioFails(level));
      steps := LevelSteps(s, merged, f, sst.Files(), ioFails);
    }

    static method MergeAndDrop(sst: SSTable, files: seq<Meta>, level: nat, ioFails: bool) returns (merged: bool, ghost f: File)
      requires sst.Valid() && Listed(files, sst.mata) && SmallTogether(TablesOf(FilesOf(files, sst.written)))
      modifies sst
      ensures sst.Valid() && merged == (files != [] && !ioFails)
      ensures !merged ==> sst.Files() == old(sst.Files())
      ensures merged ==>
        && f.level == level + 1 && FreshPath(old(sst.Files()), f.path)
        && IsMergeOf(f.table, TablesOf(FilesOf(files, old(sst.written))))
        && sst.Files() == RemoveAll(old(sst.Files()) + [f], FilesOf(files, old(sst.written)))
    {
      var newMeta, out := sst.MergeSSTable(files, level + 1, ioFails);
      merged := newMeta.Some?;
      if merged {
        f := File(newMeta.value.path, level + 1, out);
        ListedGrows(files, old(sst.mata), newMeta.value, old(sst.written), sst.written);
        DropSources(sst, files);
      } else {
        f := File(0, 0, []);
      }
    }

    static method DropSources(sst: SSTable, sources: seq<Meta>)
      requires sst.Valid() && Listed(sources, sst.mata)
      modifies sst`mata, sst`disk, sst`indexCache, sst`bloomCache, sst`written
      ensures sst.Valid()
      ensures sst.Files() == RemoveAll(old(sst.Files()), FilesOf(sources, old(sst.written)))
    {
      ghost var fs := FilesOf(sources, sst.written);
      ghost var w0 := sst.written;
      assert fs[0..] == fs;
      for i := 0 to |sources|
        invariant sst.Valid() && StillListed(sources, i, sst.mata, sst.written, w0)
        invariant RemoveAll(sst.Files(), fs[i..]) == RemoveAll(old(sst.Files()), fs)
      {
        assert fs[i..][1..] == fs[i + 1..];
        sst.DropSource(sources[i]);
      }
    }

    /** The loop over the levels. */
    static method CompactLevels(sst: SSTable, maxCompactionSize: int, ioFails: nat -> bool, ghost s0: Lsm.State)
      returns (complete: bool, ghost steps: seq<Step>)
      requires sst.Valid() && SmallTogether(TablesOf(sst.Files())) && StandsAtLevel(s0, sst.Files(), 0, maxCompactionSize)
      modifies sst
      ensures sst.Valid()
      ensures PassedBelow(s0, s0.(files := sst.Files(), compact := AtLevel(Lsm.MAX_LEVEL)), Lsm.MAX_LEVEL, steps, complete, ioFails)
    {
      complete := true;
      ghost var s := s0;
      steps := NoPassYet(s0, ioFails);
      for level := 0 to Lsm.MAX_LEVEL
        invariant sst.Valid() && SmallTogether(TablesOf(sst.Files()))
        invariant s == s0.(files := sst.Files(), compact := AtLevel(level))
        invariant PassedBelow(s0, s, level, steps, complete, ioFails)
      {
        complete, s, steps := NextLevel(sst, level, maxCompactionSize, ioFails, s0, s, steps, complete);
      }
    }

    static method NextLevel(sst: SSTable, level: nat, maxCompactionSize: int, ioFails: nat -> bool,
                            ghost s0: Lsm.State, ghost s: Lsm.State, ghost before: seq<Step>, complete: bool)
      returns (complete': bool, ghost s': Lsm.State, ghost steps: seq<Step>)
      requires sst.Valid() && SmallTogether(TablesOf(sst.Files())) && StandsAtLevel(s, sst.Files(), level, maxCompactionSize)
      requires PassedBelow(s0, s, level, before, complete, ioFails)
      modifies sst
      ensures sst.Valid() && SmallTogether(TablesOf(sst.Files()))
      ensures s' == s.(files := sst.Files(), compact := AtLevel(level + 1))
      ensures PassedBelow(s0, s', level + 1, steps, complete', ioFails)
    {
      var done, more := CompactLevel(sst, level, maxCompactionSize, ioFails, s);
      s' := PastLevel(s, sst.Files());
      PassedOneMore(s0, s, level, before, complete, s', more, done, ioFails);
      complete', steps := complete && done, before + more;
    }

    /** CompactSSTable(0) is a run of compaction steps in which the merge of a level fails exactly when
        that level's I/O does. If none fails every level ends up short. No read can tell the run when its merges are of
        the newest files, as they are whenever it is complete and starts from an orderly list. */
    method CompactSSTable(ioFails: nat -> bool) returns (complete: bool, ghost steps: seq<Step>)
      requires Valid() && SmallTogether(TablesOf(sst.Files()))
      modifies sst
      ensures Valid()
      ensures (forall l: nat :: l < Lsm.MAX_LEVEL ==> !ioFails(l)) ==> complete
      ensures Runs(old(Abs()), steps) && Abs() == Exec(old(Abs()), steps) && OnlyCompaction(steps)
      ensures FollowsIO(old(Abs()), steps, ioFails) && (complete <==> NoMergeFails(steps))
      ensures complete ==> forall l: nat :: l < 10 ==> Count(sst.Files(), l) == 0 || Count(sst.Files(), l) < maxCompactionSize
      ensures old(Inv(Abs())) && MergesAreSafe(old(Abs()), steps) ==> Inv(Abs()) && forall k :: Find(Abs(), k) == Find(old(Abs()), k)
      ensures complete && old(Inv(Abs()) && InOrder(Abs())) ==> MergesAreSafe(old(Abs()), steps) && InOrder(Abs())
    {
      ghost var s := Abs();
      complete, steps := CompactLevels(sst, maxCompactionSize, ioFails, s.(compact := AtLevel(0)));
      QuietIsShort(sst.Files(), maxCompactionSize);
      steps := WholePass(s, sst.Files(), steps, complete, ioFails);
      PassIsRun(s, Abs(), steps, ioFails);
      NothingFails(s, steps, ioFails);
      PassIsInvisible(s, steps, complete);
    }
  }

  // ------------------------------------------------------- passes as runs

  predicate IsCompaction(step: Step) {
    step.CompactBegin? || step.CompactSkip? || step.CompactList? || step.CompactFail? || step.CompactMerge? ||
    step.CompactDrop? || step.CompactNext?
  }

  predicate OnlyCompaction(steps: seq<Step>) {
    forall i :: 0 <= i < |steps| ==> IsCompaction(steps[i])
  }

  /** A merge fails exactly when its level's I/O does. */
  predicate HeedsIO(s: Lsm.State, step: Step, ioFails: nat -> bool) {
    && (step.CompactFail? ==> s.compact.Merging? && ioFails(s.compact.level))
    && (step.CompactMerge? ==> s.compact.Merging? && !ioFails(s.compact.level))
  }

  predicate FollowsIO(s: Lsm.State, steps: seq<Step>, ioFails: nat -> bool)
    decreases |steps|
  {
    steps == [] || (HeedsIO(s, steps[0], ioFails) && FollowsIO(Apply(s, steps[0]), steps[1..], ioFails))
  }

  /** A run of compaction steps from s to s', heeding I/O. */
  ghost predicate PassRun(s: Lsm.State, s': Lsm.State, steps: seq<Step>, ioFails: nat -> bool)
    decreases |steps|
  {
    if steps == [] then s == s'
    else
      && Enabled(s, steps[0]) && IsCompaction(steps[0]) && HeedsIO(s, steps[0], ioFails)
      && PassRun(Apply(s, steps[0]), s', steps[1..], ioFails)
  }

  /** Complete when no merge fails in it. */
  ghost predicate IsPass(s: Lsm.State, s': Lsm.State, steps: seq<Step>, complete: bool, ioFails: nat -> bool) {
    PassRun(s, s', steps, ioFails) && (complete <==> NoMergeFails(steps))
  }

  lemma {:induction false} PassIsRun(s: Lsm.State, s': Lsm.State, steps: seq<Step>, ioFails: nat -> bool)
    requires PassRun(s, s', steps, ioFails)
    ensures Runs(s, steps) && Exec(s, steps) == s' && OnlyCompaction(steps) && FollowsIO(s, steps, ioFails)
    decreases |steps|
  {
    if steps != [] {
      PassIsRun(Apply(s, steps[0]), s', steps[1..], ioFails);
      assert forall i :: 1 <= i < |steps| ==> steps[i] == steps[1..][i - 1];
    }
  }

  /** Without a failing level no merge fails. */
  lemma {:induction false} NothingFails(s: Lsm.State, steps: seq<Step>, ioFails: nat -> bool)
    requires Runs(s, steps) && FollowsIO(s, steps, ioFails) && (s.compact.Merging? ==> s.compact.level < Lsm.MAX_LEVEL)
    ensures (forall l: nat :: l < Lsm.MAX_LEVEL ==> !ioFails(l)) ==> NoMergeFails(steps)
    decreases |steps|
  {
    if steps != [] {
      NothingFails(Apply(s, steps[0]), steps[1..], ioFails);
      assert forall i :: 1 <= i < |steps| ==> steps[i] == steps[1..][i - 1];
    }
  }

  lemma {:induction false} PassRunGoesOn(s: Lsm.State, a: seq<Step>, s': Lsm.State, b: seq<Step>, s'': Lsm.State, ioFails: nat -> bool)
    requires PassRun(s, s', a, ioFails) && PassRun(s', s'', b, ioFails)
    ensures PassRun(s, s'', a + b, ioFails)
    decreases |a|
  {
    if a == [] {
      assert a + b == b;
    } else {
      assert (a + b)[1..] == a[1..] + b;
      PassRunGoesOn(Apply(s, a[0]), a[1..], s', b, s'', ioFails);
    }
  }

  lemma {:induction false} PassGoesOn(s: Lsm.State, a: seq<Step>, c: bool, s': Lsm.State, b: seq<Step>, d: bool, s'': Lsm.State,
                                       ioFails: nat -> bool)
    requires IsPass(s, s', a, c, ioFails) && IsPass(s', s'', b, d, ioFails)
    ensures IsPass(s, s'', a + b, c && d, ioFails)
  {
    PassRunGoesOn(s, a, s', b, s'', ioFails);
    if NoMergeFails(a + b) {
      assert forall i :: 0 <= i < |a| ==> a[i] == (a + b)[i];
      assert forall i :: 0 <= i < |b| ==> b[i] == (a + b)[|a| + i];
    }
  }

  /** A pass from s0 to s whose visited levels are short if it is complete so far. */
  ghost predicate PassedBelow(s0: Lsm.State, s: Lsm.State, level: nat, steps: seq<Step>, complete: bool,
                              ioFails: nat -> bool)
  {
    IsPass(s0, s, steps, complete, ioFails) && (complete ==> Quiet(s.files, 0, level, s.maxCompaction))
  }

  lemma {:induction false} PassedOneMore(s0: Lsm.State, s: Lsm.State, level: nat, steps: seq<Step>, complete: bool,
                                          s': Lsm.State, more: seq<Step>, done: bool, ioFails: nat -> bool)
    requires PassedBelow(s0, s, level, steps, complete, ioFails) && IsPass(s, s', more, done, ioFails)
    requires done ==> IsLevelPass(s.files, s'.files, level, s.maxCompaction)
    requires level < Lsm.MAX_LEVEL && s'.maxCompaction == s.maxCompaction
    ensures PassedBelow(s0, s', level + 1, steps + more, complete && done, ioFails)
  {
    PassGoesOn(s0, steps, complete, s, more, done, s', ioFails);
    if complete && done {
      LevelPassIsQuiet(s.files, s'.files, level, s.maxCompaction);
    }
  }

  lemma {:induction false} OneStepPass(s: Lsm.State, step: Step, ioFails: nat -> bool)
    requires Enabled(s, step) && IsCompaction(step) && HeedsIO(s, step, ioFails)
    ensures IsPass(s, Apply(s, step), [step], !step.CompactFail?, ioFails)
  {
    assert [step][0] == step && [step][1..] == [];
    assert PassRun(Apply(s, step), Apply(s, step), [step][1..], ioFails);
  }

  lemma {:induction false} DropPass(s: Lsm.State, ioFails: nat -> bool) returns (steps: seq<Step>)
    requires s.compact.Dropping?
    ensures IsPass(s, AllDropped(s), steps, true, ioFails)
    decreases |s.compact.pending|
  {
    if s.compact.pending == [] {
      steps := [];
    } else {
      var s1 := Apply(s, CompactDrop);
      OneStepPass(s, CompactDrop, ioFails);
      var rest := DropPass(s1, ioFails);
      PassGoesOn(s, [CompactDrop], true, s1, rest, true, AllDropped(s), ioFails);
      steps := [CompactDrop] + rest;
    }
  }

  function AllDropped(s: Lsm.State): Lsm.State
    requires s.compact.Dropping?
  {
    s.(files := RemoveAll(s.files, s.compact.pending), compact := s.compact.(pending := []))
  }

  /** Merge, drop the sources, go on. */
  lemma {:induction false} MergePass(s: Lsm.State, path: nat, merged: Table, files: seq<File>, ioFails: nat -> bool)
    returns (steps: seq<Step>)
    requires Enabled(s, CompactMerge(path, merged)) && !ioFails(s.compact.level)
    requires files == RemoveAll(s.files + [File(path, s.compact.level + 1, merged)], s.compact.sources)
    ensures IsPass(s, s.(files := files, compact := AtLevel(s.compact.level + 1)), steps, true, ioFails)
  {
    var merge := CompactMerge(path, merged);
    var s1 := Apply(s, merge);
    OneStepPass(s, merge, ioFails);
    var drops := DropPass(s1, ioFails);
    var s2 := AllDropped(s1);
    PassGoesOn(s, [merge], true, s1, drops, true, s2, ioFails);
    OneStepPass(s2, CompactNext, ioFails);
    PassGoesOn(s, [merge] + drops, true, s2, [CompactNext], true, Apply(s2, CompactNext), ioFails);
    steps := [merge] + drops + [CompactNext];
  }

  /** The steps of a level that fires. */
  lemma {:induction false} LevelSteps(s: Lsm.State, merged: bool, f: File, files: seq<File>, ioFails: nat -> bool)
    returns (steps: seq<Step>)
    requires Fires(s) && (!merged ==> files == s.files) && merged == !ioFails(s.compact.level)
    requires var l := s.compact.level;
             merged ==>
               && f.level == l + 1 && FreshPath(s.files, f.path) && IsMergeOf(f.table, TablesOf(LevelFiles(s.files, l)))
               && files == RemoveAll(s.files + [f], LevelFiles(s.files, l))
    ensures IsPass(s, PastLevel(s, files), steps, merged, ioFails)
    ensures merged ==> IsLevelPass(s.files, files, s.compact.level, s.maxCompaction)
  {
    if merged {
      steps := MergedSteps(s, f, files, ioFails);
    } else {
      steps := FailedSteps(s, ioFails);
    }
  }

  lemma {:induction false} MergedSteps(s: Lsm.State, f: File, files: seq<File>, ioFails: nat -> bool) returns (steps: seq<Step>)
    requires Fires(s) && !ioFails(s.compact.level)
    requires var l := s.compact.level;
             && f.level == l + 1 && FreshPath(s.files, f.path) && IsMergeOf(f.table, TablesOf(LevelFiles(s.files, l)))
             && files == RemoveAll(s.files + [f], LevelFiles(s.files, l))
    ensures IsPass(s, PastLevel(s, files), steps, true, ioFails)
    ensures IsLevelPass(s.files, files, s.compact.level, s.maxCompaction)
  {
    var s1 := Apply(s, CompactList);
    OneStepPass(s, CompactList, ioFails);
    DroppedIsMerged(s.files, files, s.compact.level, f);
    assert IsMergedLevel(s.files, files, s.compact.level, f);
    var rest := MergePass(s1, f.path, f.table, files, ioFails);
    PassGoesOn(s, [CompactList], true, s1, rest, true, PastLevel(s, files), ioFails);
    steps := [CompactList] + rest;
  }

  lemma {:induction false} FailedSteps(s: Lsm.State, ioFails: nat -> bool) returns (steps: seq<Step>)
    requires Fires(s) && ioFails(s.compact.level)
    ensures IsPass(s, PastLevel(s, s.files), steps, false, ioFails)
  {
    var s1 := Apply(s, CompactList);
    OneStepPass(s, CompactList, ioFails);
    OneStepPass(s1, CompactFail, ioFails);
    PassGoesOn(s, [CompactList], true, s1, [CompactFail], false, PastLevel(s, s.files), ioFails);
    steps := [CompactList] + [CompactFail];
  }

  predicate StandsAtLevel(s: Lsm.State, files: seq<File>, level: nat, m: int) {
    s.files == files && s.compact == AtLevel(level) && level < Lsm.MAX_LEVEL && s.maxCompaction == m
  }

  /** On to the next level, with the list changed. */
  function PastLevel(s: Lsm.State, files: seq<File>): Lsm.State {
    if s.compact.AtLevel? then s.(files := files, compact := AtLevel(s.compact.level + 1)) else s
  }

  lemma {:induction false} SkipStep(s: Lsm.State, ioFails: nat -> bool) returns (steps: seq<Step>)
    requires s.compact.AtLevel? && s.compact.level < Lsm.MAX_LEVEL && !Fires(s)
    ensures IsPass(s, PastLevel(s, s.files), steps, true, ioFails)
  {
    OneStepPass(s, CompactSkip, ioFails);
    steps := [CompactSkip];
  }

  lemma {:induction false} NoPassYet(s: Lsm.State, ioFails: nat -> bool) returns (steps: seq<Step>)
    ensures PassedBelow(s, s, 0, steps, true, ioFails)
  {
    steps := [];
  }

  lemma {:induction false} WholePass(s: Lsm.State, files: seq<File>, a: seq<Step>, c: bool, ioFails: nat -> bool)
    returns (steps: seq<Step>)
    requires s.compact.Resting?
    requires IsPass(s.(compact := AtLevel(0)), s.(files := files, compact := AtLevel(Lsm.MAX_LEVEL)), a, c, ioFails)
    ensures IsPass(s, s.(files := files), steps, c, ioFails)
  {
    var s', s'' := s.(files := files, compact := AtLevel(Lsm.MAX_LEVEL)), s.(files := files);
    OneStepPass(s, CompactBegin, ioFails);
    PassGoesOn(s, [CompactBegin], true, Apply(s, CompactBegin), a, c, s', ioFails);
    OneStepPass(s', CompactNext, ioFails);
    PassGoesOn(s, [CompactBegin] + a, c, s', [CompactNext], true, s'', ioFails);
    steps := [CompactBegin] + a + [CompactNext];
  }

  lemma {:induction false} PassPublishesNothing(s: Lsm.State, steps: seq<Step>)
    requires OnlyCompaction(steps)
    ensures PublishesBetweenPasses(s, steps)
    decreases |steps|
  {
    if steps != [] {
      assert OnlyCompaction(steps[1..]);
      PassPublishesNothing(Apply(s, steps[0]), steps[1..]);
    }
  }

  lemma {:induction false} PassIsInvisible(s: Lsm.State, steps: seq<Step>, complete: bool)
    requires Runs(s, steps) && OnlyCompaction(steps) && (complete <==> NoMergeFails(steps))
    ensures Inv(s) && MergesAreSafe(s, steps) ==> Inv(Exec(s, steps)) && forall k :: Find(Exec(s, steps), k) == Find(s, k)
    ensures complete && Inv(s) && InOrder(s) ==> MergesAreSafe(s, steps) && InOrder(Exec(s, steps))
  {
    var s' := Exec(s, steps);
    if Inv(s) && MergesAreSafe(s, steps) {
      ReadsSeeTheLastWrite(s, steps, []);
      forall k ensures Find(s', k) == Find(s, k) {
        ReadsSeeTheLastWrite(s, steps, k);
        NoWritesNoChange(steps, k, Find(s, k));
      }
    }
    if complete && Inv(s) && InOrder(s) {
      PassPublishesNothing(s, steps);
      OrderlyRunsAreSafe(s, steps);
    }
  }

  // --------------------------------------------------------------- flush runs

  ghost predicate IsFlush(steps: seq<Step>) {
    || steps == []
    || steps == [FlushBegin, FlushFail]
    || (|steps| == 3 && steps[1].FlushPublish? && steps == [FlushBegin, steps[1], FlushClear])
  }

  lemma {:induction false} FlushIsInvisible(s: Lsm.State, steps: seq<Step>)
    requires IsFlush(steps) && Inv(s) && Runs(s, steps)
    ensures MergesAreSafe(s, steps) && Inv(Exec(s, steps)) && forall k :: Find(Exec(s, steps), k) == Find(s, k)
  {
    NoMergesAreSafe(s, steps);
    ReadsSeeTheLastWrite(s, steps, []);
    forall k ensures Find(Exec(s, steps), k) == Find(s, k) {
      ReadsSeeTheLastWrite(s, steps, k);
      NoWritesNoChange(steps, k, Find(s, k));
    }
  }

  lemma {:induction false} NoMergesAreSafe(s: Lsm.State, steps: seq<Step>)
    requires forall i :: 0 <= i < |steps| ==> !steps[i].CompactMerge?
    ensures MergesAreSafe(s, steps)
    decreases |steps|
  {
    if steps != [] {
      NoMergesAreSafe(Apply(s, steps[0]), steps[1..]);
    }
  }

  lemma {:induction false} NoWritesNoChange(steps: seq<Step>, k: Key, before: Option<Value>)
    requires forall i :: 0 <= i < |steps| ==> !steps[i].Write?
    ensures LastWrite(steps, k, before) == before
    decreases |steps|
  {
    if steps != [] {
      NoWritesNoChange(steps[1..], k, before);
    }
  }

  // --------------------------------------------------------- compaction passes

  /** The sources from i on are still listed, unchanged. */
  ghost predicate StillListed(sources: seq<Meta>, i: nat, mata: seq<Meta>, written: map<nat, Written>, was: map<nat, Written>) {
    && (forall j :: i <= j < |sources| ==> sources[j] in mata && FileOf(sources[j], written) == FileOf(sources[j], was))
    && (forall j, l :: 0 <= j < l < |sources| ==> sources[j].path != sources[l].path)
  }

  lemma {:induction false} ListedGrows(sources: seq<Meta>, mata: seq<Meta>, meta: Meta,
                                       was: map<nat, Written>, written: map<nat, Written>)
    requires Listed(sources, mata) && GoodMetas(mata, was)
    requires forall p :: p in was ==> p in written && written[p] == was[p]
    ensures Listed(sources, mata + [meta]) && FilesOf(sources, written) == FilesOf(sources, was)
  {
    ListedIsGood(sources, mata, was);
    forall i | 0 <= i < |sources| ensures FileOf(sources[i], written) == FileOf(sources[i], was) {
      assert GoodMeta(sources[i], was);
    }
  }

  lemma {:induction false} DroppedIsMerged(before: seq<File>, after: seq<File>, l: nat, f: File)
    requires f.level == l + 1 && IsMergeOf(f.table, TablesOf(LevelFiles(before, l)))
    requires after == RemoveAll(before + [f], LevelFiles(before, l))
    ensures IsMergedLevel(before, after, l, f)
  {
    RemoveLevel(before, [f], l);
  }

  /** The merge of the tables, no larger than them together. */
  ghost predicate IsMergeOf(t: Table, tables: seq<Table>) {
    IsMerge(t, tables) && |t| <= TotalLeft(tables) && TotalBytes(t) <= BytesLeft(tables)
  }

  ghost predicate IsMergedLevel(before: seq<File>, after: seq<File>, l: nat, f: File) {
    f.level == l + 1 && IsMergeOf(f.table, TablesOf(LevelFiles(before, l))) && after == Compacted(before, l, f)
  }

  /** What one level of a pass does to the file list. */
  ghost predicate IsLevelPass(before: seq<File>, after: seq<File>, l: nat, m: int) {
    if Count(before, l) < Limit(m) then after == before
    else exists f: File :: IsMergedLevel(before, after, l, f)
  }

  lemma {:induction false} TotalAppend(a: seq<File>, f: File)
    ensures TotalLeft(TablesOf(a + [f])) == TotalLeft(TablesOf(a)) + |f.table|
    ensures BytesLeft(TablesOf(a + [f])) == BytesLeft(TablesOf(a)) + TotalBytes(f.table)
  {
    var t := TablesOf(a + [f]);
    assert t[..|t| - 1] == TablesOf(a);
  }

  /** The files split into those of a level and the others. */
  lemma {:induction false} LevelIsPart(files: seq<File>, l: nat)
    ensures TotalLeft(TablesOf(LevelFiles(files, l))) + TotalLeft(TablesOf(OtherFiles(files, l))) ==
            TotalLeft(TablesOf(files))
    ensures BytesLeft(TablesOf(LevelFiles(files, l))) + BytesLeft(TablesOf(OtherFiles(files, l))) ==
            BytesLeft(TablesOf(files))
  {
    if files != [] {
      var n := |files| - 1;
      LevelIsPart(files[..n], l);
      assert files == files[..n] + [files[n]];
      TotalAppend(files[..n], files[n]);
      if files[n].level == l {
        TotalAppend(LevelFiles(files[..n], l), files[n]);
        assert OtherFiles(files, l) == OtherFiles(files[..n], l);
      } else {
        TotalAppend(OtherFiles(files[..n], l), files[n]);
        assert LevelFiles(files, l) == LevelFiles(files[..n], l);
      }
    }
  }

  /** Exactly the levels with files, and enough of them, are merged into one file. */
  lemma {:induction false} LevelPassMerges(before: seq<File>, after: seq<File>, l: nat, m: int)
    requires IsLevelPass(before, after, l, m)
    ensures if Count(before, l) == 0 || Count(before, l) < m then after == before
            else Count(after, l) == 0 && Count(after, l + 1) == Count(before, l + 1) + 1
  {
    if Count(before, l) >= Limit(m) {
      var f :| IsMergedLevel(before, after, l, f);
      CompactedCount(before, l, f, l);
      CompactedCount(before, l, f, l + 1);
    }
  }

  /** A merge never holds more than its sources. */
  lemma {:induction false} LevelPassIsSmall(before: seq<File>, after: seq<File>, l: nat, m: int)
    requires IsLevelPass(before, after, l, m) && SmallTogether(TablesOf(before))
    ensures SmallTogether(TablesOf(after))
  {
    if Count(before, l) >= Limit(m) {
      var f :| IsMergedLevel(before, after, l, f);
      LevelIsPart(before, l);
      TotalAppend(OtherFiles(before, l), f);
    }
  }

  lemma {:induction false} LevelPassIsQuiet(before: seq<File>, after: seq<File>, l: nat, m: int)
    requires IsLevelPass(before, after, l, m) && l < Lsm.MAX_LEVEL
    ensures Quiet(before, 0, l, m) ==> Quiet(after, 0, l + 1, m)
  {
    if Count(before, l) >= Limit(m) {
      var f :| IsMergedLevel(before, after, l, f);
      forall h: nat | h <= l ensures Count(after, h) == if h == l then 0 else Count(before, h) {
        CompactedCount(before, l, f, h);
      }
    }
  }

  lemma {:induction false} QuietIsShort(files: seq<File>, m: int)
    ensures Quiet(files, 0, 10, m) <==> forall l: nat :: l < 10 ==> Count(files, l) == 0 || Count(files, l) < m
  {
  }

  lemma {:induction false} InsertKeepsFits(t: Table, k: Key, v: Value)
    requires Fits(t) && FitsEntry(Entry(k, v))
    ensures Fits(Insert(t, k, v))
  {
    InsertIsSplice(t, k, v);
  }
}
