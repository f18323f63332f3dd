/** The LSM engine as a step system: writes, the three flush phases and compaction interleave
    freely, and every read must still see exactly the last write. */
module Lsm {
  import opened ByteStrings
  import opened Entries
  import opened Merge

  /** An SSTable as the readers see it: its identity, its level and its entries. */
  datatype File = File(path: nat, level: nat, table: Table)

  function TablesOf(files: seq<File>): (ts: seq<Table>)
    ensures |ts| == |files| && forall i :: 0 <= i < |files| ==> ts[i] == files[i].table
  {
    seq(|files|, i requires 0 <= i < |files| => files[i].table)
  }

  /** getFromSSTables: the list is in order of age, so it is searched from the back. */
  function FilesLookup(files: seq<File>, k: Key): Option<Value> {
    Newest(TablesOf(files), k)
  }

  /** Where the flush worker stands in Flush. */
  datatype FlushPc = Idle | Writing | Published

  /** Where the compaction worker stands in CompactSSTable. */
  datatype CompactPc =
    | Resting
    | AtLevel(level: nat)
    | Merging(level: nat, sources: seq<File>, listed: nat)
      // inside MergeSSTable; listed, the length of the list when the sources were listed, is auxiliary
    | Dropping(level: nat, older: seq<File>, pending: seq<File>, newMeta: File, newer: seq<File>)
      // older and newer, the files published since the merge, are auxiliary

  datatype State = State(active: Table, dirty: Option<Table>, files: seq<File>,
                         flush: FlushPc, compact: CompactPc, maxCompaction: int)

  /** Get's search order: active, then dirty, then the files; the first hit decides. */
  function Find(s: State, k: Key): Option<Value> {
    if Lookup(s.active, k).Some? then Lookup(s.active, k)
    else if s.dirty.Some? && Lookup(s.dirty.value, k).Some? then Lookup(s.dirty.value, k)
    else FilesLookup(s.files, k)
  }

  /** A hit on a tombstone reads as not found. */
  function Live(r: Option<Value>): Option<Bytes> {
    if r.Some? then r.value else None
  }

  function Get(s: State, k: Key): Option<Bytes> {
    Live(Find(s, k))
  }

  // -------------------------------------------------------------------- steps

  datatype Step =
    | Write(key: Key, value: Value)         // Put, and Delete with None
    | FlushBegin                            // the locked swap, or the decision to retry
    | FlushPublish(path: nat)               // WriteToSSTable succeeded
    | FlushFail                             // WriteToSSTable failed
    | FlushClear                            // dirty = nil
    | CompactBegin
    | CompactSkip                           // too few files on this level
    | CompactList                           // the level's files are listed, and MergeSSTable is called
    | CompactFail                           // MergeSSTable failed; the pass goes on to the next level
    | CompactMerge(mergedPath: nat, merged: Table)  // the merge of the files listed is appended
    | CompactDrop                           // one source file leaves the list
    | CompactNext                           // on to the next level, or done

  function LevelFiles(files: seq<File>, l: nat): seq<File> {
    if files == [] then []
    else
      var n := |files| - 1;
      LevelFiles(files[..n], l) + if files[n].level == l then [files[n]] else []
  }

  function OtherFiles(files: seq<File>, l: nat): seq<File> {
    if files == [] then []
    else
      var n := |files| - 1;
      OtherFiles(files[..n], l) + if files[n].level == l then [] else [files[n]]
  }

  /** The sources are the newest files: the list ends with them. */
  predicate AreNewest(files: seq<File>, sources: seq<File>) {
    |sources| <= |files| && files[|files| - |sources|..] == sources
  }

  function OlderThan(files: seq<File>, sources: seq<File>): seq<File> {
    if |sources| <= |files| then files[..|files| - |sources|] else []
  }

  /** RemoveMata: the first occurrence goes. */
  function Remove(files: seq<File>, f: File): seq<File> {
    if files == [] then [] else if files[0] == f then files[1..] else [files[0]] + Remove(files[1..], f)
  }

  predicate FreshPath(files: seq<File>, path: nat) {
    forall i :: 0 <= i < |files| ==> files[i].path != path
  }

  const MAX_LEVEL: nat := 10

  /** MergeSSTable is called, and has something to merge. */
  predicate Fires(s: State) {
    && s.compact.AtLevel? && s.compact.level < MAX_LEVEL
    && Count(s.files, s.compact.level) >= Limit(s.maxCompaction)
  }

  /** When a step can happen. A flush may publish at any time, between the listing of a merge's sources
      and the append of the merged file too, and a merge may fail. */
  ghost predicate Enabled(s: State, step: Step) {
    match step
    case Write(_, _) => true
    case FlushBegin => s.flush.Idle? && (s.dirty.Some? || s.active != [])
    case FlushPublish(path) => s.flush.Writing? && s.dirty.Some? && FreshPath(s.files, path)
    case FlushFail => s.flush.Writing?
    case FlushClear => s.flush.Published?
    case CompactBegin => s.compact.Resting?
    case CompactSkip => s.compact.AtLevel? && s.compact.level < MAX_LEVEL && !Fires(s)
    case CompactList => Fires(s)
    case CompactFail => s.compact.Merging?
    case CompactMerge(path, merged) =>
      s.compact.Merging? && FreshPath(s.files, path) && IsMerge(merged, TablesOf(s.compact.sources))
    case CompactDrop => s.compact.Dropping? && s.compact.pending != []
    case CompactNext => (s.compact.Dropping? && s.compact.pending == []) ||
                        (s.compact.AtLevel? && s.compact.level >= MAX_LEVEL)
  }

  function Apply(s: State, step: Step): State {
    match step
    case Write(k, v) => s.(active := Insert(s.active, k, v))
    case FlushBegin =>
      if s.dirty == None then s.(dirty := Some(s.active), active := [], flush := Writing) else s.(flush := Writing)
    case FlushPublish(path) =>
      if s.dirty == None then s
      else
        var f := File(path, 0, s.dirty.value);
        s.(files := s.files + [f], flush := Published,
           compact := if s.compact.Dropping? then s.compact.(newer := s.compact.newer + [f]) else s.compact)
    case FlushFail => s.(flush := Idle)
    case FlushClear => s.(dirty := None, flush := Idle)
    case CompactBegin => s.(compact := AtLevel(0))
    case CompactSkip => if s.compact.AtLevel? then s.(compact := AtLevel(s.compact.level + 1)) else s
    case CompactList =>
      if s.compact.AtLevel? then
        s.(compact := Merging(s.compact.level, LevelFiles(s.files, s.compact.level), |s.files|))
      else s
    case CompactFail => if s.compact.Merging? then s.(compact := AtLevel(s.compact.level + 1)) else s
    case CompactMerge(path, merged) =>
      if s.compact.Merging? then
        var l, sources, newMeta := s.compact.level, s.compact.sources, File(path, s.compact.level + 1, merged);
        s.(files := s.files + [newMeta], compact := Dropping(l, OlderThan(s.files, sources), sources, newMeta, []))
      else s
    case CompactDrop =>
      if s.compact.Dropping? && s.compact.pending != [] then
        s.(files := Remove(s.files, s.compact.pending[0]),
           compact := s.compact.(pending := s.compact.pending[1..]))
      else s
    case CompactNext =>
      if s.compact.Dropping? then s.(compact := AtLevel(s.compact.level + 1)) else s.(compact := Resting)
  }

  // ---------------------------------------------------------------- file lists

  lemma {:induction false} NewestAppend(a: seq<Table>, b: seq<Table>, k: Key)
    ensures Newest(a + b, k) == if Newest(b, k).Some? then Newest(b, k) else Newest(a, k)
  {
    if b == [] {
      assert a + b == a;
    } else {
      var n := |b| - 1;
      assert (a + b)[..|a + b| - 1] == a + b[..n];
      NewestAppend(a, b[..n], k);
    }
  }

  lemma {:induction false} FilesAppend(a: seq<File>, b: seq<File>, k: Key)
    ensures FilesLookup(a + b, k) == if FilesLookup(b, k).Some? then FilesLookup(b, k) else FilesLookup(a, k)
  {
    assert TablesOf(a + b) == TablesOf(a) + TablesOf(b);
    NewestAppend(TablesOf(a), TablesOf(b), k);
  }

  lemma {:induction false} OneFile(f: File, k: Key)
    ensures FilesLookup([f], k) == Lookup(f.table, k)
  {
    assert TablesOf([f]) == [f.table];
    assert Newest([f.table][..0], k) == None;
  }

  function Count(files: seq<File>, l: nat): nat {
    |LevelFiles(files, l)|
  }

  lemma {:induction false} LevelFilesAppend(a: seq<File>, b: seq<File>, l: nat)
    ensures LevelFiles(a + b, l) == LevelFiles(a, l) + LevelFiles(b, l)
  {
    if b == [] {
      assert a + b == a;
    } else {
      var n := |b| - 1;
      assert (a + b)[..|a + b| - 1] == a + b[..n];
      LevelFilesAppend(a, b[..n], l);
    }
  }

  lemma {:induction false} NoLevelFiles(files: seq<File>, l: nat)
    requires forall i :: 0 <= i < |files| ==> files[i].level != l
    ensures LevelFiles(files, l) == [] && OtherFiles(files, l) == files
  {
    if files != [] {
      var n := |files| - 1;
      NoLevelFiles(files[..n], l);
      assert files == files[..n] + [files[n]];
    }
  }

  /** Oldest first, levels never rising: every file of a higher level is older. */
  ghost predicate Ordered(files: seq<File>) {
    forall i, j :: 0 <= i < j < |files| ==> files[i].level >= files[j].level
  }

  ghost predicate AtLeastLevel(files: seq<File>, l: nat) {
    forall i :: 0 <= i < |files| ==> files[i].level >= l
  }

  function Limit(maxCompaction: int): int {
    Max(1, maxCompaction)
  }

  /** No level from lo up to hi has enough files to be compacted. */
  ghost predicate Quiet(files: seq<File>, lo: nat, hi: nat, maxCompaction: int) {
    forall l: nat :: lo <= l < hi ==> Count(files, l) < Limit(maxCompaction)
  }

  /** Level l has no file of another level after it. */
  ghost predicate LevelAtEnd(files: seq<File>, l: nat) {
    forall i, j :: 0 <= i < j < |files| && files[i].level == l ==> files[j].level == l
  }

  lemma {:induction false} LevelAtEndIsSuffix(files: seq<File>, l: nat)
    requires LevelAtEnd(files, l)
    ensures files == OtherFiles(files, l) + LevelFiles(files, l)
  {
    if files != [] {
      var n := |files| - 1;
      var x := files[n];
      assert files == files[..n] + [x];
      if x.level == l {
        LevelAtEndIsSuffix(files[..n], l);
        var a, b := OtherFiles(files[..n], l), LevelFiles(files[..n], l);
        assert (a + b) + [x] == a + (b + [x]);
      } else {
        NoLevelFiles(files, l);
      }
    }
  }

  lemma {:induction false} OthersDiffer(files: seq<File>, l: nat)
    ensures forall i :: 0 <= i < |OtherFiles(files, l)| ==> OtherFiles(files, l)[i].level != l
  {
    if files != [] {
      OthersDiffer(files[..|files| - 1], l);
    }
  }

  /** When nothing lies below level l, the files of level l are the newest ones. */
  lemma {:induction false} LevelIsSuffix(files: seq<File>, l: nat)
    requires Ordered(files) && AtLeastLevel(files, l)
    ensures files == OtherFiles(files, l) + LevelFiles(files, l)
    ensures Ordered(OtherFiles(files, l)) && AtLeastLevel(OtherFiles(files, l), l + 1)
  {
    LevelAtEndIsSuffix(files, l);
    OthersDiffer(files, l);
    var older := OtherFiles(files, l);
    forall i | 0 <= i < |older| ensures older[i] == files[i] {}
  }

  // ---------------------------------------------------------------- invariant

  ghost predicate UniquePaths(files: seq<File>) {
    forall i, j :: 0 <= i < j < |files| ==> files[i].path != files[j].path
  }

  ghost predicate SortedFiles(files: seq<File>) {
    forall i :: 0 <= i < |files| ==> Sorted(files[i].table)
  }

  /** Whatever the table holds, the files answer the same way. */
  ghost predicate Covers(files: seq<File>, t: Table) {
    forall k :: Lookup(t, k).Some? ==> FilesLookup(files, k) == Lookup(t, k)
  }

  /** While a merge runs, its sources are the files that were on the level when they were listed; the
      list has only grown since. */
  ghost predicate MergingInv(files: seq<File>, compact: CompactPc) {
    compact.Merging? ==>
      compact.listed <= |files| && compact.sources == LevelFiles(files[..compact.listed], compact.level)
  }

  /** While the sources of a merge are being dropped: older files, the sources not dropped yet, the
      merged file, which answers for every one of them, and the files published since. */
  ghost predicate DroppingInv(files: seq<File>, compact: CompactPc) {
    compact.Dropping? ==>
      && files == compact.older + compact.pending + [compact.newMeta] + compact.newer
      && (forall k :: FilesLookup(compact.pending, k).Some? ==> Lookup(compact.newMeta.table, k).Some?)
  }

  ghost predicate Inv(s: State) {
    && Sorted(s.active) && (s.dirty.Some? ==> Sorted(s.dirty.value))
    && SortedFiles(s.files) && UniquePaths(s.files)
    && (s.flush.Writing? ==> s.dirty.Some?)
    && (s.flush.Published? ==> s.dirty.Some? && Covers(s.files, s.dirty.value))
    && MergingInv(s.files, s.compact) && DroppingInv(s.files, s.compact)
  }

  /** The one thing a step may do wrong: append the merge of files that are no longer the newest. */
  predicate Safe(s: State, step: Step) {
    step.CompactMerge? && s.compact.Merging? ==> AreNewest(s.files, s.compact.sources)
  }

  const EMPTY: seq<File> := []

  function Init(maxCompaction: int): State {
    State([], None, EMPTY, Idle, Resting, maxCompaction)
  }

  lemma {:induction false} InitInv(maxCompaction: int)
    ensures Inv(Init(maxCompaction)) && InOrder(Init(maxCompaction)) && forall k :: Find(Init(maxCompaction), k) == None
  {
    forall k ensures FilesLookup(EMPTY, k) == None {
      assert TablesOf(EMPTY) == [];
    }
  }

  // --------------------------------------------------------- compaction steps

  lemma {:induction false} MergeLookup(older: seq<File>, sources: seq<File>, f: File, k: Key)
    requires IsMerge(f.table, TablesOf(sources))
    ensures FilesLookup(older + sources + [f], k) == FilesLookup(older + sources, k)
    ensures FilesLookup(sources, k).Some? ==> Lookup(f.table, k).Some?
  {
    FilesAppend(older + sources, [f], k);
    OneFile(f, k);
    FilesAppend(older, sources, k);
    assert Lookup(f.table, k) == Newest(TablesOf(sources), k);
  }

  /** When the sources are still the newest files, the merged file may go to the end. */
  lemma {:induction false} MergeStep(s: State, path: nat, merged: Table)
    requires Enabled(s, CompactMerge(path, merged)) && Safe(s, CompactMerge(path, merged))
    ensures var s' := Apply(s, CompactMerge(path, merged));
            DroppingInv(s'.files, s'.compact) && forall k :: FilesLookup(s'.files, k) == FilesLookup(s.files, k)
  {
    var older, sources := OlderThan(s.files, s.compact.sources), s.compact.sources;
    assert s.files == older + sources;
    MergeAppends(s.compact.level, older, sources, File(path, s.compact.level + 1, merged));
  }

  lemma {:induction false} MergeAppends(l: nat, older: seq<File>, sources: seq<File>, f: File)
    requires IsMerge(f.table, TablesOf(sources))
    ensures DroppingInv(older + sources + [f], Dropping(l, older, sources, f, []))
    ensures forall k :: FilesLookup(older + sources + [f], k) == FilesLookup(older + sources, k)
  {
    assert older + sources + [f] == older + sources + [f] + [];
    forall k ensures FilesLookup(older + sources + [f], k) == FilesLookup(older + sources, k)
             ensures FilesLookup(sources, k).Some? ==> Lookup(f.table, k).Some?
    {
      MergeLookup(older, sources, f, k);
    }
  }

  lemma {:induction false} RemoveAt(files: seq<File>, i: nat)
    requires UniquePaths(files) && i < |files|
    ensures Remove(files, files[i]) == files[..i] + files[i + 1..]
  {
    assert files == files[..i] + [files[i]] + files[i + 1..];
    forall j | 0 <= j < i ensures files[j] != files[i] {}
    RemoveMiddle(files[..i], files[i], files[i + 1..]);
  }

  lemma {:induction false} RemoveMiddle(a: seq<File>, f: File, b: seq<File>)
    requires f !in a
    ensures Remove(a + [f] + b, f) == a + b
  {
    if a == [] {
      assert a + [f] + b == [f] + b;
      assert a + b == b;
    } else {
      RemoveMiddle(a[1..], f, b);
      assert (a + [f] + b)[1..] == a[1..] + [f] + b;
      assert [a[0]] + (a[1..] + b) == a + b;
    }
  }

  lemma {:induction false} RemoveKeepsUnique(a: seq<File>, f: File, b: seq<File>)
    requires UniquePaths(a + [f] + b) && SortedFiles(a + [f] + b)
    ensures f !in a && UniquePaths(a + b) && SortedFiles(a + b)
  {
    var all := a + [f] + b;
    forall i | 0 <= i < |a| ensures a[i] != f {
      assert all[i] == a[i] && all[|a|] == f;
    }
    forall i | 0 <= i < |a + b| ensures (a + b)[i] == all[if i < |a| then i else i + 1] {}
  }

  /** Dropping a source: the merged file answers for it. */
  lemma {:induction false} DropStep(s: State)
    requires Inv(s) && Enabled(s, CompactDrop)
    ensures var s' := Apply(s, CompactDrop);
            && DroppingInv(s'.files, s'.compact) && UniquePaths(s'.files) && SortedFiles(s'.files)
            && (forall k :: FilesLookup(s'.files, k) == FilesLookup(s.files, k))
  {
    var older, pending, merged, newer := s.compact.older, s.compact.pending, s.compact.newMeta, s.compact.newer;
    var f, rest, tail := pending[0], pending[1..], pending[1..] + [merged] + newer;
    assert pending == [f] + rest;
    assert s.files == older + [f] + tail;
    RemoveKeepsUnique(older, f, tail);
    RemoveMiddle(older, f, tail);
    assert older + tail == older + rest + [merged] + newer;
    forall k
      ensures FilesLookup(older + tail, k) == FilesLookup(older + [f] + tail, k)
      ensures FilesLookup(rest, k).Some? ==> Lookup(merged.table, k).Some?
    {
      FilesAppend([f], rest, k);
      OneFile(f, k);
      DropLookup(older, f, rest, merged, newer, k);
    }
  }

  lemma {:induction false} DropLookup(older: seq<File>, f: File, rest: seq<File>, merged: File, newer: seq<File>, k: Key)
    requires Lookup(f.table, k).Some? ==> Lookup(merged.table, k).Some?
    ensures FilesLookup(older + [f] + (rest + [merged] + newer), k) == FilesLookup(older + (rest + [merged] + newer), k)
  {
    FilesAppend(older + [f], rest + [merged] + newer, k);
    FilesAppend(older, [f], k);
    FilesAppend(rest + [merged], newer, k);
    FilesAppend(rest, [merged], k);
    FilesAppend(older, rest + [merged] + newer, k);
    OneFile(merged, k);
    OneFile(f, k);
  }

  // -------------------------------------------------------------- every step

  /** The answer a step must leave behind: a write answers for its own key, nothing else shows. */
  function After(step: Step, k: Key, before: Option<Value>): Option<Value> {
    if step.Write? && step.key == k then Some(step.value) else before
  }

  lemma {:induction false} PublishStep(s: State, path: nat, k: Key)
    requires Enabled(s, FlushPublish(path))
    ensures FilesLookup(Apply(s, FlushPublish(path)).files, k) ==
            if Lookup(s.dirty.value, k).Some? then Lookup(s.dirty.value, k) else FilesLookup(s.files, k)
  {
    var f := File(path, 0, s.dirty.value);
    FilesAppend(s.files, [f], k);
    OneFile(f, k);
  }

  lemma {:induction false} StepKeepsInv(s: State, step: Step)
    requires Inv(s) && Enabled(s, step) && Safe(s, step)
    ensures Inv(Apply(s, step))
  {
    var s' := Apply(s, step);
    match step
    case Write(k, v) => InsertKeepsSorted(s.active, k, v);
    case FlushPublish(path) =>
      forall k ensures FilesLookup(s'.files, k) == if Lookup(s.dirty.value, k).Some? then Lookup(s.dirty.value, k) else FilesLookup(s.files, k) {
        PublishStep(s, path, k);
      }
      if s.compact.Merging? { assert s'.files[..s.compact.listed] == s.files[..s.compact.listed]; }
    case CompactList => assert s.files[..|s.files|] == s.files;
    case CompactMerge(path, merged) => MergeStep(s, path, merged);
    case CompactDrop => DropStep(s);
    case _ =>
  }

  lemma {:induction false} StepIsInvisible(s: State, step: Step, k: Key)
    requires Inv(s) && Enabled(s, step) && Safe(s, step)
    ensures Find(Apply(s, step), k) == After(step, k, Find(s, k))
  {
    match step
    case Write(q, v) => LookupAfterInsert(s.active, q, v, k);
    case FlushPublish(path) => PublishStep(s, path, k);
    case CompactMerge(path, merged) => MergeStep(s, path, merged);
    case CompactDrop => DropStep(s);
    case _ =>
  }

  // --------------------------------------------------------------- whole runs

  /** Every step of the run can happen where it stands. */
  ghost predicate Runs(s: State, steps: seq<Step>)
    decreases |steps|
  {
    steps == [] || (Enabled(s, steps[0]) && Runs(Apply(s, steps[0]), steps[1..]))
  }

  function Exec(s: State, steps: seq<Step>): State
    decreases |steps|
  {
    if steps == [] then s else Exec(Apply(s, steps[0]), steps[1..])
  }

  /** Every merge of the run is of files that are still the newest when the merged file is appended. */
  ghost predicate MergesAreSafe(s: State, steps: seq<Step>)
    decreases |steps|
  {
    steps == [] || (Safe(s, steps[0]) && MergesAreSafe(Apply(s, steps[0]), steps[1..]))
  }

  /** The specification: the last write to k in the run, or else what was there before. */
  function LastWrite(steps: seq<Step>, k: Key, before: Option<Value>): Option<Value>
    decreases |steps|
  {
    if steps == [] then before else LastWrite(steps[1..], k, After(steps[0], k, before))
  }

  /** Main theorem: after any interleaving of writes, flush phases, failed flushes, failed merges and
      compaction passes in which every merged file is appended while its sources are still the newest
      files, a read finds exactly the last write. */
  lemma {:induction false} ReadsSeeTheLastWrite(s: State, steps: seq<Step>, k: Key)
    requires Inv(s) && Runs(s, steps) && MergesAreSafe(s, steps)
    ensures Inv(Exec(s, steps))
    ensures Find(Exec(s, steps), k) == LastWrite(steps, k, Find(s, k))
    decreases |steps|
  {
    if steps != [] {
      StepKeepsInv(s, steps[0]);
      StepIsInvisible(s, steps[0], k);
      ReadsSeeTheLastWrite(Apply(s, steps[0]), steps[1..], k);
    }
  }

  lemma {:induction false} RunOfOne(s: State, a: Step)
    ensures Runs(s, [a]) <==> Enabled(s, a)
    ensures MergesAreSafe(s, [a]) <==> Safe(s, a)
    ensures Exec(s, [a]) == Apply(s, a)
  {
    assert [a][1..] == [];
  }

  lemma {:induction false} RunOfTwo(s: State, a: Step, b: Step)
    ensures Runs(s, [a, b]) <==> Enabled(s, a) && Enabled(Apply(s, a), b)
    ensures Exec(s, [a, b]) == Apply(Apply(s, a), b)
  {
    assert [a, b][1..] == [b];
    RunOfOne(Apply(s, a), b);
  }

  lemma {:induction false} RunMore(s: State, a: seq<Step>, b: seq<Step>)
    ensures Runs(s, a + b) <==> Runs(s, a) && Runs(Exec(s, a), b)
    ensures MergesAreSafe(s, a + b) <==> MergesAreSafe(s, a) && MergesAreSafe(Exec(s, a), b)
    ensures PublishesBetweenPasses(s, a + b) <==> PublishesBetweenPasses(s, a) && PublishesBetweenPasses(Exec(s, a), b)
    ensures Exec(s, a + b) == Exec(Exec(s, a), b)
    decreases |a|
  {
    if a == [] {
      assert a + b == b;
    } else {
      assert (a + b)[1..] == a[1..] + b;
      RunMore(Apply(s, a[0]), a[1..], b);
    }
  }

  // ------------------------------------------------------------- orderly runs

  /** How the files lie in a pass about to visit level l, and between passes. */
  ghost predicate InOrder(s: State) {
    match s.compact
    case Resting => Ordered(s.files) && Quiet(s.files, 1, MAX_LEVEL, s.maxCompaction)
    case AtLevel(l) =>
      && l <= MAX_LEVEL && Ordered(s.files)
      && (|| Quiet(s.files, l, MAX_LEVEL, s.maxCompaction)
          || (AtLeastLevel(s.files, l) && Quiet(s.files, l + 1, MAX_LEVEL, s.maxCompaction)))
      && Quiet(s.files, 0, l, s.maxCompaction)
    case Merging(l, _, listed) =>
      && l < MAX_LEVEL && listed == |s.files| && Ordered(s.files) && AtLeastLevel(s.files, l)
      && Quiet(s.files, l + 1, MAX_LEVEL, s.maxCompaction)
    case Dropping(l, older, _, newMeta, newer) =>
      && l < MAX_LEVEL && newMeta.level == l + 1 && newer == []
      && Ordered(older) && AtLeastLevel(older, l + 1) && Quiet(older, l + 1, MAX_LEVEL, s.maxCompaction)
  }

  /** No flush publishes during a pass. */
  predicate PublishesBetweenPasses(s: State, steps: seq<Step>)
    decreases |steps|
  {
    || steps == []
    || ((steps[0].FlushPublish? ==> s.compact.Resting?) && PublishesBetweenPasses(Apply(s, steps[0]), steps[1..]))
  }

  predicate NoMergeFails(steps: seq<Step>) {
    forall i :: 0 <= i < |steps| ==> !steps[i].CompactFail?
  }

  predicate Orderly(s: State, steps: seq<Step>) {
    PublishesBetweenPasses(s, steps) && NoMergeFails(steps)
  }

  lemma {:induction false} QuietAfterAppend(files: seq<File>, f: File, lo: nat, hi: nat, m: int)
    requires Quiet(files, lo, hi, m) && !(lo <= f.level < hi)
    ensures Quiet(files + [f], lo, hi, m)
  {
    forall l: nat | lo <= l < hi ensures Count(files + [f], l) < Limit(m) {
      LevelFilesAppend(files, [f], l);
      assert [f][..0] == [];
      assert Count(files, l) < Limit(m);
    }
  }

  lemma {:induction false} QuietPrefix(older: seq<File>, sources: seq<File>, lo: nat, m: int)
    requires Quiet(older + sources, lo, MAX_LEVEL, m)
    ensures Quiet(older, lo, MAX_LEVEL, m)
  {
    forall h: nat | lo <= h < MAX_LEVEL ensures Count(older, h) < Limit(m) {
      LevelFilesAppend(older, sources, h);
      assert Count(older + sources, h) < Limit(m);
    }
  }

  /** In a pass from level 0 a level fires only when all below it are empty. */
  lemma {:induction false} ListKeepsOrder(s: State)
    requires InOrder(s) && Enabled(s, CompactList)
    ensures InOrder(Apply(s, CompactList)) && AtLeastLevel(s.files, s.compact.level)
  {
    assert !Quiet(s.files, s.compact.level, MAX_LEVEL, s.maxCompaction);
  }

  /** So it only ever merges the newest files. */
  lemma {:induction false} MergeKeepsOrder(s: State, path: nat, merged: Table)
    requires Inv(s) && InOrder(s) && Enabled(s, CompactMerge(path, merged))
    ensures Safe(s, CompactMerge(path, merged)) && InOrder(Apply(s, CompactMerge(path, merged)))
  {
    var l, sources := s.compact.level, s.compact.sources;
    assert s.files[..|s.files|] == s.files;
    LevelIsSuffix(s.files, l);
    QuietPrefix(OtherFiles(s.files, l), sources, l + 1, s.maxCompaction);
    assert OlderThan(s.files, sources) == OtherFiles(s.files, l);
  }

  lemma {:induction false} NextKeepsOrder(s: State)
    requires Inv(s) && InOrder(s) && Enabled(s, CompactNext)
    ensures InOrder(Apply(s, CompactNext))
  {
    if s.compact.Dropping? {
      assert s.files == s.compact.older + [s.compact.newMeta];
      MergedIsInOrder(s.compact.older, s.compact.newMeta, s.compact.level, s.maxCompaction);
    }
  }

  lemma {:induction false} MergedIsInOrder(older: seq<File>, merged: File, l: nat, m: int)
    requires merged.level == l + 1 && Ordered(older) && AtLeastLevel(older, l + 1) && Quiet(older, l + 1, MAX_LEVEL, m)
    ensures var files := older + [merged];
            Ordered(files) && AtLeastLevel(files, l + 1) && Quiet(files, 0, l + 1, m) && Quiet(files, l + 2, MAX_LEVEL, m)
  {
    QuietAfterAppend(older, merged, l + 2, MAX_LEVEL, m);
    forall h: nat | h < l + 1 ensures Count(older + [merged], h) < Limit(m) {
      NoLevelFiles(older + [merged], h);
    }
  }

  lemma {:induction false} StepKeepsOrder(s: State, step: Step)
    requires Inv(s) && InOrder(s) && Enabled(s, step) && (step.FlushPublish? ==> s.compact.Resting?) && !step.CompactFail?
    ensures Safe(s, step) && InOrder(Apply(s, step))
  {
    match step
    case FlushPublish(path) => QuietAfterAppend(s.files, File(path, 0, s.dirty.value), 1, MAX_LEVEL, s.maxCompaction);
    case CompactList => ListKeepsOrder(s);
    case CompactMerge(path, merged) => MergeKeepsOrder(s, path, merged);
    case CompactNext => NextKeepsOrder(s);
    case _ =>
  }

  /** Orderly runs only ever merge the newest files. */
  lemma {:induction false} OrderlyRunsAreSafe(s: State, steps: seq<Step>)
    requires Inv(s) && InOrder(s) && Runs(s, steps) && Orderly(s, steps)
    ensures MergesAreSafe(s, steps) && Inv(Exec(s, steps)) && InOrder(Exec(s, steps))
    decreases |steps|
  {
    if steps != [] {
      StepKeepsOrder(s, steps[0]);
      StepKeepsInv(s, steps[0]);
      OrderlyRunsAreSafe(Apply(s, steps[0]), steps[1..]);
    }
  }

  /** So reads are right in every orderly run from the empty engine. */
  lemma {:induction false} OrderlyRunsReadTheLastWrite(maxCompaction: int, steps: seq<Step>, k: Key)
    requires Runs(Init(maxCompaction), steps) && Orderly(Init(maxCompaction), steps)
    ensures Find(Exec(Init(maxCompaction), steps), k) == LastWrite(steps, k, None)
  {
    InitInv(maxCompaction);
    OrderlyRunsAreSafe(Init(maxCompaction), steps);
    ReadsSeeTheLastWrite(Init(maxCompaction), steps, k);
  }

  // ------------------------------------------------------ the answers to reads

  /** A read is answered with b exactly when b is the live value found. */
  lemma {:induction false} GetIsLiveFind(s: State, k: Key, b: Bytes)
    ensures Get(s, k) == Some(b) <==> Find(s, k) == Some(Some(b))
  {
  }

  /** Step i writes k, and no later step does. */
  predicate IsLastWrite(steps: seq<Step>, i: nat, k: Key) {
    && i < |steps| && steps[i].Write? && steps[i].key == k
    && forall j :: i < j < |steps| ==> !(steps[j].Write? && steps[j].key == k)
  }

  lemma {:induction false} LastWriteIsTheLast(steps: seq<Step>, k: Key, before: Option<Value>)
    ensures forall i: nat :: IsLastWrite(steps, i, k) ==> LastWrite(steps, k, before) == Some(steps[i].value)
    ensures (forall i :: 0 <= i < |steps| && steps[i].Write? ==> steps[i].key != k) ==> LastWrite(steps, k, before) == before
    ensures (forall i: nat :: !IsLastWrite(steps, i, k)) ==>
            forall i :: 0 <= i < |steps| && steps[i].Write? ==> steps[i].key != k
    decreases |steps|
  {
    if steps != [] {
      var rest := steps[1..];
      LastWriteIsTheLast(rest, k, After(steps[0], k, before));
      assert forall j :: 0 < j < |steps| ==> steps[j] == rest[j - 1];
      forall i: nat | IsLastWrite(steps, i, k)
        ensures LastWrite(steps, k, before) == Some(steps[i].value)
      {
        if i > 0 {
          assert IsLastWrite(rest, i - 1, k);
        } else {
          assert forall j :: 0 <= j < |rest| ==> rest[j] == steps[j + 1];
        }
      }
      if forall i: nat :: !IsLastWrite(steps, i, k) {
        forall i: nat ensures !IsLastWrite(rest, i, k) {
          assert !IsLastWrite(steps, i + 1, k);
        }
        assert !IsLastWrite(steps, 0, k);
      }
    }
  }

  /** After any safe run from the empty engine, a key answers with b exactly when its last write put
      b: a key never written and a key last deleted are both not found. */
  lemma {:induction false} GetsSeeTheLastWrite(maxCompaction: int, steps: seq<Step>, k: Key, b: Bytes)
    requires Runs(Init(maxCompaction), steps) && MergesAreSafe(Init(maxCompaction), steps)
    ensures Get(Exec(Init(maxCompaction), steps), k) == Some(b) <==>
            exists i: nat :: IsLastWrite(steps, i, k) && steps[i].value == Some(b)
  {
    InitInv(maxCompaction);
    ReadsSeeTheLastWrite(Init(maxCompaction), steps, k);
    LastWriteIsTheLast(steps, k, None);
  }

  /** A write answers for its own key and leaves every other answer alone. */
  lemma {:induction false} WriteShows(s: State, k: Key, v: Value)
    requires Sorted(s.active)
    ensures forall q :: Find(Apply(s, Write(k, v)), q) == if q == k then Some(v) else Find(s, q)
  {
    forall q ensures Find(Apply(s, Write(k, v)), q) == if q == k then Some(v) else Find(s, q) {
      LookupAfterInsert(s.active, k, v, q);
    }
  }

  // -------------------------------------------------- compaction, level by level

  /** What CompactSSTable leaves behind on a level that it compacts. */
  function Compacted(files: seq<File>, l: nat, newMeta: File): seq<File> {
    OtherFiles(files, l) + [newMeta]
  }

  function RemoveAll(files: seq<File>, fs: seq<File>): seq<File>
    decreases |fs|
  {
    if fs == [] then files else RemoveAll(Remove(files, fs[0]), fs[1..])
  }

  lemma {:induction false} OthersOfAppend(a: seq<File>, b: seq<File>, l: nat)
    ensures OtherFiles(a + b, l) == OtherFiles(a, l) + OtherFiles(b, l)
  {
    if b == [] {
      assert a + b == a;
    } else {
      var n := |b| - 1;
      assert (a + b)[..|a + b| - 1] == a + b[..n];
      OthersOfAppend(a, b[..n], l);
    }
  }

  lemma {:induction false} RemoveAllCons(x: File, files: seq<File>, fs: seq<File>)
    requires x !in fs
    ensures RemoveAll([x] + files, fs) == [x] + RemoveAll(files, fs)
    decreases |fs|
  {
    if fs != [] {
      assert ([x] + files)[1..] == files;
      assert Remove([x] + files, fs[0]) == [x] + Remove(files, fs[0]);
      RemoveAllCons(x, Remove(files, fs[0]), fs[1..]);
    }
  }

  lemma {:induction false} LevelFilesHaveLevel(files: seq<File>, l: nat)
    ensures forall f :: f in LevelFiles(files, l) ==> f.level == l
  {
    if files != [] {
      LevelFilesHaveLevel(files[..|files| - 1], l);
    }
  }

  lemma {:induction false} LevelCons(f: File, rest: seq<File>, l: nat)
    ensures LevelFiles([f] + rest, l) == if f.level == l then [f] + LevelFiles(rest, l) else LevelFiles(rest, l)
    ensures OtherFiles([f] + rest, l) == if f.level == l then OtherFiles(rest, l) else [f] + OtherFiles(rest, l)
  {
    LevelFilesAppend([f], rest, l);
    OthersOfAppend([f], rest, l);
    assert [f][..0] == [];
  }

  /** Dropping the files of a level one by one leaves the others and what follows them. */
  lemma {:induction false} RemoveLevel(files: seq<File>, tail: seq<File>, l: nat)
    ensures RemoveAll(files + tail, LevelFiles(files, l)) == OtherFiles(files, l) + tail
    decreases |files|
  {
    if files != [] {
      RemoveLevel(files[1..], tail, l);
      RemoveLevelCons(files[0], files[1..], tail, l);
      assert files == [files[0]] + files[1..];
    }
  }

  lemma {:induction false} RemoveLevelCons(f: File, rest: seq<File>, tail: seq<File>, l: nat)
    requires RemoveAll(rest + tail, LevelFiles(rest, l)) == OtherFiles(rest, l) + tail
    ensures RemoveAll([f] + rest + tail, LevelFiles([f] + rest, l)) == OtherFiles([f] + rest, l) + tail
  {
    var fs, others := LevelFiles(rest, l), OtherFiles(rest, l);
    LevelCons(f, rest, l);
    if f.level == l {
      DropsHead(f, rest, tail, fs, others);
    } else {
      LevelFilesHaveLevel(rest, l);
      KeepsHead(f, rest, tail, fs, others);
    }
  }

  lemma {:induction false} DropsHead(f: File, rest: seq<File>, tail: seq<File>, fs: seq<File>, others: seq<File>)
    requires RemoveAll(rest + tail, fs) == others + tail
    ensures RemoveAll([f] + rest + tail, [f] + fs) == others + tail
  {
    assert [f] + rest + tail == [f] + (rest + tail);
    RemoveHead(f, rest + tail, fs);
  }

  lemma {:induction false} KeepsHead(f: File, rest: seq<File>, tail: seq<File>, fs: seq<File>, others: seq<File>)
    requires RemoveAll(rest + tail, fs) == others + tail && f !in fs
    ensures RemoveAll([f] + rest + tail, fs) == [f] + others + tail
  {
    assert [f] + rest + tail == [f] + (rest + tail);
    RemoveAllCons(f, rest + tail, fs);
    assert [f] + (others + tail) == [f] + others + tail;
  }

  lemma {:induction false} RemoveHead(f: File, files: seq<File>, fs: seq<File>)
    ensures RemoveAll([f] + files, [f] + fs) == RemoveAll(files, fs)
  {
    assert ([f] + files)[1..] == files && ([f] + fs)[1..] == fs;
  }

  lemma {:induction false} OthersCount(files: seq<File>, l: nat, h: nat)
    ensures Count(OtherFiles(files, l), h) == if h == l then 0 else Count(files, h)
  {
    if files != [] {
      var n := |files| - 1;
      OthersCount(files[..n], l, h);
      if files[n].level != l {
        LevelFilesAppend(OtherFiles(files[..n], l), [files[n]], h);
        assert [files[n]][..0] == [];
      } else {
        assert OtherFiles(files, l) == OtherFiles(files[..n], l);
      }
    }
  }

  /** Compacting level l empties it and adds one file to level l + 1. */
  lemma {:induction false} CompactedCount(files: seq<File>, l: nat, f: File, h: nat)
    requires f.level == l + 1
    ensures Count(Compacted(files, l, f), h) ==
            if h == l then 0 else if h == l + 1 then Count(files, h) + 1 else Count(files, h)
  {
    LevelFilesAppend(OtherFiles(files, l), [f], h);
    OthersCount(files, l, h);
    assert [f][..0] == [];
  }
}
