/** When replacing files of one level, listed earlier, by their merge, appended at the end, is invisible. */
module Compaction {
  import opened ByteStrings
  import opened Entries
  import opened Merge
  import opened Lsm

  /** The sources of a merge: the files of level l among the first `listed`, those that were in the list
      when GetLevelFiles read it. */
  function Sources(files: seq<File>, l: nat, listed: nat): seq<File>
    requires listed <= |files|
  {
    LevelFiles(files[..listed], l)
  }

  /** Appending newMeta and dropping the sources changes no read. */
  ghost predicate Invisible(files: seq<File>, l: nat, listed: nat, newMeta: File)
    requires listed <= |files|
  {
    forall k :: FilesLookup(RemoveAll(files + [newMeta], Sources(files, l, listed)), k) == FilesLookup(files, k)
  }

  function Levels(files: seq<File>): (ls: seq<nat>)
    ensures |ls| == |files| && forall i :: 0 <= i < |files| ==> ls[i] == files[i].level
  {
    seq(|files|, i requires 0 <= i < |files| => files[i].level)
  }

  /** At the append every file after a source is a source too: a layout that a caller can check. */
  ghost predicate SafeLayout(levels: seq<nat>, l: nat, listed: nat) {
    forall i: nat, j: nat :: i < j < |levels| ==> FollowedBySources(levels, l, listed, i, j)
  }

  /** If file i is a source, so is file j. */
  predicate FollowedBySources(levels: seq<nat>, l: nat, listed: nat, i: nat, j: nat)
    requires i < |levels| && j < |levels|
  {
    i < listed && levels[i] == l ==> j < listed && levels[j] == l
  }

  lemma {:induction false} LevelFilesAreMembers(files: seq<File>, l: nat)
    ensures forall f :: f in LevelFiles(files, l) <==> f in files && f.level == l
  {
    if files != [] {
      var n := |files| - 1;
      LevelFilesAreMembers(files[..n], l);
      assert files == files[..n] + [files[n]];
    }
  }

  lemma {:induction false} RemoveSources(files: seq<File>, l: nat, listed: nat, newMeta: File)
    requires listed <= |files|
    ensures RemoveAll(files + [newMeta], Sources(files, l, listed)) ==
            OtherFiles(files[..listed], l) + files[listed..] + [newMeta]
  {
    var tail := files[listed..] + [newMeta];
    assert files + [newMeta] == files[..listed] + tail;
    RemoveLevel(files[..listed], tail, l);
    assert OtherFiles(files[..listed], l) + tail == OtherFiles(files[..listed], l) + files[listed..] + [newMeta];
  }

  /** A safe layout, in the terms of the step system: the list ends with the sources. */
  lemma {:induction false} SafeLayoutIsNewest(files: seq<File>, l: nat, listed: nat)
    requires UniquePaths(files) && listed <= |files|
    ensures SafeLayout(Levels(files), l, listed) <==> AreNewest(files, Sources(files, l, listed))
  {
    if SafeLayout(Levels(files), l, listed) {
      SafeSources(files, l, listed);
    }
    if AreNewest(files, Sources(files, l, listed)) {
      var levels := Levels(files);
      forall i: nat, j: nat | i < j < |levels| ensures FollowedBySources(levels, l, listed, i, j) {
        if i < listed && levels[i] == l {
          FollowsASource(files, l, listed, i, j, Sources(files, l, listed));
        }
      }
    }
  }

  lemma {:induction false} FollowsASource(files: seq<File>, l: nat, listed: nat, i: nat, j: nat, sources: seq<File>)
    requires UniquePaths(files) && listed <= |files| && sources == Sources(files, l, listed) && AreNewest(files, sources)
    requires i < j < |files| && i < listed && files[i].level == l
    ensures j < listed && files[j].level == l
  {
    AmongSources(files, l, listed, i);
    var q :| 0 <= q < |sources| && sources[q] == files[i];
    var first := |files| - |sources|;
    assert files[first..][q] == files[first + q];
    assert files[first..][j - first] == files[j];
    assert files[j] in sources;
    FromSources(files, l, listed, files[j]);
    var p :| 0 <= p < listed && files[p] == files[j];
  }

  lemma {:induction false} AmongSources(files: seq<File>, l: nat, listed: nat, i: nat)
    requires i < listed <= |files| && files[i].level == l
    ensures files[i] in Sources(files, l, listed)
  {
    LevelFilesAreMembers(files[..listed], l);
    assert files[..listed][i] == files[i];
  }

  lemma {:induction false} FromSources(files: seq<File>, l: nat, listed: nat, f: File)
    requires listed <= |files| && f in Sources(files, l, listed)
    ensures f.level == l && exists p :: 0 <= p < listed && files[p] == f
  {
    LevelFilesAreMembers(files[..listed], l);
    var p :| 0 <= p < listed && files[..listed][p] == f;
    assert files[p] == f;
  }

  lemma {:induction false} SafeSources(files: seq<File>, l: nat, listed: nat)
    requires listed <= |files| && SafeLayout(Levels(files), l, listed)
    ensures AreNewest(files, Sources(files, l, listed))
    ensures OtherFiles(files[..listed], l) + files[listed..] + Sources(files, l, listed) == files
  {
    var sources := Sources(files, l, listed);
    if sources == [] {
      NoLevelFilesListed(files[..listed], l);
      assert files[..listed] + files[listed..] + [] == files;
    } else {
      FromSources(files, l, listed, sources[0]);
      var i :| 0 <= i < listed && files[i] == sources[0];
      ListedAreAll(Levels(files), l, listed, i);
      assert files[..listed] == files && files[listed..] == [];
      SafeLevel(files, l);
    }
  }

  lemma {:induction false} SafeLevel(files: seq<File>, l: nat)
    requires SafeLayout(Levels(files), l, |files|)
    ensures AreNewest(files, LevelFiles(files, l)) && OtherFiles(files, l) + [] + LevelFiles(files, l) == files
  {
    forall i: nat, j: nat | i < j < |files| && files[i].level == l ensures files[j].level == l {
      assert FollowedBySources(Levels(files), l, |files|, i, j);
    }
    LevelAtEndIsSuffix(files, l);
  }

  lemma {:induction false} ListedAreAll(levels: seq<nat>, l: nat, listed: nat, i: nat)
    requires i < listed <= |levels| && levels[i] == l && SafeLayout(levels, l, listed)
    ensures listed == |levels|
  {
    var last := |levels| - 1;
    if i < last {
      assert FollowedBySources(levels, l, listed, i, last);
    }
  }

  lemma {:induction false} NoLevelFilesListed(files: seq<File>, l: nat)
    requires LevelFiles(files, l) == []
    ensures OtherFiles(files, l) == files
  {
    LevelFilesAreMembers(files, l);
    forall i | 0 <= i < |files| ensures files[i].level != l {
      assert files[i] in files;
    }
    NoLevelFiles(files, l);
  }

  lemma {:induction false} SafeMergeIsInvisible(files: seq<File>, l: nat, listed: nat, newMeta: File)
    requires listed <= |files| && SafeLayout(Levels(files), l, listed)
    requires IsMerge(newMeta.table, TablesOf(Sources(files, l, listed)))
    ensures Invisible(files, l, listed, newMeta)
  {
    var older, sources := OtherFiles(files[..listed], l) + files[listed..], Sources(files, l, listed);
    RemoveSources(files, l, listed, newMeta);
    SafeSources(files, l, listed);
    forall k ensures FilesLookup(older + [newMeta], k) == FilesLookup(older + sources, k) {
      FilesAppend(older, [newMeta], k);
      OneFile(newMeta, k);
      FilesAppend(older, sources, k);
      assert Lookup(newMeta.table, k) == Newest(TablesOf(sources), k);
    }
  }

  // ------------------------------------------------------------ unsafe layouts

  lemma {:induction false} NewestAgreed(tables: seq<Table>, k: Key, v: Value)
    requires forall j :: 0 <= j < |tables| ==> Lookup(tables[j], k) == None || Lookup(tables[j], k) == Some(v)
    requires exists j :: 0 <= j < |tables| && Lookup(tables[j], k).Some?
    ensures Newest(tables, k) == Some(v)
  {
    var n := |tables| - 1;
    if Lookup(tables[n], k) == None {
      var j :| 0 <= j < |tables| && Lookup(tables[j], k).Some?;
      assert tables[..n][j] == tables[j];
      NewestAgreed(tables[..n], k, v);
    }
  }

  const KEY_A: Key := []
  const KEY_B: Key := [1]
  const OLD: Value := Some([0])
  const NEW: Value := Some([1])

  /** The source i holds an old value of a key, the later file j, not a source, a new one. */
  function Conflict(levels: seq<nat>, i: nat, j: nat): (files: seq<File>)
    ensures |files| == |levels|
    ensures forall p :: 0 <= p < |levels| ==>
      files[p] == File(p, levels[p],
        if p == i then [Entry(KEY_A, OLD), Entry(KEY_B, OLD)] else if p == j then [Entry(KEY_A, NEW)] else [Entry(KEY_B, OLD)])
  {
    seq(|levels|, p requires 0 <= p < |levels| =>
      File(p, levels[p],
        if p == i then [Entry(KEY_A, OLD), Entry(KEY_B, OLD)] else if p == j then [Entry(KEY_A, NEW)] else [Entry(KEY_B, OLD)]))
  }

  lemma {:induction false} ConflictLookups(k: Key)
    ensures Lookup([Entry(KEY_A, OLD), Entry(KEY_B, OLD)], k) == if k == KEY_A || k == KEY_B then Some(OLD) else None
    ensures Lookup([Entry(KEY_A, NEW)], k) == if k == KEY_A then Some(NEW) else None
    ensures Lookup([Entry(KEY_B, OLD)], k) == if k == KEY_B then Some(OLD) else None
  {
  }

  predicate InConflict(levels: seq<nat>, l: nat, listed: nat, i: nat, j: nat) {
    listed <= |levels| && i < j < |levels| && i < listed && levels[i] == l && !(j < listed && levels[j] == l)
  }

  /** With any other layout some contents lose a write: the merged file carries the old value past
      the newer file. */
  lemma {:induction false} UnsafeMergeLosesAWrite(levels: seq<nat>, l: nat, listed: nat) returns (files: seq<File>, newMeta: File)
    requires listed <= |levels| && !SafeLayout(levels, l, listed)
    ensures Levels(files) == levels && SortedFiles(files) && UniquePaths(files)
    ensures IsMerge(newMeta.table, TablesOf(Sources(files, l, listed)))
    ensures FilesLookup(files, KEY_A) == Some(NEW)
    ensures FilesLookup(RemoveAll(files + [newMeta], Sources(files, l, listed)), KEY_A) == Some(OLD)
  {
    var i: nat, j: nat :| i < j < |levels| && !FollowedBySources(levels, l, listed, i, j);
    files := Conflict(levels, i, j);
    newMeta := File(|levels|, l + 1, files[i].table);
    ConflictShape(levels, i, j);
    ConflictMerge(levels, i, j, l, listed);
    ConflictReadsNew(levels, i, j);
    RemoveSources(files, l, listed, newMeta);
    ConflictReadsOld(OtherFiles(files[..listed], l) + files[listed..], newMeta);
  }

  lemma {:induction false} ConflictMerge(levels: seq<nat>, i: nat, j: nat, l: nat, listed: nat)
    requires InConflict(levels, l, listed, i, j)
    ensures IsMerge(Conflict(levels, i, j)[i].table, TablesOf(Sources(Conflict(levels, i, j), l, listed)))
  {
    var files := Conflict(levels, i, j);
    ConflictShape(levels, i, j);
    forall k ensures Lookup(files[i].table, k) == Newest(TablesOf(Sources(files, l, listed)), k) {
      SourcesOfConflict(files, levels, i, j, l, listed, k);
    }
  }

  lemma {:induction false} ConflictReadsOld(older: seq<File>, newMeta: File)
    requires newMeta.table == [Entry(KEY_A, OLD), Entry(KEY_B, OLD)]
    ensures FilesLookup(older + [newMeta], KEY_A) == Some(OLD)
  {
    ConflictLookups(KEY_A);
    FilesAppend(older, [newMeta], KEY_A);
    OneFile(newMeta, KEY_A);
  }

  lemma {:induction false} ConflictShape(levels: seq<nat>, i: nat, j: nat)
    ensures SortedFiles(Conflict(levels, i, j)) && UniquePaths(Conflict(levels, i, j))
    ensures Levels(Conflict(levels, i, j)) == levels
  {
    assert Less(KEY_A, KEY_B);
    assert Sorted([Entry(KEY_A, OLD), Entry(KEY_B, OLD)]);
    assert Sorted([Entry(KEY_A, NEW)]) && Sorted([Entry(KEY_B, OLD)]);
  }

  lemma {:induction false} ConflictReadsNew(levels: seq<nat>, i: nat, j: nat)
    requires i < j < |levels|
    ensures FilesLookup(Conflict(levels, i, j), KEY_A) == Some(NEW)
  {
    ConflictLookups(KEY_A);
    NewestIs(TablesOf(Conflict(levels, i, j)), KEY_A, j);
  }

  lemma {:induction false} SourcesOfConflict(files: seq<File>, levels: seq<nat>, i: nat, j: nat, l: nat, listed: nat, k: Key)
    requires InConflict(levels, l, listed, i, j) && files == Conflict(levels, i, j)
    ensures Newest(TablesOf(Sources(files, l, listed)), k) == Lookup(files[i].table, k)
  {
    var sources := Sources(files, l, listed);
    var tables := TablesOf(sources);
    LevelFilesAreMembers(files[..listed], l);
    ConflictLookups(k);
    forall p | 0 <= p < |tables| ensures Lookup(tables[p], k) == None || Lookup(tables[p], k) == Lookup(files[i].table, k) {
      assert sources[p] in sources;
      var q :| 0 <= q < listed && files[..listed][q] == sources[p];
      assert q != j;
    }
    assert files[..listed][i] == files[i];
    assert files[i] in sources;
    var at :| 0 <= at < |tables| && sources[at] == files[i];
    assert tables[at] == files[i].table;
    if Lookup(files[i].table, k).Some? {
      NewestAgreed(tables, k, Lookup(files[i].table, k).value);
    }
  }

  /** Exactly the safe layouts make a merge invisible whatever the files hold. */
  lemma {:induction false} MergeIsInvisibleIffSafe(levels: seq<nat>, l: nat, listed: nat)
    requires listed <= |levels|
    ensures SafeLayout(levels, l, listed) <==>
            (forall files: seq<File>, newMeta: File ::
               Levels(files) == levels && SortedFiles(files) && IsMerge(newMeta.table, TablesOf(Sources(files, l, listed)))
               ==> Invisible(files, l, listed, newMeta))
  {
    if SafeLayout(levels, l, listed) {
      forall files: seq<File>, newMeta: File | Levels(files) == levels && IsMerge(newMeta.table, TablesOf(Sources(files, l, listed)))
        ensures Invisible(files, l, listed, newMeta)
      {
        SafeMergeIsInvisible(files, l, listed, newMeta);
      }
    } else {
      var files, newMeta := UnsafeMergeLosesAWrite(levels, l, listed);
      assert !Invisible(files, l, listed, newMeta);
    }
  }

  /** Why a flush must not publish during a pass. Published while a merge runs, the new file follows its
      sources, on whatever level; published before the listing, it follows the files of every level
      above 0. */
  lemma {:induction false} PublishMidPassIsUnsafe(files: seq<File>, published: File, l: nat)
    requires published.level == 0 && LevelFiles(files, l) != []
    ensures !SafeLayout(Levels(files + [published]), l, |files|)
    ensures l > 0 ==> !SafeLayout(Levels(files + [published]), l, |files| + 1)
  {
    LevelFilesAreMembers(files, l);
    var f := LevelFiles(files, l)[0];
    assert f in LevelFiles(files, l);
    var i :| 0 <= i < |files| && files[i] == f;
    var levels := Levels(files + [published]);
    assert levels[i] == l && levels[|files|] == 0;
    assert !FollowedBySources(levels, l, |files|, i, |files|);
    assert l > 0 ==> !FollowedBySources(levels, l, |files| + 1, i, |files|);
  }

  // ---------------------------------------------- runs that lose a write

  /** The run goes from s to s', and its last write to k is v, if it writes k at all. */
  ghost predicate Goes(s: State, steps: seq<Step>, s': State, k: Key, v: Option<Value>) {
    Runs(s, steps) && Exec(s, steps) == s' && (forall before :: LastWrite(steps, k, before) == if v.Some? then v else before)
  }

  lemma {:induction false} LastWriteOfBoth(a: seq<Step>, b: seq<Step>, k: Key, before: Option<Value>)
    ensures LastWrite(a + b, k, before) == LastWrite(b, k, LastWrite(a, k, before))
    decreases |a|
  {
    if a == [] {
      assert a + b == b;
    } else {
      assert (a + b)[1..] == a[1..] + b;
      LastWriteOfBoth(a[1..], b, k, After(a[0], k, before));
    }
  }

  lemma {:induction false} GoesOn(s: State, a: seq<Step>, s': State, b: seq<Step>, s'': State, k: Key, v: Option<Value>, w: Option<Value>)
    requires Goes(s, a, s', k, v) && Goes(s', b, s'', k, w)
    ensures Goes(s, a + b, s'', k, if w.Some? then w else v)
    ensures PublishesBetweenPasses(s, a) && PublishesBetweenPasses(s', b) ==> PublishesBetweenPasses(s, a + b)
  {
    RunMore(s, a, b);
    forall before ensures LastWrite(a + b, k, before) == LastWrite(b, k, LastWrite(a, k, before)) {
      LastWriteOfBoth(a, b, k, before);
    }
  }

  lemma {:induction false} GoesOneStep(s: State, step: Step, k: Key)
    requires Enabled(s, step)
    ensures Goes(s, [step], Apply(s, step), k, if step.Write? && step.key == k then Some(step.value) else None)
    ensures PublishesBetweenPasses(s, [step]) <==> (step.FlushPublish? ==> s.compact.Resting?)
  {
    RunOfOne(s, step);
    assert [step][1..] == [];
  }

  /** The memtable is empty and no flush is under way. */
  predicate Flushed(s: State) {
    s.active == [] && s.dirty == None && s.flush.Idle? && !s.compact.Dropping?
  }

  function WithFile(s: State, f: File): State {
    s.(files := s.files + [f])
  }

  /** One write and its flush. */
  lemma {:induction false} WriteAndFlush(s: State, k: Key, v: Value, path: nat) returns (steps: seq<Step>)
    requires Flushed(s) && FreshPath(s.files, path)
    ensures Goes(s, steps, WithFile(s, File(path, 0, [Entry(k, v)])), k, Some(v))
    ensures NoMergeFails(steps) && (s.compact.Resting? ==> PublishesBetweenPasses(s, steps))
  {
    var s1 := Apply(s, Write(k, v));
    var s2 := Apply(s1, FlushBegin);
    var s3 := Apply(s2, FlushPublish(path));
    GoesOneStep(s, Write(k, v), k);
    GoesOneStep(s1, FlushBegin, k);
    GoesOneStep(s2, FlushPublish(path), k);
    GoesOneStep(s3, FlushClear, k);
    GoesOn(s, [Write(k, v)], s1, [FlushBegin], s2, k, Some(v), None);
    GoesOn(s, [Write(k, v)] + [FlushBegin], s2, [FlushPublish(path)], s3, k, Some(v), None);
    steps := [Write(k, v)] + [FlushBegin] + [FlushPublish(path)] + [FlushClear];
    GoesOn(s, [Write(k, v)] + [FlushBegin] + [FlushPublish(path)], s3, [FlushClear], Apply(s3, FlushClear), k, Some(v), None);
  }

  /** Merging a level of one file: the merged file goes to the end of the list. */
  lemma {:induction false} MergeOneFile(s: State, older: seq<File>, f: File, newer: seq<File>, path: nat, k: Key)
    returns (steps: seq<Step>, s': State)
    requires s.compact.AtLevel? && s.compact.level == f.level < MAX_LEVEL && s.maxCompaction <= 1
    requires s.files == older + [f] + newer && Sorted(f.table) && FreshPath(s.files, path)
    requires forall g :: g in older + newer ==> g.level != f.level
    ensures s' == s.(files := older + newer + [File(path, f.level + 1, f.table)], compact := AtLevel(f.level + 1))
    ensures Goes(s, steps, s', k, None) && NoMergeFails(steps) && PublishesBetweenPasses(s, steps)
  {
    var merge := CompactMerge(path, f.table);
    MergeOneFileSteps(s, older, f, newer, path);
    var s1 := Apply(s, CompactList);
    s' := Apply(Apply(Apply(s1, merge), CompactDrop), CompactNext);
    GoesOneStep(s, CompactList, k);
    ThreeSteps(s1, merge, CompactDrop, CompactNext, k);
    GoesOn(s, [CompactList], s1, [merge] + [CompactDrop] + [CompactNext], s', k, None, None);
    steps := [CompactList] + ([merge] + [CompactDrop] + [CompactNext]);
  }

  lemma {:induction false} ThreeSteps(s: State, a: Step, b: Step, c: Step, k: Key)
    requires Enabled(s, a) && Enabled(Apply(s, a), b) && Enabled(Apply(Apply(s, a), b), c)
    requires !a.Write? && !b.Write? && !c.Write? && !a.FlushPublish? && !b.FlushPublish? && !c.FlushPublish?
    ensures Goes(s, [a] + [b] + [c], Apply(Apply(Apply(s, a), b), c), k, None)
    ensures PublishesBetweenPasses(s, [a] + [b] + [c])
  {
    var s1, s2, s3 := Apply(s, a), Apply(Apply(s, a), b), Apply(Apply(Apply(s, a), b), c);
    GoesOneStep(s, a, k);
    GoesOneStep(s1, b, k);
    GoesOneStep(s2, c, k);
    GoesOn(s, [a], s1, [b], s2, k, None, None);
    GoesOn(s, [a] + [b], s2, [c], s3, k, None, None);
  }

  lemma {:induction false} MergeOneFileSteps(s: State, older: seq<File>, f: File, newer: seq<File>, path: nat)
    requires s.compact.AtLevel? && s.compact.level == f.level < MAX_LEVEL && s.maxCompaction <= 1
    requires s.files == older + [f] + newer && Sorted(f.table) && FreshPath(s.files, path)
    requires forall g :: g in older + newer ==> g.level != f.level
    ensures var s1 := Apply(s, CompactList);
            var s2 := Apply(s1, CompactMerge(path, f.table));
            var s3 := Apply(s2, CompactDrop);
            && Enabled(s, CompactList) && Enabled(s1, CompactMerge(path, f.table))
            && Enabled(s2, CompactDrop) && Enabled(s3, CompactNext)
            && Apply(s3, CompactNext) ==
               s.(files := older + newer + [File(path, f.level + 1, f.table)], compact := AtLevel(f.level + 1))
  {
    LevelOfOne(older, f, newer);
    MergeOfOne(f);
    RemoveOne(older, f, newer, File(path, f.level + 1, f.table));
  }

  lemma {:induction false} RemoveOne(older: seq<File>, f: File, newer: seq<File>, merged: File)
    requires forall g :: g in older + newer ==> g.level != f.level
    ensures Remove(older + [f] + newer + [merged], f) == older + newer + [merged]
  {
    assert forall g :: g in older ==> g in older + newer;
    RemoveMiddle(older, f, newer + [merged]);
    assert older + [f] + newer + [merged] == older + [f] + (newer + [merged]);
    assert older + (newer + [merged]) == older + newer + [merged];
  }

  lemma {:induction false} LevelOfOne(older: seq<File>, f: File, newer: seq<File>)
    requires forall g :: g in older + newer ==> g.level != f.level
    ensures LevelFiles(older + [f] + newer, f.level) == [f]
  {
    forall g | g in older || g in newer ensures g.level != f.level {
      assert g in older + newer;
    }
    NoLevelFiles(older, f.level);
    NoLevelFiles(newer, f.level);
    LevelFilesAppend(older, [f], f.level);
    LevelFilesAppend(older + [f], newer, f.level);
    assert [f][..0] == [];
  }

  lemma {:induction false} MergeOfOne(f: File)
    requires Sorted(f.table)
    ensures IsMerge(f.table, TablesOf([f]))
  {
    forall k ensures Lookup(f.table, k) == Newest(TablesOf([f]), k) {
      OneFile(f, k);
    }
  }

  /** The rest of a pass in which no level fires. */
  lemma {:induction false} SkipToRest(s: State, k: Key) returns (steps: seq<Step>)
    requires s.compact.AtLevel? && s.compact.level <= MAX_LEVEL
    requires forall f :: f in s.files ==> f.level < s.compact.level
    ensures Goes(s, steps, s.(compact := CompactPc.Resting), k, None) && NoMergeFails(steps) && PublishesBetweenPasses(s, steps)
    decreases MAX_LEVEL - s.compact.level
  {
    if s.compact.level == MAX_LEVEL {
      steps := [CompactNext];
      GoesOneStep(s, CompactNext, k);
    } else {
      NoLevelFiles(s.files, s.compact.level);
      var s' := Apply(s, CompactSkip);
      GoesOneStep(s, CompactSkip, k);
      var rest := SkipToRest(s', k);
      GoesOn(s, [CompactSkip], s', rest, s.(compact := CompactPc.Resting), k, None, None);
      steps := [CompactSkip] + rest;
    }
  }

  lemma {:induction false} OldCoversNew(k: Key, old': Value, new': Value, s: State, b: File, a: File)
    requires s.active == [] && s.dirty == None && s.files == [b] + [a] && a.table == [Entry(k, old')]
    ensures Find(s, k) == Some(old')
  {
    FilesAppend([b], [a], k);
    OneFile(a, k);
  }

  /** A write and its flush between two levels of a pass: the next level's merge buries it. */
  lemma {:induction false} PublishDuringAPassLosesAWrite(k: Key, older: Value, newer: Value) returns (steps: seq<Step>)
    ensures var s := Init(1);
            Runs(s, steps) && NoMergeFails(steps) && LastWrite(steps, k, None) == Some(newer) && Find(Exec(s, steps), k) == Some(older)
  {
    var t, s0 := [Entry(k, older)], Init(1);
    var s1 := WithFile(s0, File(0, 0, t));
    var s2 := Apply(s1, CompactBegin);
    assert s1.files == [File(0, 0, t)];
    steps := WriteAndFlush(s0, k, older, 0);
    GoesOneStep(s1, CompactBegin, k);
    GoesOn(s0, steps, s1, [CompactBegin], s2, k, Some(older), None);
    steps := steps + [CompactBegin];
    var merge, s3 := MergeOneFile(s2, [], File(0, 0, t), [], 1, k);
    GoesOn(s0, steps, s2, merge, s3, k, Some(older), None);
    steps := steps + merge;
    var write := WriteAndFlush(s3, k, newer, 2);
    var s4 := WithFile(s3, File(2, 0, [Entry(k, newer)]));
    GoesOn(s0, steps, s3, write, s4, k, Some(older), Some(newer));
    steps := steps + write;
    assert s4.files == [] + [File(1, 1, t)] + [File(2, 0, [Entry(k, newer)])];
    var bury, s5 := MergeOneFile(s4, [], File(1, 1, t), [File(2, 0, [Entry(k, newer)])], 3, k);
    GoesOn(s0, steps, s4, bury, s5, k, Some(newer), None);
    steps := steps + bury;
    OldCoversNew(k, older, newer, s5, File(2, 0, [Entry(k, newer)]), File(3, 2, t));
  }

  /** A write and its flush while level 0 itself is being merged, after its files were listed: the
      merged file is appended after the newer one. */
  lemma {:induction false} PublishDuringAMergeLosesAWrite(k: Key, older: Value, newer: Value) returns (steps: seq<Step>)
    ensures var s := Init(1);
            Runs(s, steps) && NoMergeFails(steps) && LastWrite(steps, k, None) == Some(newer) && Find(Exec(s, steps), k) == Some(older)
  {
    var t, s0 := [Entry(k, older)], Init(1);
    var a, b := File(0, 0, t), File(1, 0, [Entry(k, newer)]);
    var s1 := WithFile(s0, a);
    assert s1.files == [a];
    steps := WriteAndFlush(s0, k, older, 0);
    var list, s2 := BeginAndList(s1, a, k);
    GoesOn(s0, steps, s1, list, s2, k, Some(older), None);
    steps := steps + list;
    var write := WriteAndFlush(s2, k, newer, 1);
    var s3 := WithFile(s2, b);
    GoesOn(s0, steps, s2, write, s3, k, Some(older), Some(newer));
    steps := steps + write;
    var bury, s4 := FinishMerge(s3, a, b, k);
    GoesOn(s0, steps, s3, bury, s4, k, Some(newer), None);
    steps := steps + bury;
    OldCoversNew(k, older, newer, s4, b, File(2, 1, t));
  }

  lemma {:induction false} BeginAndList(s: State, a: File, k: Key) returns (steps: seq<Step>, s': State)
    requires s.compact.Resting? && s.files == [a] && a.level == 0 && s.maxCompaction == 1
    ensures s' == s.(compact := Merging(0, [a], 1)) && Goes(s, steps, s', k, None) && NoMergeFails(steps)
  {
    var s1 := Apply(s, CompactBegin);
    s' := Apply(s1, CompactList);
    assert [a] == [] + [a] + [];
    LevelOfOne([], a, []);
    GoesOneStep(s, CompactBegin, k);
    GoesOneStep(s1, CompactList, k);
    GoesOn(s, [CompactBegin], s1, [CompactList], s', k, None, None);
    steps := [CompactBegin] + [CompactList];
  }

  /** The merge of a alone is appended after b, and a is dropped. */
  lemma {:induction false} FinishMerge(s: State, a: File, b: File, k: Key) returns (steps: seq<Step>, s': State)
    requires s.compact == Merging(0, [a], 1) && s.files == [a] + [b] && Sorted(a.table) && a.path == 0 && b.path == 1
    ensures Goes(s, steps, s', k, None) && NoMergeFails(steps)
    ensures s'.files == [b] + [File(2, 1, a.table)] && s'.active == s.active && s'.dirty == s.dirty
  {
    var merge := CompactMerge(2, a.table);
    var s1 := Apply(s, merge);
    s' := Apply(s1, CompactDrop);
    MergeOfOne(a);
    GoesOneStep(s, merge, k);
    GoesOneStep(s1, CompactDrop, k);
    GoesOn(s, [merge], s1, [CompactDrop], s', k, None, None);
    steps := [merge] + [CompactDrop];
  }

  /** Failed merges alone can do the same: they leave a level to be merged after newer files have
      come to lie below it. */
  lemma {:induction false} FailedMergesLoseAWrite(k: Key, older: Value, newer: Value) returns (steps: seq<Step>)
    ensures var s := Init(1);
            && Runs(s, steps) && PublishesBetweenPasses(s, steps)
            && LastWrite(steps, k, None) == Some(newer) && Find(Exec(s, steps), k) == Some(older)
  {
    var t, s0 := [Entry(k, older)], Init(1);
    var b := File(2, 0, [Entry(k, newer)]);
    var s1 := WithFile(s0, File(0, 0, t));
    assert s1.files == [File(0, 0, t)];
    steps := WriteAndFlush(s0, k, older, 0);
    var pass, s2 := FirstPass(s1, t, k);
    GoesOn(s0, steps, s1, pass, s2, k, Some(older), None);
    steps := steps + pass;
    var write := WriteAndFlush(s2, k, newer, 2);
    var s3 := WithFile(s2, b);
    GoesOn(s0, steps, s2, write, s3, k, Some(older), Some(newer));
    steps := steps + write;
    var again, s4 := SecondPass(s3, t, b, k);
    GoesOn(s0, steps, s3, again, s4, k, Some(newer), None);
    steps := steps + again;
    OldCoversNew(k, older, newer, s4, b, File(3, 2, t));
  }

  /** Level 0 is merged, level 1 fails. */
  lemma {:induction false} FirstPass(s: State, t: Table, k: Key) returns (steps: seq<Step>, s': State)
    requires s.compact.Resting? && s.files == [File(0, 0, t)] && Sorted(t) && s.maxCompaction == 1
    ensures s' == s.(files := [File(1, 1, t)])
    ensures Goes(s, steps, s', k, None) && PublishesBetweenPasses(s, steps)
  {
    var s1 := Apply(s, CompactBegin);
    GoesOneStep(s, CompactBegin, k);
    var merge, s2 := MergeOneFile(s1, [], File(0, 0, t), [], 1, k);
    GoesOn(s, [CompactBegin], s1, merge, s2, k, None, None);
    assert s2.files == [] + [File(1, 1, t)] + [];
    LevelOfOne([], File(1, 1, t), []);
    var s3 := Apply(Apply(s2, CompactList), CompactFail);
    ListAndFail(s2, k);
    GoesOn(s, [CompactBegin] + merge, s2, [CompactList] + [CompactFail], s3, k, None, None);
    var skip := SkipToRest(s3, k);
    s' := s3.(compact := CompactPc.Resting);
    GoesOn(s, [CompactBegin] + merge + ([CompactList] + [CompactFail]), s3, skip, s', k, None, None);
    steps := [CompactBegin] + merge + ([CompactList] + [CompactFail]) + skip;
  }

  /** Level 0 fails, so level 1 is merged with a newer file still below it. */
  lemma {:induction false} SecondPass(s: State, t: Table, b: File, k: Key) returns (steps: seq<Step>, s': State)
    requires s.compact.Resting? && s.files == [File(1, 1, t)] + [b] && Sorted(t) && s.maxCompaction == 1
    requires b.level == 0 && b.path == 2
    ensures s' == s.(files := [b] + [File(3, 2, t)], compact := AtLevel(2))
    ensures Goes(s, steps, s', k, None) && PublishesBetweenPasses(s, steps)
  {
    var s1 := Apply(s, CompactBegin);
    var s2 := Apply(Apply(s1, CompactList), CompactFail);
    GoesOneStep(s, CompactBegin, k);
    LevelZeroFires(s1, t, b);
    ListAndFail(s1, k);
    GoesOn(s, [CompactBegin], s1, [CompactList] + [CompactFail], s2, k, None, None);
    assert s2.files == [] + [File(1, 1, t)] + [b];
    var bury;
    bury, s' := MergeOneFile(s2, [], File(1, 1, t), [b], 3, k);
    GoesOn(s, [CompactBegin] + ([CompactList] + [CompactFail]), s2, bury, s', k, None, None);
    steps := [CompactBegin] + ([CompactList] + [CompactFail]) + bury;
  }

  lemma {:induction false} ListAndFail(s: State, k: Key)
    requires Enabled(s, CompactList)
    ensures Goes(s, [CompactList] + [CompactFail], Apply(Apply(s, CompactList), CompactFail), k, None)
    ensures PublishesBetweenPasses(s, [CompactList] + [CompactFail])
  {
    var s1 := Apply(s, CompactList);
    GoesOneStep(s, CompactList, k);
    GoesOneStep(s1, CompactFail, k);
    GoesOn(s, [CompactList], s1, [CompactFail], Apply(s1, CompactFail), k, None, None);
  }

  lemma {:induction false} LevelZeroFires(s: State, t: Table, b: File)
    requires s.compact == AtLevel(0) && s.files == [File(1, 1, t)] + [b] && s.maxCompaction == 1 && b.level == 0
    ensures Enabled(s, CompactList)
  {
    assert s.files == [File(1, 1, t)] + [b] + [];
    LevelOfOne([File(1, 1, t)], b, []);
  }
}
