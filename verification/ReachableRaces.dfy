/** The misses of ReadRaces in runs from the empty engine: every write of the mimicking run has a key of
    its own, so that files that are not merged from one another share no key. */
module ReachableRaces {
  import opened ByteStrings
  import opened Entries
  import opened Merge
  import opened Lsm
  import opened ConcurrentReads
  import opened ReadRaces

  ghost predicate Holds(t: Table, k: Key) {
    Lookup(t, k).Some?
  }

  ghost predicate Apart(a: Table, b: Table) {
    forall k :: Holds(a, k) ==> !Holds(b, k)
  }

  /** Only keys of the first n writes, all live. */
  ghost predicate Below(t: Table, n: nat) {
    forall k :: Holds(t, k) ==> Lookup(t, k) == Some(LIVE) && IsKeyBelow(k, n)
  }

  ghost predicate IsKeyBelow(k: Key, n: nat) {
    exists i: nat :: i < n && k == PathKey(i)
  }

  lemma {:induction false} NextKeyIsNew(n: nat)
    ensures !IsKeyBelow(PathKey(n), n) && IsKeyBelow(PathKey(n), n + 1)
    ensures forall k :: IsKeyBelow(k, n) ==> IsKeyBelow(k, n + 1)
  {
    forall i: nat | i < n ensures PathKey(i) != PathKey(n) {
      assert |PathKey(i)| == i + 1 && |PathKey(n)| == n + 1;
    }
    forall k | IsKeyBelow(k, n) ensures IsKeyBelow(k, n + 1) {
      var i: nat :| i < n && k == PathKey(i);
      assert i < n + 1;
    }
  }

  /** A file and the merge of which it is a source. */
  predicate MergedFrom(c: CompactPc, f: File, g: File) {
    c.Dropping? && g == c.newMeta && f in c.pending
  }

  ghost predicate PairApart(c: CompactPc, f: File, g: File) {
    f == g || Apart(f.table, g.table) || MergedFrom(c, f, g) || MergedFrom(c, g, f)
  }

  ghost predicate FilesApart(s: State) {
    forall f, g :: f in s.files && g in s.files ==> PairApart(s.compact, f, g)
  }

  ghost predicate Owned(s: State, n: nat) {
    && Below(s.active, n) && (forall f :: f in s.files ==> Below(f.table, n) && f.table != [] && Apart(s.active, f.table))
    && (s.dirty.Some? ==> Below(s.dirty.value, n) && s.dirty.value != [] && Apart(s.active, s.dirty.value))
    && (s.dirty.Some? && !s.flush.Published? ==> forall f :: f in s.files ==> Apart(s.dirty.value, f.table))
    && FilesApart(s)
    && (s.compact.Merging? ==> s.compact.sources != [])
  }

  lemma {:induction false} BelowMore(s: State, n: nat)
    requires Owned(s, n)
    ensures Owned(s, n + 1)
  {
    NextKeyIsNew(n);
  }

  lemma {:induction false} WriteKeepsOwned(s: State, n: nat)
    requires Inv(s) && Owned(s, n)
    ensures Owned(Apply(s, Write(PathKey(n), LIVE)), n + 1)
  {
    var active' := Insert(s.active, PathKey(n), LIVE);
    NextKeyIsNew(n);
    forall k ensures Lookup(active', k) == if k == PathKey(n) then Some(LIVE) else Lookup(s.active, k) {
      LookupAfterInsert(s.active, PathKey(n), LIVE, k);
    }
    forall f | f in s.files ensures Apart(active', f.table) {
      assert Below(f.table, n) && Apart(s.active, f.table);
    }
  }

  lemma {:induction false} PublishKeepsOwned(s: State, n: nat, path: nat)
    requires Inv(s) && Owned(s, n) && Enabled(s, FlushPublish(path))
    ensures Owned(Apply(s, FlushPublish(path)), n)
  {
    var s' := Apply(s, FlushPublish(path));
    var d := File(path, 0, s.dirty.value);
    forall f, g | f in s'.files && g in s'.files ensures PairApart(s'.compact, f, g) {
      if f in s.files && g in s.files {
        assert PairApart(s.compact, f, g);
      } else if f in s.files {
        assert Apart(s.dirty.value, f.table) && g == d;
      } else if g in s.files {
        assert Apart(s.dirty.value, g.table) && f == d;
      }
    }
  }

  /** A merge holds only its sources' keys, and all of them. */
  lemma {:induction false} MergeHolds(s: State, merged: Table, k: Key)
    requires Inv(s) && s.compact.Merging? && IsMerge(merged, TablesOf(s.compact.sources))
    ensures Holds(merged, k) ==> exists f :: f in s.compact.sources && f in s.files && Lookup(f.table, k) == Lookup(merged, k)
  {
    SourcesAreListed(s);
    if Holds(merged, k) {
      var sources := s.compact.sources;
      assert Lookup(merged, k) == Newest(TablesOf(sources), k);
      var j := NewestHolder(TablesOf(sources), k);
      assert sources[j] in sources && TablesOf(sources)[j] == sources[j].table;
    }
  }

  lemma {:induction false} NewestHolder(tables: seq<Table>, k: Key) returns (j: nat)
    requires Newest(tables, k).Some?
    ensures j < |tables| && Lookup(tables[j], k) == Newest(tables, k)
  {
    var n := |tables| - 1;
    if Lookup(tables[n], k).Some? {
      j := n;
    } else {
      j := NewestHolder(tables[..n], k);
    }
  }

  lemma {:induction false} MergeKeepsOwned(s: State, n: nat, path: nat, merged: Table)
    requires Inv(s) && Owned(s, n) && Enabled(s, CompactMerge(path, merged))
    ensures Owned(Apply(s, CompactMerge(path, merged)), n)
  {
    var s' := Apply(s, CompactMerge(path, merged));
    var sources, m := s.compact.sources, File(path, s.compact.level + 1, merged);
    SourcesAreListed(s);
    MergedIsOwned(s, n, merged);
    forall f, g | f in s'.files && g in s'.files ensures PairApart(s'.compact, f, g) {
      if f in s.files && g in s.files {
        assert PairApart(s.compact, f, g);
      } else if g in s.files && g !in sources {
        MergedIsApart(s, merged, g);
      } else if f in s.files && f !in sources {
        MergedIsApart(s, merged, f);
      }
    }
  }

  lemma {:induction false} MergedIsApart(s: State, merged: Table, g: File)
    requires Inv(s) && FilesApart(s) && s.compact.Merging? && IsMerge(merged, TablesOf(s.compact.sources))
    requires g in s.files && g !in s.compact.sources
    ensures Apart(merged, g.table) && Apart(g.table, merged)
  {
    forall k | Holds(merged, k) ensures !Holds(g.table, k) {
      MergeHolds(s, merged, k);
      var f :| f in s.compact.sources && f in s.files && Lookup(f.table, k) == Lookup(merged, k);
      assert PairApart(s.compact, f, g) && f != g;
    }
  }

  lemma {:induction false} MergedIsOwned(s: State, n: nat, merged: Table)
    requires Inv(s) && Owned(s, n) && s.compact.Merging? && IsMerge(merged, TablesOf(s.compact.sources))
    ensures Below(merged, n) && merged != [] && Apart(s.active, merged)
    ensures s.dirty.Some? && !s.flush.Published? ==> Apart(s.dirty.value, merged)
  {
    forall k | Holds(merged, k)
      ensures Lookup(merged, k) == Some(LIVE) && IsKeyBelow(k, n) && !Holds(s.active, k)
      ensures s.dirty.Some? && !s.flush.Published? ==> !Holds(s.dirty.value, k)
    {
      MergeHolds(s, merged, k);
      var f :| f in s.compact.sources && f in s.files && Lookup(f.table, k) == Lookup(merged, k);
      assert Below(f.table, n) && Apart(s.active, f.table);
    }
    SourcesAreListed(s);
    assert s.compact.sources[0] in s.compact.sources;
    MergeIsNonEmpty(merged, TablesOf(s.compact.sources));
  }

  lemma {:induction false} DropKeepsOwned(s: State, n: nat)
    requires Inv(s) && Owned(s, n) && Enabled(s, CompactDrop)
    ensures Owned(Apply(s, CompactDrop), n)
  {
    var s' := Apply(s, CompactDrop);
    var gone := s.compact.pending[0];
    DropKeepsMembers(s);
    forall f, g | f in s'.files && g in s'.files ensures PairApart(s'.compact, f, g) {
      assert PairApart(s.compact, f, g) && f != gone && g != gone;
      assert s.compact.pending == [gone] + s'.compact.pending;
    }
  }

  lemma {:induction false} DropKeepsMembers(s: State)
    requires Inv(s) && Enabled(s, CompactDrop)
    ensures forall f :: f in Apply(s, CompactDrop).files <==> f in s.files && f != s.compact.pending[0]
  {
    var c := s.compact;
    DropKeepsShape(s);
    var rest := Apply(s, CompactDrop).files;
    assert c.pending == [c.pending[0]] + c.pending[1..];
    var at := |c.older|;
    assert s.files[at] == c.pending[0];
    forall f | f in rest ensures f in s.files && f != c.pending[0] {
      var i :| 0 <= i < |rest| && rest[i] == f;
      assert s.files[if i < at then i else i + 1] == f;
    }
    forall f | f in s.files && f != c.pending[0] ensures f in rest {
      var i :| 0 <= i < |s.files| && s.files[i] == f;
      assert rest[if i < at then i else i - 1] == f;
    }
  }

  lemma {:induction false} StepKeepsOwned(s: State, n: nat, step: Step)
    requires Inv(s) && Owned(s, n) && Enabled(s, step) && (step.Write? ==> step == Write(PathKey(n), LIVE))
    ensures Owned(Apply(s, step), n + 1)
  {
    match step
    case Write(_, _) => WriteKeepsOwned(s, n);
    case FlushPublish(path) =>
      PublishKeepsOwned(s, n, path);
      BelowMore(Apply(s, step), n);
    case CompactMerge(path, merged) =>
      MergeKeepsOwned(s, n, path, merged);
      BelowMore(Apply(s, step), n);
    case CompactDrop =>
      DropKeepsOwned(s, n);
      BelowMore(Apply(s, step), n);
    case _ =>
      QuietStepKeepsOwned(s, n, step);
      BelowMore(Apply(s, step), n);
  }

  /** The steps that leave the list of files alone. */
  lemma {:induction false} QuietStepKeepsOwned(s: State, n: nat, step: Step)
    requires Inv(s) && Owned(s, n) && Enabled(s, step)
    requires !step.Write? && !step.FlushPublish? && !step.CompactMerge? && !step.CompactDrop?
    ensures Owned(Apply(s, step), n)
  {
    var s' := Apply(s, step);
    assert s'.files == s.files;
    forall f, g | f in s.files && g in s.files ensures PairApart(s'.compact, f, g) {
      assert PairApart(s.compact, f, g);
    }
    if step.FlushBegin? {
      SwapKeepsApart(s, n);
    }
  }

  lemma {:induction false} SwapKeepsApart(s: State, n: nat)
    requires Owned(s, n) && Enabled(s, FlushBegin)
    ensures var s' := Apply(s, FlushBegin);
            && s'.dirty.Some? && Below(s'.dirty.value, n) && s'.dirty.value != [] && Apart(s'.active, s'.dirty.value)
            && (forall f :: f in s.files ==> Apart(s'.dirty.value, f.table) && Apart(s'.active, f.table))
            && Below(s'.active, n)
  {
  }

  /** A run of the same shape whose i-th step, if it is a write, writes the i-th key. */
  lemma {:induction false} MimicOwned(s: State, t: State, steps: seq<Step>, n: nat) returns (steps': seq<Step>)
    requires Inv(s) && Inv(t) && SameShape(s, t) && SafeRun(s, steps) && Owned(t, n)
    ensures SameKinds(steps, steps') && SafeRun(t, steps') && Owned(Exec(t, steps'), n + |steps|)
    decreases |steps|
  {
    if steps == [] {
      steps' := [];
    } else {
      var first := Mimic(s, t, steps[0], PathKey(n));
      StepKeepsShape(s, t, steps[0], first);
      StepKeepsInv(s, steps[0]);
      StepKeepsInv(t, first);
      StepKeepsOwned(t, n, first);
      var rest := MimicOwned(Apply(s, steps[0]), Apply(t, first), steps[1..], n + 1);
      steps' := [first] + rest;
      assert steps'[1..] == rest;
    }
  }

  // ------------------------------------------------- the sources go before the merge

  /** Either the pass that is dropping these sources is still at it, and the merged file is listed, or
      none of them is left. */
  ghost predicate SourcesFirst(listed: CompactPc, now: State) {
    listed.Dropping? ==>
      || (forall g :: g in listed.pending ==> g !in now.files)
      || (&& now.compact.Dropping? && now.compact.newMeta == listed.newMeta && listed.newMeta in now.files
          && (forall g :: g in listed.pending && g in now.files ==> g in now.compact.pending))
  }

  lemma {:induction false} StepKeepsSourcesFirst(l: State, now: State, step: Step)
    requires Inv(now) && Enabled(now, step) && NewName(l.files, step) && SourcesFirst(l.compact, now)
    requires l.compact.Dropping? ==> forall g :: g in l.compact.pending ==> g in l.files
    ensures SourcesFirst(l.compact, Apply(now, step))
  {
    var c := l.compact;
    if c.Dropping? {
      match step
      case FlushPublish(path) =>
        NewNameIsNotListed(l.files, path);
      case CompactMerge(path, merged) =>
        NewNameIsNotListed(l.files, path);
      case CompactDrop =>
        DropKeepsMembers(now);
        MergedStays(now);
      case _ =>
    }
  }

  lemma {:induction false} MergedStays(s: State)
    requires Inv(s) && Enabled(s, CompactDrop)
    ensures s.compact.newMeta in Apply(s, CompactDrop).files
    ensures s.compact.pending == [s.compact.pending[0]] + s.compact.pending[1..]
  {
    var c := s.compact;
    DropKeepsShape(s);
    assert Apply(s, CompactDrop).files[|c.older| + |c.pending| - 1] == c.newMeta;
  }

  lemma {:induction false} NewNameIsNotListed(files: seq<File>, path: nat)
    requires FreshPath(files, path)
    ensures forall f :: f in files ==> f.path != path
  {
  }

  lemma {:induction false} SourcesGoFirst(l: State, now: State, steps: seq<Step>, n: nat)
    requires Inv(now) && SafeRun(now, steps) && NamesAreNew(l.files, steps) && SourcesFirst(l.compact, now) && n <= |steps|
    requires l.compact.Dropping? ==> forall g :: g in l.compact.pending ==> g in l.files
    ensures SourcesFirst(l.compact, Exec(now, steps[..n]))
    decreases n
  {
    if n == 0 {
      assert steps[..0] == [];
    } else {
      StepKeepsInv(now, steps[0]);
      assert NewName(l.files, steps[0]);
      StepKeepsSourcesFirst(l, now, steps[0]);
      SourcesGoFirst(l, Apply(now, steps[0]), steps[1..], n - 1);
      assert steps[..n][1..] == steps[1..][..n - 1];
    }
  }

  /** A file that is gone does not come back. */
  lemma {:induction false} GoneStaysGone(l: State, now: State, steps: seq<Step>, f: File, n: nat, m: nat)
    requires f in l.files && NamesAreNew(l.files, steps) && n <= m <= |steps| && Runs(now, steps)
    requires f !in Exec(now, steps[..n]).files
    ensures f !in Exec(now, steps[..m]).files
    decreases m
  {
    if n < m {
      GoneStaysGone(l, now, steps, f, n, m - 1);
      var s := Exec(now, steps[..m - 1]);
      assert steps[..m] == steps[..m - 1] + [steps[m - 1]];
      RunMore(now, steps[..m - 1], [steps[m - 1]]);
      RunOfOne(s, steps[m - 1]);
      assert NewName(l.files, steps[m - 1]);
      NotAdded(l.files, s, steps[m - 1], f);
    }
  }

  lemma {:induction false} NotAdded(files: seq<File>, s: State, step: Step, f: File)
    requires f in files && NewName(files, step) && f !in s.files
    ensures f !in Apply(s, step).files
  {
    if s.compact.Dropping? && s.compact.pending != [] {
      RemoveMembers(s.files, s.compact.pending[0]);
    }
  }

  // ------------------------------------------------------------- the miss

  /** A listed file's first key. Nobody else holds it but the sources of the file, if it is a merged one
      whose sources are still being dropped. */
  lemma {:induction false} OthersLack(l: State, n: nat, p: nat, q: nat)
    requires Inv(l) && Owned(l, n) && p < |l.files| && q < |l.files| && p != q && !IsPending(l, p)
    ensures var k := l.files[p].table[0].key;
            Lookup(l.files[q].table, k) == None || (IsPending(l, q) && l.compact.newMeta == l.files[p])
  {
    var f, g := l.files[p], l.files[q];
    assert f in l.files && f.table != [];
    assert f != g && PairApart(l.compact, f, g);
    LookupAt(f.table, 0);
    assert Holds(f.table, f.table[0].key);
  }

  lemma {:induction false} EarlierGone(l: State, after: seq<Step>, probes: seq<nat>, p: nat, q: nat)
    requires Inv(l) && SafeRun(l, after) && NamesAreNew(l.files, after) && Timed(l, after, probes)
    requires p < |probes| && q < |probes| && IsPending(l, q) && l.compact.newMeta == l.files[p]
    requires !Present(l, after, probes, p)
    ensures !Present(l, after, probes, q)
  {
    var c := l.compact;
    PendingIsOlder(l, p, q);
    forall g | g in c.pending ensures g in l.files {
      var i :| 0 <= i < |c.pending| && c.pending[i] == g;
      assert l.files[|c.older| + i] == g;
    }
    assert l.files[|c.older| + |c.pending|] == c.newMeta;
    SourcesGoFirst(l, l, after, probes[p]);
    GoneStaysGone(l, l, after, l.files[q], probes[p], probes[q]);
  }

  lemma {:induction false} PendingIsOlder(l: State, p: nat, q: nat)
    requires Inv(l) && p < |l.files| && q < |l.files| && IsPending(l, q) && l.compact.newMeta == l.files[p]
    ensures q < p
  {
    var c := l.compact;
    var i :| 0 <= i < |c.pending| && c.pending[i] == l.files[q];
    assert l.files[|c.older| + i] == c.pending[i] && l.files[|c.older| + |c.pending|] == c.newMeta;
  }

  lemma {:induction false} AllProbesMiss(l: State, after: seq<Step>, probes: seq<nat>, n: nat, k: Key)
    requires Timed(l, after, probes) && n <= |probes|
    requires forall q: nat :: q < |probes| ==> Lookup(l.files[q].table, k) == None || !Present(l, after, probes, q)
    ensures ProbeFiles(l, after, probes, n, k) == None
  {
    if n > 0 {
      AllProbesMiss(l, after, probes, n - 1, k);
    }
  }

  /** In a state whose files own their keys, the first key of a file that goes too early is missed. */
  lemma {:induction false} OwnedFileIsMissed(l: State, n: nat, after: seq<Step>, probes: seq<nat>, p: nat)
    requires Inv(l) && Owned(l, n) && !l.flush.Published? && SafeRun(l, after) && NamesAreNew(l.files, after)
    requires Timed(l, after, probes) && p < |probes| && !Present(l, after, probes, p) && !IsPending(l, p)
    ensures l.files[p].table != []
    ensures var k := l.files[p].table[0].key;
            && ProbeFiles(l, after, probes, |probes|, k) == None && Lookup(l.active, k) == None
            && (l.dirty.Some? ==> Lookup(l.dirty.value, k) == None) && FilesLookup(l.files, k) == Some(LIVE)
  {
    var f := l.files[p];
    assert f in l.files && f.table != [];
    var k := f.table[0].key;
    LookupAt(f.table, 0);
    assert Holds(f.table, k) && Below(f.table, n) && Apart(l.active, f.table);
    forall q: nat | q < |probes| ensures Lookup(l.files[q].table, k) == None || !Present(l, after, probes, q) {
      if q != p {
        OthersLack(l, n, p, q);
        if Lookup(l.files[q].table, k).Some? {
          EarlierGone(l, after, probes, p, q);
        }
      }
    }
    AllProbesMiss(l, after, probes, |probes|, k);
    NewestHas(l.files, f, k);
    var j := NewestHolder(TablesOf(l.files), k);
    assert l.files[j] in l.files && Below(l.files[j].table, n);
  }

  /** When the state at the listing comes from a run of the empty engine, and no published table is still
      in memory, the miss happens in a run of the same shape from the empty engine. */
  lemma {:induction false} DroppedFileIsMissedFromInit(maxCompaction: int, before: seq<Step>, after: seq<Step>, probes: seq<nat>, p: nat)
    returns (before': seq<Step>, after': seq<Step>, k: Key)
    requires SafeRun(Init(maxCompaction), before)
    requires var l := Exec(Init(maxCompaction), before);
             && !l.flush.Published? && SafeRun(l, after) && NamesAreNew(l.files, after) && Timed(l, after, probes)
             && p < |probes| && !Present(l, after, probes, p) && !IsPending(l, p)
    ensures SafeRun(Init(maxCompaction), before') && SameKinds(before, before')
    ensures var l, t := Exec(Init(maxCompaction), before), Exec(Init(maxCompaction), before');
            && Instance(l, after, t, [], 0, after') && Timed(t, after', probes)
            && ConcurrentFind(t, [], 0, after', probes, k) == None
            && (forall n :: 0 <= n <= |after'| ==> Find(Exec(t, after'[..n]), k) == Some(LIVE))
  {
    var s0 := Init(maxCompaction);
    var l := Exec(s0, before);
    InitInv(maxCompaction);
    ReadsSeeTheLastWrite(s0, before, []);
    InitIsOwned(maxCompaction);
    before' := MimicOwned(s0, s0, before, 0);
    var t := Exec(s0, before');
    ReadsSeeTheLastWrite(s0, before', []);
    RunsKeepShape(s0, s0, before, before', |before|);
    assert before[..|before|] == before && before'[..|before|] == before';
    after' := MissAfter(l, t, |before|, after, probes, p);
    k := t.files[p].table[0].key;
    StaysLive(t, after', k, LIVE);
  }

  lemma {:induction false} InitIsOwned(maxCompaction: int)
    ensures Owned(Init(maxCompaction), 0) && SameShape(Init(maxCompaction), Init(maxCompaction))
  {
  }

  lemma {:induction false} MissAfter(l: State, t: State, n: nat, after: seq<Step>, probes: seq<nat>, p: nat) returns (after': seq<Step>)
    requires Inv(l) && Inv(t) && SameShape(l, t) && Owned(t, n) && !l.flush.Published? && SafeRun(l, after)
    requires NamesAreNew(l.files, after) && Timed(l, after, probes) && p < |probes|
    requires !Present(l, after, probes, p) && !IsPending(l, p)
    ensures Instance(l, after, t, [], 0, after') && Timed(t, after', probes) && t.files[p].table != []
    ensures var k := t.files[p].table[0].key;
            && ConcurrentFind(t, [], 0, after', probes, k) == None && Find(t, k) == Some(LIVE)
            && (forall i :: 0 <= i < |after'| ==> after'[i].Write? ==> after'[i].key != k)
  {
    ShapeOfFiles(l.files, t.files);
    after' := MimicRun(l, t, after);
    ShapeDecidesNames(l, t, after, after');
    AbsenceIsShape(l, t, after, after', probes, p);
    if IsPending(t, p) {
      SameShapeFlips(l, t);
      PendingIsShape(t, l, p);
      assert false;
    }
    OwnedFileIsMissed(t, n, after', probes, p);
    var k := t.files[p].table[0].key;
    LookupAt(t.files[p].table, 0);
    assert t.files[p] in t.files && Below(t.files[p].table, n) && Holds(t.files[p].table, k);
    var i: nat :| i < n && k == PathKey(i);
  }
}
