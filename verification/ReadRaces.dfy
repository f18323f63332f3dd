/** When a Get that overlaps a compaction is right whatever the files hold: exactly when the files it
    listed are kept until it opens them. A run is mimicked by one of the same shape in which every
    file holds a key of its own. */
module ReadRaces {
  import opened ByteStrings
  import opened Entries
  import opened Merge
  import opened Lsm
  import opened RangeScan
  import opened Compaction
  import opened ConcurrentReads

  // -------------------------------------------------------------------- shape

  datatype Mark = Mark(path: nat, level: nat)

  /** What does not depend on contents. */
  function Shape(files: seq<File>): (ms: seq<Mark>)
    ensures |ms| == |files| && forall i :: 0 <= i < |files| ==> ms[i] == Mark(files[i].path, files[i].level)
  {
    seq(|files|, i requires 0 <= i < |files| => Mark(files[i].path, files[i].level))
  }

  lemma {:induction false} ShapeOfLevels(a: seq<File>, b: seq<File>, l: nat)
    requires Shape(a) == Shape(b)
    ensures Shape(LevelFiles(a, l)) == Shape(LevelFiles(b, l)) && Shape(OtherFiles(a, l)) == Shape(OtherFiles(b, l))
  {
    if a != [] {
      var n := |a| - 1;
      assert Shape(a)[..n] == Shape(a[..n]) && Shape(b)[..n] == Shape(b[..n]);
      ShapeOfLevels(a[..n], b[..n], l);
      assert Shape(a)[n] == Shape(b)[n];
      assert Shape([a[n]]) == Shape([b[n]]);
      ShapeAppend(LevelFiles(a[..n], l), [a[n]]);
      ShapeAppend(LevelFiles(b[..n], l), [b[n]]);
      ShapeAppend(OtherFiles(a[..n], l), [a[n]]);
      ShapeAppend(OtherFiles(b[..n], l), [b[n]]);
      assert LevelFiles(a[..n], l) + [] == LevelFiles(a[..n], l) && LevelFiles(b[..n], l) + [] == LevelFiles(b[..n], l);
    }
  }

  lemma {:induction false} ShapeAppend(a: seq<File>, b: seq<File>)
    ensures Shape(a + b) == Shape(a) + Shape(b)
  {
  }

  predicate SamePass(c: CompactPc, d: CompactPc) {
    match c
    case Resting => d.Resting?
    case AtLevel(l) => d == AtLevel(l)
    case Merging(l, sources, listed) =>
      d.Merging? && d.level == l && d.listed == listed && Shape(sources) == Shape(d.sources)
    case Dropping(l, older, pending, newMeta, newer) =>
      && d.Dropping? && d.level == l && Shape(older) == Shape(d.older) && Shape(pending) == Shape(d.pending)
      && Shape([newMeta]) == Shape([d.newMeta]) && Shape(newer) == Shape(d.newer)
  }

  predicate SameShape(s: State, t: State) {
    && (s.active == [] <==> t.active == []) && (s.dirty == None <==> t.dirty == None)
    && Shape(s.files) == Shape(t.files) && s.flush == t.flush && SamePass(s.compact, t.compact)
    && s.maxCompaction == t.maxCompaction
  }

  /** The step without what it writes. */
  function Kind(step: Step): Step {
    match step
    case Write(_, _) => Write([], None)
    case CompactMerge(path, _) => CompactMerge(path, [])
    case _ => step
  }

  predicate SameKinds(a: seq<Step>, b: seq<Step>) {
    |a| == |b| && forall i :: 0 <= i < |a| ==> Kind(a[i]) == Kind(b[i])
  }

  lemma {:induction false} ShapeOfFiles(a: seq<File>, b: seq<File>)
    requires Shape(a) == Shape(b)
    ensures |a| == |b| && forall i :: 0 <= i < |a| ==> a[i].path == b[i].path && a[i].level == b[i].level
  {
    forall i | 0 <= i < |a| ensures a[i].path == b[i].path && a[i].level == b[i].level {
      assert Shape(a)[i] == Shape(b)[i];
    }
  }

  lemma {:induction false} InsertIsNonEmpty(t: Table, k: Key, v: Value)
    ensures Insert(t, k, v) != []
  {
  }

  lemma {:induction false} DropKeepsShape(s: State)
    requires Inv(s) && Enabled(s, CompactDrop)
    ensures var c := s.compact;
            Apply(s, CompactDrop).files == c.older + c.pending[1..] + [c.newMeta] + c.newer
  {
    DropStep(s);
  }

  lemma {:induction false} DropsKeepShape(s: State, t: State)
    requires Inv(s) && Inv(t) && SameShape(s, t) && Enabled(s, CompactDrop) && Enabled(t, CompactDrop)
    ensures SameShape(Apply(s, CompactDrop), Apply(t, CompactDrop))
  {
    var c, d := s.compact, t.compact;
    DropKeepsShape(s);
    DropKeepsShape(t);
    assert Shape(c.pending[1..]) == Shape(c.pending)[1..] && Shape(d.pending[1..]) == Shape(d.pending)[1..];
    FourShapes(c.older, c.pending[1..], [c.newMeta], c.newer);
    FourShapes(d.older, d.pending[1..], [d.newMeta], d.newer);
  }

  lemma {:induction false} FourShapes(a: seq<File>, b: seq<File>, c: seq<File>, d: seq<File>)
    ensures Shape(a + b + c + d) == Shape(a) + Shape(b) + Shape(c) + Shape(d)
  {
    ShapeAppend(a, b);
    ShapeAppend(a + b, c);
    ShapeAppend(a + b + c, d);
  }

  lemma {:induction false} MergesKeepShape(s: State, t: State, path: nat, a: Table, b: Table)
    requires SameShape(s, t) && Enabled(s, CompactMerge(path, a)) && Enabled(t, CompactMerge(path, b))
    ensures SameShape(Apply(s, CompactMerge(path, a)), Apply(t, CompactMerge(path, b)))
  {
    var l := s.compact.level;
    ShapeOfBefore(s.files, t.files, s.compact.sources, t.compact.sources);
    ShapeAppend(s.files, [File(path, l + 1, a)]);
    ShapeAppend(t.files, [File(path, l + 1, b)]);
    assert Shape([File(path, l + 1, a)]) == Shape([File(path, l + 1, b)]);
    assert Shape([]) == [];
  }

  lemma {:induction false} ShapeOfBefore(a: seq<File>, b: seq<File>, c: seq<File>, d: seq<File>)
    requires Shape(a) == Shape(b) && Shape(c) == Shape(d)
    ensures Shape(OlderThan(a, c)) == Shape(OlderThan(b, d))
  {
    assert |Shape(a)| == |Shape(b)| && |Shape(c)| == |Shape(d)|;
    if |c| <= |a| {
      var n := |a| - |c|;
      assert Shape(a[..n]) == Shape(a)[..n] && Shape(b[..n]) == Shape(b)[..n];
    }
  }

  /** Whether the list ends with given members of it is a matter of shape. */
  lemma {:induction false} NewestIsShape(a: seq<File>, b: seq<File>, c: seq<File>, d: seq<File>)
    requires Shape(a) == Shape(b) && Shape(c) == Shape(d) && UniquePaths(b) && (forall f :: f in d ==> f in b)
    requires AreNewest(a, c)
    ensures AreNewest(b, d)
  {
    ShapeOfFiles(a, b);
    ShapeOfFiles(c, d);
    var n := |a| - |c|;
    forall i | 0 <= i < |d| ensures b[n..][i] == d[i] {
      assert d[i] in b;
      var j :| 0 <= j < |b| && b[j] == d[i];
      assert a[n..][i] == a[n + i] == c[i];
      assert b[n + i].path == b[j].path;
    }
  }

  lemma {:induction false} PublishesKeepShape(s: State, t: State, path: nat)
    requires SameShape(s, t) && Enabled(s, FlushPublish(path)) && Enabled(t, FlushPublish(path))
    ensures SameShape(Apply(s, FlushPublish(path)), Apply(t, FlushPublish(path)))
  {
    var f, g := File(path, 0, s.dirty.value), File(path, 0, t.dirty.value);
    assert Shape([f]) == Shape([g]);
    ShapeAppend(s.files, [f]);
    ShapeAppend(t.files, [g]);
    if s.compact.Dropping? {
      ShapeAppend(s.compact.newer, [f]);
      ShapeAppend(t.compact.newer, [g]);
    }
  }

  /** Steps of one kind keep states of one shape so. */
  lemma {:induction false} StepKeepsShape(s: State, t: State, step: Step, step': Step)
    requires Inv(s) && Inv(t) && SameShape(s, t) && Kind(step) == Kind(step') && Enabled(s, step) && Enabled(t, step')
    ensures SameShape(Apply(s, step), Apply(t, step'))
  {
    match step
    case Write(k, v) =>
      InsertIsNonEmpty(s.active, k, v);
      InsertIsNonEmpty(t.active, step'.key, step'.value);
    case FlushPublish(path) => PublishesKeepShape(s, t, path);
    case CompactList =>
      ShapeOfLevels(s.files, t.files, s.compact.level);
      assert |Shape(s.files)| == |Shape(t.files)|;
    case CompactMerge(path, merged) => MergesKeepShape(s, t, path, merged, step'.merged);
    case CompactDrop => DropsKeepShape(s, t);
    case _ =>
  }

  lemma {:induction false} ShapeDecides(s: State, t: State)
    requires SameShape(s, t)
    ensures Fires(s) <==> Fires(t)
    ensures forall path :: FreshPath(s.files, path) <==> FreshPath(t.files, path)
  {
    ShapeOfFiles(s.files, t.files);
    if s.compact.AtLevel? {
      ShapeOfLevels(s.files, t.files, s.compact.level);
    }
  }

  // ------------------------------------------------------------------ mimicry

  /** A merge of any sorted tables. */
  function MergeOf(tables: seq<Table>): Table {
    if tables == [] then [] else Overlay(tables[|tables| - 1], MergeOf(tables[..|tables| - 1]))
  }

  lemma {:induction false} MergeOfIsMerge(tables: seq<Table>)
    requires forall i :: 0 <= i < |tables| ==> Sorted(tables[i])
    ensures IsMerge(MergeOf(tables), tables)
  {
    if tables != [] {
      var n := |tables| - 1;
      MergeOfIsMerge(tables[..n]);
      OverlayIsSorted(tables[n], MergeOf(tables[..n]));
      forall k ensures Lookup(MergeOf(tables), k) == Newest(tables, k) {
        OverlayAnswers(tables[n], MergeOf(tables[..n]), k);
        assert Lookup(MergeOf(tables[..n]), k) == Newest(tables[..n], k);
      }
    }
  }

  /** The sources of a running merge are in the list, and sorted. */
  lemma {:induction false} SourcesAreListed(s: State)
    requires Inv(s) && s.compact.Merging?
    ensures forall f :: f in s.compact.sources ==> f in s.files
    ensures forall i :: 0 <= i < |s.compact.sources| ==> Sorted(s.compact.sources[i].table)
  {
    var sources := s.compact.sources;
    LevelFilesAreMembers(s.files[..s.compact.listed], s.compact.level);
    forall f | f in sources ensures f in s.files && Sorted(f.table) {
      assert f in s.files[..s.compact.listed];
      var i :| 0 <= i < |s.files| && s.files[i] == f;
      assert Sorted(s.files[i].table);
    }
    forall i | 0 <= i < |sources| ensures Sorted(sources[i].table) {
      assert sources[i] in sources;
    }
  }

  /** The same step in a state of the same shape; a write goes to the given key. */
  lemma {:induction false} Mimic(s: State, t: State, step: Step, key: Key) returns (step': Step)
    requires Inv(t) && SameShape(s, t) && Enabled(s, step) && Safe(s, step)
    ensures Kind(step') == Kind(step) && Enabled(t, step') && Safe(t, step')
    ensures step'.Write? ==> step' == Write(key, LIVE)
  {
    ShapeDecides(s, t);
    match step
    case Write(_, _) => step' := Write(key, LIVE);
    case CompactMerge(path, _) =>
      var sources := t.compact.sources;
      SourcesAreListed(t);
      MergeOfIsMerge(TablesOf(sources));
      NewestIsShape(s.files, t.files, s.compact.sources, sources);
      step' := CompactMerge(path, MergeOf(TablesOf(sources)));
    case CompactDrop =>
      assert |Shape(s.compact.pending)| == |Shape(t.compact.pending)|;
      step' := step;
    case CompactNext =>
      if s.compact.Dropping? { assert |Shape(s.compact.pending)| == |Shape(t.compact.pending)|; }
      step' := step;
    case _ => step' := step;
  }

  lemma {:induction false} MimicRun(s: State, t: State, steps: seq<Step>) returns (steps': seq<Step>)
    requires Inv(s) && Inv(t) && SameShape(s, t) && SafeRun(s, steps)
    ensures SameKinds(steps, steps') && SafeRun(t, steps')
    ensures forall i :: 0 <= i < |steps'| ==> steps'[i].Write? ==> steps'[i].key == []
    decreases |steps|
  {
    if steps == [] {
      steps' := [];
    } else {
      var first := Mimic(s, t, steps[0], []);
      StepKeepsShape(s, t, steps[0], first);
      StepKeepsInv(s, steps[0]);
      StepKeepsInv(t, first);
      var rest := MimicRun(Apply(s, steps[0]), Apply(t, first), steps[1..]);
      steps' := [first] + rest;
      assert steps'[1..] == rest;
    }
  }

  lemma {:induction false} RunsKeepShape(s: State, t: State, steps: seq<Step>, steps': seq<Step>, n: nat)
    requires Inv(s) && Inv(t) && SameShape(s, t) && SafeRun(s, steps) && SafeRun(t, steps') && SameKinds(steps, steps')
    requires n <= |steps|
    ensures SameShape(Exec(s, steps[..n]), Exec(t, steps'[..n]))
    decreases |steps|
  {
    if n > 0 {
      StepKeepsShape(s, t, steps[0], steps'[0]);
      StepKeepsInv(s, steps[0]);
      StepKeepsInv(t, steps'[0]);
      RunsKeepShape(Apply(s, steps[0]), Apply(t, steps'[0]), steps[1..], steps'[1..], n - 1);
      assert steps[..n][1..] == steps[1..][..n - 1] && steps'[..n][1..] == steps'[1..][..n - 1];
    } else {
      assert steps[..0] == [] && steps'[..0] == [];
    }
  }

  // -------------------------------------------------- a key of its own for every file

  function PathKey(path: nat): (k: Key)
    ensures |k| == path + 1
  {
    seq(path + 1, _ => 0)
  }

  const LIVE: Value := Some([])

  function Own(path: nat): Table {
    [Entry(PathKey(path), LIVE)]
  }

  lemma {:induction false} OwnHolds(path: nat, k: Key)
    ensures Sorted(Own(path)) && Lookup(Own(path), k) == if k == PathKey(path) then Some(LIVE) else None
  {
  }

  function Owns(files: seq<File>): (ts: seq<Table>)
    ensures |ts| == |files| && forall i :: 0 <= i < |files| ==> ts[i] == Own(files[i].path)
  {
    seq(|files|, i requires 0 <= i < |files| => Own(files[i].path))
  }

  /** The file's own key; the merged file also holds those of the files waiting to be dropped. */
  function Content(c: CompactPc, f: File): Table {
    if c.Dropping? && f == c.newMeta then MergeOf(Owns(c.pending + [f])) else Own(f.path)
  }

  function Filled(c: CompactPc, files: seq<File>): (fs: seq<File>)
    ensures |fs| == |files| && forall i :: 0 <= i < |files| ==> fs[i] == File(files[i].path, files[i].level, Content(c, files[i]))
  {
    seq(|files|, i requires 0 <= i < |files| => File(files[i].path, files[i].level, Content(c, files[i])))
  }

  predicate HasKey(files: seq<File>, k: Key) {
    exists i :: 0 <= i < |files| && PathKey(files[i].path) == k
  }

  lemma {:induction false} OwnsAnswer(files: seq<File>, k: Key)
    ensures Newest(Owns(files), k) == if HasKey(files, k) then Some(LIVE) else None
  {
    if files != [] {
      var n := |files| - 1;
      OwnsAnswer(files[..n], k);
      OwnHolds(files[n].path, k);
      assert Owns(files)[..n] == Owns(files[..n]);
    }
  }

  /** Which keys a file holds. */
  predicate HoldsKeyOf(c: CompactPc, f: File, path: nat) {
    f.path == path || (c.Dropping? && f == c.newMeta && exists i :: 0 <= i < |c.pending| && c.pending[i].path == path)
  }

  lemma {:induction false} ContentHolds(c: CompactPc, f: File)
    ensures Sorted(Content(c, f))
    ensures forall path :: Lookup(Content(c, f), PathKey(path)) == if HoldsKeyOf(c, f, path) then Some(LIVE) else None
    ensures forall k :: Lookup(Content(c, f), k).Some? ==> exists path :: k == PathKey(path)
  {
    if c.Dropping? && f == c.newMeta {
      MergedContent(c.pending, f);
    } else {
      OwnContent(f.path);
    }
  }

  lemma {:induction false} OwnContent(own: nat)
    ensures Sorted(Own(own))
    ensures forall path :: Lookup(Own(own), PathKey(path)) == if own == path then Some(LIVE) else None
    ensures forall k :: Lookup(Own(own), k).Some? ==> exists path :: k == PathKey(path)
  {
    forall path: nat ensures Lookup(Own(own), PathKey(path)) == if own == path then Some(LIVE) else None {
      OwnHolds(own, PathKey(path));
      assert |PathKey(path)| == path + 1;
    }
    forall k | Lookup(Own(own), k).Some? ensures exists path :: k == PathKey(path) {
      OwnHolds(own, k);
    }
  }

  lemma {:induction false} MergedAnswers(files: seq<File>)
    ensures Sorted(MergeOf(Owns(files)))
    ensures forall k :: Lookup(MergeOf(Owns(files)), k) == (if HasKey(files, k) then Some(LIVE) else None)
  {
    forall i | 0 <= i < |files| ensures Sorted(Owns(files)[i]) {
      OwnHolds(files[i].path, []);
    }
    MergeOfIsMerge(Owns(files));
    forall k ensures Lookup(MergeOf(Owns(files)), k) == if HasKey(files, k) then Some(LIVE) else None {
      OwnsAnswer(files, k);
    }
  }

  lemma {:induction false} MergedContent(pending: seq<File>, f: File)
    ensures var t := MergeOf(Owns(pending + [f]));
            && Sorted(t)
            && (forall path :: Lookup(t, PathKey(path)) ==
                  if f.path == path || exists i :: 0 <= i < |pending| && pending[i].path == path then Some(LIVE) else None)
            && (forall k :: Lookup(t, k).Some? ==> exists path :: k == PathKey(path))
  {
    var files := pending + [f];
    MergedAnswers(files);
    forall path: nat
      ensures (exists i :: 0 <= i < |files| && PathKey(files[i].path) == PathKey(path)) <==>
              f.path == path || exists i :: 0 <= i < |pending| && pending[i].path == path
    {
      MergedKeys(pending, f, path);
    }
  }

  lemma {:induction false} MergedKeys(pending: seq<File>, f: File, path: nat)
    ensures var files := pending + [f];
            (exists i :: 0 <= i < |files| && PathKey(files[i].path) == PathKey(path)) <==>
            f.path == path || exists i :: 0 <= i < |pending| && pending[i].path == path
  {
    var files := pending + [f];
    if f.path == path {
      assert PathKey(files[|pending|].path) == PathKey(path);
    } else if i :| 0 <= i < |pending| && pending[i].path == path {
      assert PathKey(files[i].path) == PathKey(path);
    } else if i :| 0 <= i < |files| && PathKey(files[i].path) == PathKey(path) {
      assert |PathKey(files[i].path)| == |PathKey(path)|;
    }
  }

  function FilledPass(c: CompactPc): CompactPc {
    match c
    case Dropping(l, older, pending, newMeta, newer) =>
      Dropping(l, Filled(c, older), Filled(c, pending), Filled(c, [newMeta])[0], Filled(c, newer))
    case Merging(l, sources, listed) => Merging(l, Filled(c, sources), listed)
    case _ => c
  }

  /** A state of the same shape, with these contents. */
  function FilledState(s: State): State {
    s.(active := if s.active == [] then [] else [Entry([], LIVE)],
       dirty := if s.dirty == None then None else Some([]),
       files := Filled(s.compact, s.files), compact := FilledPass(s.compact))
  }

  lemma {:induction false} FilledAppend(c: CompactPc, a: seq<File>, b: seq<File>)
    ensures Filled(c, a + b) == Filled(c, a) + Filled(c, b)
  {
  }

  lemma {:induction false} FilledLevel(c: CompactPc, files: seq<File>, l: nat)
    ensures LevelFiles(Filled(c, files), l) == Filled(c, LevelFiles(files, l))
  {
    if files != [] {
      var n := |files| - 1;
      FilledLevel(c, files[..n], l);
      assert Filled(c, files)[..n] == Filled(c, files[..n]);
      FilledAppend(c, LevelFiles(files[..n], l), [files[n]]);
      assert Filled(c, [files[n]]) == [Filled(c, files)[n]];
    }
  }

  lemma {:induction false} FilledMergeIsGood(s: State)
    requires Inv(s) && s.compact.Merging?
    ensures MergingInv(Filled(s.compact, s.files), FilledPass(s.compact))
    ensures SamePass(s.compact, FilledPass(s.compact))
  {
    var c := s.compact;
    FilledLevel(c, s.files[..c.listed], c.level);
    assert Filled(c, s.files)[..c.listed] == Filled(c, s.files[..c.listed]);
    assert Shape(Filled(c, c.sources)) == Shape(c.sources);
  }

  lemma {:induction false} FilledPassIsGood(s: State)
    requires Inv(s) && s.compact.Dropping?
    ensures DroppingInv(Filled(s.compact, s.files), FilledPass(s.compact))
  {
    var c := s.compact;
    FilledAppend(c, c.older, c.pending);
    FilledAppend(c, c.older + c.pending, [c.newMeta]);
    FilledAppend(c, c.older + c.pending + [c.newMeta], c.newer);
    assert Filled(c, [c.newMeta]) == [FilledPass(c).newMeta];
    forall k | FilesLookup(Filled(c, c.pending), k).Some? ensures Lookup(Content(c, c.newMeta), k).Some? {
      MergedHolds(s, k);
    }
  }

  lemma {:induction false} MergedHolds(s: State, k: Key)
    requires Inv(s) && s.compact.Dropping? && FilesLookup(Filled(s.compact, s.compact.pending), k).Some?
    ensures Lookup(Content(s.compact, s.compact.newMeta), k).Some?
  {
    var c := s.compact;
    var i := NewestIsMember(TablesOf(Filled(c, c.pending)), k);
    var f := c.pending[i];
    ContentHolds(c, f);
    ContentHolds(c, c.newMeta);
    var path :| k == PathKey(path);
    assert HoldsKeyOf(c, f, path);
    MergedIsNotPending(s, i);
    assert HoldsKeyOf(c, c.newMeta, path);
  }

  lemma {:induction false} MergedIsNotPending(s: State, i: nat)
    requires Inv(s) && s.compact.Dropping? && i < |s.compact.pending|
    ensures s.compact.pending[i].path != s.compact.newMeta.path
  {
    var c := s.compact;
    assert s.files[|c.older| + i] == c.pending[i] && s.files[|c.older| + |c.pending|] == c.newMeta;
  }

  lemma {:induction false} FilledIsGood(s: State)
    requires Inv(s)
    ensures Inv(FilledState(s)) && SameShape(s, FilledState(s))
  {
    var t := FilledState(s);
    forall i | 0 <= i < |t.files| ensures Sorted(t.files[i].table) {
      ContentHolds(s.compact, s.files[i]);
    }
    if s.compact.Dropping? {
      FilledPassIsGood(s);
    }
    if s.compact.Merging? {
      FilledMergeIsGood(s);
    }
  }

  // ------------------------------------------------------- names are never reused

  predicate NewName(files: seq<File>, step: Step) {
    && (step.FlushPublish? ==> FreshPath(files, step.path))
    && (step.CompactMerge? ==> FreshPath(files, step.mergedPath))
  }

  predicate NamesAreNew(files: seq<File>, steps: seq<Step>) {
    forall i :: 0 <= i < |steps| ==> NewName(files, steps[i])
  }

  /** A file with the name of a listed one is that listed one. */
  ghost predicate SameByName(listed: seq<File>, files: seq<File>) {
    forall f, g :: f in listed && g in files && f.path == g.path ==> f == g
  }

  lemma {:induction false} RemoveMembers(files: seq<File>, f: File)
    ensures forall g :: g in Remove(files, f) ==> g in files
  {
    if files != [] && files[0] != f {
      RemoveMembers(files[1..], f);
    }
  }

  lemma {:induction false} NameMeansFile(listed: seq<File>, s: State, steps: seq<Step>, n: nat)
    requires SameByName(listed, s.files) && NamesAreNew(listed, steps) && n <= |steps|
    ensures SameByName(listed, Exec(s, steps[..n]).files)
    decreases n
  {
    if n == 0 {
      assert steps[..0] == [];
    } else {
      var s' := Apply(s, steps[0]);
      if s.compact.Dropping? && s.compact.pending != [] {
        RemoveMembers(s.files, s.compact.pending[0]);
      }
      assert NewName(listed, steps[0]);
      assert SameByName(listed, s'.files);
      NameMeansFile(listed, s', steps[1..], n - 1);
      assert steps[..n][1..] == steps[1..][..n - 1];
    }
  }

  // -------------------------------------------------------------- the condition

  /** A listed file's fate is a matter of shape. */
  lemma {:induction false} PresenceIsShape(l: State, m: State, after: seq<Step>, after': seq<Step>, probes: seq<nat>, p: nat)
    requires Inv(l) && Inv(m) && SameShape(l, m) && SafeRun(l, after) && SafeRun(m, after') && SameKinds(after, after')
    requires Timed(l, after, probes) && Timed(m, after', probes) && p < |probes|
    requires NamesAreNew(m.files, after')
    requires Present(l, after, probes, p)
    ensures Present(m, after', probes, p)
  {
    var n := probes[p];
    var now, now' := Exec(l, after[..n]), Exec(m, after'[..n]);
    RunsKeepShape(l, m, after, after', n);
    ShapeOfFiles(now.files, now'.files);
    ShapeOfFiles(l.files, m.files);
    var i :| 0 <= i < |now.files| && now.files[i] == l.files[p];
    NameMeansFile(m.files, m, after', n);
    assert now'.files[i].path == m.files[p].path;
  }

  lemma {:induction false} AbsenceIsShape(l: State, m: State, after: seq<Step>, after': seq<Step>, probes: seq<nat>, p: nat)
    requires Inv(l) && Inv(m) && SameShape(l, m) && SafeRun(l, after) && SafeRun(m, after') && SameKinds(after, after')
    requires Timed(l, after, probes) && Timed(m, after', probes) && p < |probes|
    requires NamesAreNew(l.files, after)
    requires !Present(l, after, probes, p)
    ensures !Present(m, after', probes, p)
  {
    if Present(m, after', probes, p) {
      SameShapeFlips(l, m);
      PresenceIsShape(m, l, after', after, probes, p);
      assert false;
    }
  }

  lemma {:induction false} PendingIsShape(l: State, m: State, p: nat)
    requires Inv(l) && Inv(m) && SameShape(l, m) && p < |l.files| && IsPending(l, p)
    ensures IsPending(m, p)
  {
    var c, d := l.compact, m.compact;
    var q :| 0 <= q < |c.pending| && c.pending[q] == l.files[p];
    ShapeOfFiles(c.older, d.older);
    ShapeOfFiles(c.pending, d.pending);
    assert l.files[|c.older| + q] == l.files[p];
    assert p == |c.older| + q;
    assert m.files[p] == d.pending[q];
  }

  lemma {:induction false} KeptIsShape(l: State, m: State, after: seq<Step>, after': seq<Step>, probes: seq<nat>)
    requires Inv(l) && Inv(m) && SameShape(l, m) && SafeRun(l, after) && SafeRun(m, after') && SameKinds(after, after')
    requires Timed(l, after, probes) && Timed(m, after', probes) && NamesAreNew(m.files, after')
    requires Kept(l, after, probes)
    ensures Kept(m, after', probes)
  {
    forall p: nat | p < |probes| ensures Present(m, after', probes, p) || IsPending(m, p) {
      if Present(l, after, probes, p) {
        PresenceIsShape(l, m, after, after', probes, p);
      } else {
        PendingIsShape(l, m, p);
      }
    }
  }

  /** One run of the given shape: any start, any steps before the listing, any contents. */
  ghost predicate Instance(l: State, after: seq<Step>, s: State, before: seq<Step>, i: nat, after': seq<Step>) {
    && Inv(s) && SafeRun(s, before) && i <= |before|
    && SameShape(l, Exec(s, before)) && SameKinds(after, after') && SafeRun(Exec(s, before), after')
    && NamesAreNew(Exec(s, before).files, after')
  }

  /** Its Get for k returns what an atomic read would have returned at some moment. */
  ghost predicate Right(s: State, before: seq<Step>, i: nat, after: seq<Step>, probes: seq<nat>, k: Key) {
    && i <= |before| && Timed(Exec(s, before), after, probes)
    && Seen(s, before + after, k, ConcurrentFind(s, before, i, after, probes, k))
  }

  ghost predicate AlwaysRight(l: State, after: seq<Step>, probes: seq<nat>) {
    forall s, before, i, after', k :: Instance(l, after, s, before, i, after') ==> Right(s, before, i, after', probes, k)
  }

  /** Nobody but file p, and the merged file if p waits to be dropped, holds p's key. */
  lemma {:induction false} OnlyOneHolds(l: State, p: nat, q: nat)
    requires Inv(l) && p < |l.files| && q < |l.files| && p != q && !IsPending(l, p)
    ensures Lookup(FilledState(l).files[q].table, PathKey(l.files[p].path)) == None
  {
    var c := l.compact;
    ContentHolds(c, l.files[q]);
    assert l.files[q].path != l.files[p].path;
    if c.Dropping? {
      PendingHasOtherNames(l, p);
    }
  }

  lemma {:induction false} PendingHasOtherNames(l: State, p: nat)
    requires Inv(l) && l.compact.Dropping? && p < |l.files| && !IsPending(l, p)
    ensures forall i :: 0 <= i < |l.compact.pending| ==> l.compact.pending[i].path != l.files[p].path
  {
    var c := l.compact;
    forall i | 0 <= i < |c.pending| ensures c.pending[i].path != l.files[p].path {
      assert c.pending[i] in c.pending;
      assert l.files[|c.older| + i] == c.pending[i];
    }
  }

  lemma {:induction false} ProbesMiss(t: State, after: seq<Step>, probes: seq<nat>, n: nat, p: nat, k: Key)
    requires Timed(t, after, probes) && n <= |probes| && p < |probes| && !Present(t, after, probes, p)
    requires forall q :: 0 <= q < |t.files| && q != p ==> Lookup(t.files[q].table, k) == None
    ensures ProbeFiles(t, after, probes, n, k) == None
  {
    if n > 0 {
      ProbesMiss(t, after, probes, n - 1, p, k);
    }
  }

  /** A read stays as it is while its key is not written. */
  lemma {:induction false} OthersStay(t: State, steps: seq<Step>, n: nat, k: Key)
    requires Inv(t) && SafeRun(t, steps) && n <= |steps|
    requires forall i :: 0 <= i < |steps| ==> steps[i].Write? ==> steps[i].key != k
    ensures Find(Exec(t, steps[..n]), k) == Find(t, k)
    decreases n
  {
    if n == 0 {
      assert steps[..0] == [];
    } else {
      StepIsInvisible(t, steps[0], k);
      StepKeepsInv(t, steps[0]);
      OthersStay(Apply(t, steps[0]), steps[1..], n - 1, k);
      assert steps[..n][1..] == steps[1..][..n - 1];
    }
  }

  /** If a listed file goes before it is opened, and its merged file is not listed, then with some
      contents Get misses a key that is live throughout. */
  lemma {:induction false} DroppedFileIsMissed(l: State, after: seq<Step>, probes: seq<nat>, p: nat)
    returns (t: State, after': seq<Step>, k: Key)
    requires Inv(l) && SafeRun(l, after) && NamesAreNew(l.files, after) && Timed(l, after, probes)
    requires p < |probes| && !Present(l, after, probes, p) && !IsPending(l, p)
    ensures Instance(l, after, t, [], 0, after') && Timed(t, after', probes)
    ensures ConcurrentFind(t, [], 0, after', probes, k) == None
    ensures forall n :: 0 <= n <= |after'| ==> Find(Exec(t, after'[..n]), k) == Some(LIVE)
  {
    t, k := FilledState(l), PathKey(l.files[p].path);
    FilledIsGood(l);
    after' := MimicRun(l, t, after);
    ShapeDecidesNames(l, t, after, after');
    AbsenceIsShape(l, t, after, after', probes, p);
    OnlyHolder(l, p);
    ProbesMiss(t, after', probes, |probes|, p, k);
    FoundAt(t.files, p, k);
    StaysLive(t, after', k, LIVE);
  }

  /** In the filled state file p alone holds its key. */
  lemma {:induction false} OnlyHolder(l: State, p: nat)
    requires Inv(l) && p < |l.files| && !IsPending(l, p)
    ensures var t, k := FilledState(l), PathKey(l.files[p].path);
            && Lookup(t.files[p].table, k) == Some(LIVE)
            && (forall q :: 0 <= q < |t.files| && q != p ==> Lookup(t.files[q].table, k) == None)
  {
    ContentHolds(l.compact, l.files[p]);
    assert HoldsKeyOf(l.compact, l.files[p], l.files[p].path);
    forall q | 0 <= q < |l.files| && q != p ensures Lookup(FilledState(l).files[q].table, PathKey(l.files[p].path)) == None {
      OnlyOneHolds(l, p, q);
    }
  }

  lemma {:induction false} FoundAt(files: seq<File>, p: nat, k: Key)
    requires p < |files| && Lookup(files[p].table, k).Some?
    requires forall q :: 0 <= q < |files| && q != p ==> Lookup(files[q].table, k) == None
    ensures FilesLookup(files, k) == Lookup(files[p].table, k)
  {
    NewestIs(TablesOf(files), k, p);
  }

  lemma {:induction false} SameShapeFlips(s: State, t: State)
    requires SameShape(s, t)
    ensures SameShape(t, s)
  {
  }

  lemma {:induction false} ShapeDecidesNames(l: State, m: State, after: seq<Step>, after': seq<Step>)
    requires SameShape(l, m) && SameKinds(after, after') && NamesAreNew(l.files, after)
    ensures NamesAreNew(m.files, after')
  {
    ShapeOfFiles(l.files, m.files);
    forall i | 0 <= i < |after'| ensures NewName(m.files, after'[i]) {
      assert Kind(after[i]) == Kind(after'[i]) && NewName(l.files, after[i]);
    }
  }

  /** Whatever the files hold, Get is linearizable if and only if every listed file is kept until it
      is opened, or was already waiting to be dropped at the listing. */
  lemma {:induction false} GetIsLinearizableIffFilesAreKept(l: State, after: seq<Step>, probes: seq<nat>)
    requires Inv(l) && SafeRun(l, after) && NamesAreNew(l.files, after) && Timed(l, after, probes)
    ensures Kept(l, after, probes) <==> AlwaysRight(l, after, probes)
  {
    if Kept(l, after, probes) {
      forall s, before, i, after', k | Instance(l, after, s, before, i, after')
        ensures Right(s, before, i, after', probes, k)
      {
        var m := Exec(s, before);
        ReadsSeeTheLastWrite(s, before, k);
        ShapeOfFiles(l.files, m.files);
        KeptIsShape(l, m, after, after', probes);
        KeptGetIsLinearizable(s, before, i, after', probes, k);
      }
    } else {
      var p: nat :| p < |probes| && !Present(l, after, probes, p) && !IsPending(l, p);
      var t, after', k := DroppedFileIsMissed(l, after, probes, p);
      MissIsNotSeen(t, after', probes, k);
      assert !Right(t, [], 0, after', probes, k);
    }
  }

  lemma {:induction false} MissIsNotSeen(t: State, after: seq<Step>, probes: seq<nat>, k: Key)
    requires Timed(t, after, probes) && ConcurrentFind(t, [], 0, after, probes, k) == None
    requires forall n :: 0 <= n <= |after| ==> Find(Exec(t, after[..n]), k) == Some(LIVE)
    ensures !Right(t, [], 0, after, probes, k)
  {
    assert [] + after == after;
  }

  // ------------------------------------------------------------ a failing Get

  /** From the empty engine: a key is written and flushed, a pass begins, Get lists its one file, the
      pass merges and deletes that file, and Get opens it too late. It finds nothing, though the key
      is live at every moment. */
  lemma {:induction false} GetMissesALiveKey(k: Key, v: Bytes)
    returns (before: seq<Step>, l: State, after: seq<Step>, probes: seq<nat>)
    ensures SafeRun(Init(1), before + after) && l == Exec(Init(1), before) && Timed(l, after, probes)
    ensures ConcurrentFind(l, [], 0, after, probes, k) == None
    ensures forall n :: 0 <= n <= |after| ==> Find(Exec(l, after[..n]), k) == Some(Some(v))
  {
    before, l := UpToListing(k, v);
    after, probes := DropBeforeProbe(l, File(0, 0, [Entry(k, Some(v))]), k);
    GoesOn(Init(1), before, l, after, Exec(l, after), k, Some(Some(v)), None);
    InitInv(1);
    OrderlyRunsAreSafe(Init(1), before + after);
    RunMore(Init(1), before, after);
    ReadsSeeTheLastWrite(Init(1), before, k);
    StaysLive(l, after, k, Some(v));
  }

  lemma {:induction false} StaysLive(l: State, after: seq<Step>, k: Key, v: Value)
    requires Inv(l) && SafeRun(l, after) && Find(l, k) == Some(v)
    requires forall i :: 0 <= i < |after| ==> after[i].Write? ==> after[i].key != k
    ensures forall n :: 0 <= n <= |after| ==> Find(Exec(l, after[..n]), k) == Some(v)
  {
    forall n | 0 <= n <= |after| ensures Find(Exec(l, after[..n]), k) == Some(v) {
      OthersStay(l, after, n, k);
    }
  }

  lemma {:induction false} UpToListing(k: Key, v: Bytes) returns (before: seq<Step>, l: State)
    ensures Goes(Init(1), before, l, k, Some(Some(v))) && PublishesBetweenPasses(Init(1), before) && NoMergeFails(before)
    ensures l == Init(1).(files := [File(0, 0, [Entry(k, Some(v))])], compact := AtLevel(0))
  {
    var s0, s1 := Init(1), WithFile(Init(1), File(0, 0, [Entry(k, Some(v))]));
    var write := WriteAndFlush(s0, k, Some(v), 0);
    l := Apply(s1, CompactBegin);
    GoesOneStep(s1, CompactBegin, k);
    GoesOn(s0, write, s1, [CompactBegin], l, k, Some(Some(v)), None);
    before := write + [CompactBegin];
  }

  lemma {:induction false} DropBeforeProbe(l: State, f: File, k: Key) returns (after: seq<Step>, probes: seq<nat>)
    requires l.compact == AtLevel(0) && l.files == [f] && f.level == 0 && f.path == 0 && Sorted(f.table) && l.maxCompaction == 1
    ensures Timed(l, after, probes) && ProbeFiles(l, after, probes, |probes|, k) == None
    ensures Goes(l, after, Exec(l, after), k, None) && PublishesBetweenPasses(l, after) && NoMergeFails(after)
    ensures forall i :: 0 <= i < |after| ==> !after[i].Write?
  {
    var merge := CompactMerge(1, f.table);
    assert l.files == [] + [f] + [];
    MergeOneFileSteps(l, [], f, [], 1);
    var l1 := Apply(l, CompactList);
    var l2, l3 := Apply(l1, merge), Apply(Apply(l1, merge), CompactDrop);
    GoesOneStep(l, CompactList, k);
    GoesOneStep(l1, merge, k);
    GoesOneStep(l2, CompactDrop, k);
    GoesOn(l, [CompactList], l1, [merge], l2, k, None, None);
    GoesOn(l, [CompactList] + [merge], l2, [CompactDrop], l3, k, None, None);
    after, probes := [CompactList] + [merge] + [CompactDrop], [3];
    assert after[..3] == after;
    assert f !in l3.files;
    assert !Present(l, after, probes, 0);
    assert ProbeFiles(l, after, probes, 0, k) == None;
  }
}
