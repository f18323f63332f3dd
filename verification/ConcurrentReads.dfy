/** Get is not one step: it snapshots the two memtable pointers, searches them without a lock, then
    lists the files, and then opens them one by one. Writes, flush phases and compaction steps happen
    in between, and compaction may delete a file that has been listed and not been opened yet. */
module ConcurrentReads {
  import opened ByteStrings
  import opened Entries
  import opened Merge
  import opened Lsm
  import opened RangeScan
  import opened Compaction

  /** The contents, after the steps, of the table object that was active before them: it stops
      changing when a flush swaps it out. */
  function Captured(s: State, steps: seq<Step>): Table
    decreases |steps|
  {
    if steps == [] || (steps[0].FlushBegin? && s.dirty == None) then s.active
    else Captured(Apply(s, steps[0]), steps[1..])
  }

  /** Each listed file has its moment, counted in steps after the listing; the newest is opened first. */
  predicate Timed(l: State, after: seq<Step>, probes: seq<nat>) {
    && |probes| == |l.files| && (forall p :: 0 <= p < |probes| ==> probes[p] <= |after|)
    && (forall p, q :: 0 <= p < q < |probes| ==> probes[q] <= probes[p])
  }

  /** Listed file p is still there when it is opened. */
  predicate Present(l: State, after: seq<Step>, probes: seq<nat>, p: nat)
    requires Timed(l, after, probes) && p < |probes|
  {
    l.files[p] in Exec(l, after[..probes[p]]).files
  }

  /** getFromSSTables over the first n listed files, newest first; a file that is gone holds nothing. */
  function ProbeFiles(l: State, after: seq<Step>, probes: seq<nat>, n: nat, k: Key): Option<Value>
    requires Timed(l, after, probes) && n <= |probes|
  {
    if n == 0 then None
    else if Present(l, after, probes, n - 1) && Lookup(l.files[n - 1].table, k).Some? then Lookup(l.files[n - 1].table, k)
    else ProbeFiles(l, after, probes, n - 1, k)
  }

  /** A Get that snapshots at s, searches the active table it captured after i of the steps before the
      listing, lists the files after all of those, and opens them during the steps after it. The
      captured dirty table is immutable. */
  function ConcurrentFind(s: State, before: seq<Step>, i: nat, after: seq<Step>, probes: seq<nat>, k: Key): Option<Value>
    requires i <= |before| && Timed(Exec(s, before), after, probes)
  {
    var a := Lookup(Captured(s, before[..i]), k);
    if a.Some? then a
    else if s.dirty.Some? && Lookup(s.dirty.value, k).Some? then Lookup(s.dirty.value, k)
    else ProbeFiles(Exec(s, before), after, probes, |probes|, k)
  }

  ghost predicate SafeRun(s: State, steps: seq<Step>) {
    Runs(s, steps) && MergesAreSafe(s, steps)
  }

  /** At some moment of the run, an atomic read would have answered r. */
  ghost predicate Seen(s: State, steps: seq<Step>, k: Key, r: Option<Value>) {
    exists t: nat :: t <= |steps| && Find(Exec(s, steps[..t]), k) == r
  }

  lemma {:induction false} ExecPrefix(s: State, steps: seq<Step>, n: nat)
    requires n < |steps| && Inv(s) && SafeRun(s, steps)
    ensures var now := Exec(s, steps[..n]); Inv(now) && Enabled(now, steps[n]) && Safe(now, steps[n])
    ensures Exec(s, steps[..n + 1]) == Apply(Exec(s, steps[..n]), steps[n])
    decreases |steps|
  {
    StepKeepsInv(s, steps[0]);
    assert steps[..n + 1][1..] == steps[1..][..n];
    if n > 0 {
      assert steps[..n][1..] == steps[1..][..n - 1];
      ExecPrefix(Apply(s, steps[0]), steps[1..], n - 1);
    }
  }

  lemma {:induction false} SeenGrows(s: State, steps: seq<Step>, n: nat, m: nat, k: Key, r: Option<Value>)
    requires n <= m <= |steps| && Seen(s, steps[..n], k, r)
    ensures Seen(s, steps[..m], k, r)
  {
    var t: nat :| t <= n && Find(Exec(s, steps[..n][..t]), k) == r;
    assert steps[..n][..t] == steps[..m][..t];
  }

  lemma {:induction false} NowIsSeen(s: State, steps: seq<Step>, k: Key)
    ensures Seen(s, steps, k, Find(Exec(s, steps), k))
  {
    assert steps[..|steps|] == steps;
  }

  /** What the files, and the table being flushed, say about k has been a right answer. */
  ghost predicate StaleIsSeen(s: State, steps: seq<Step>, k: Key) {
    var now := Exec(s, steps);
    && Seen(s, steps, k, FilesLookup(now.files, k))
    && (now.dirty.Some? && Lookup(now.dirty.value, k).Some? ==> Seen(s, steps, k, Lookup(now.dirty.value, k)))
  }

  lemma {:induction false} FilesAfterStep(s: State, step: Step, k: Key)
    requires Inv(s) && Enabled(s, step) && Safe(s, step)
    ensures FilesLookup(Apply(s, step).files, k) ==
            if step.FlushPublish? && Lookup(s.dirty.value, k).Some? then Lookup(s.dirty.value, k)
            else FilesLookup(s.files, k)
  {
    match step
    case FlushPublish(path) => PublishStep(s, path, k);
    case CompactMerge(path, merged) => MergeStep(s, path, merged);
    case CompactDrop => DropStep(s);
    case _ =>
  }

  /** Either the answer was seen before the step, or it is the answer just before a swap. */
  lemma {:induction false} StaleStaysSeen(s: State, steps: seq<Step>, n: nat, k: Key)
    requires n < |steps| && Inv(s) && SafeRun(s, steps) && StaleIsSeen(s, steps[..n], k)
    ensures StaleIsSeen(s, steps[..n + 1], k)
  {
    ExecPrefix(s, steps, n);
    var now := Exec(s, steps[..n]);
    FilesAfterStep(now, steps[n], k);
    var files' := FilesLookup(Apply(now, steps[n]).files, k);
    SeenGrows(s, steps, n, n + 1, k, files');
    NowIsSeen(s, steps[..n], k);
    var dirty' := Apply(now, steps[n]).dirty;
    if dirty'.Some? && Lookup(dirty'.value, k).Some? {
      assert Seen(s, steps[..n], k, Lookup(dirty'.value, k));
      SeenGrows(s, steps, n, n + 1, k, Lookup(dirty'.value, k));
    }
  }

  lemma {:induction false} StaleIsAlwaysSeen(s: State, steps: seq<Step>, n: nat, k: Key)
    requires n <= |steps| && Inv(s) && SafeRun(s, steps)
    requires Lookup(s.active, k) == None && (s.dirty.Some? ==> Lookup(s.dirty.value, k) == None)
    ensures StaleIsSeen(s, steps[..n], k)
  {
    if n == 0 {
      assert steps[..0] == [];
      NowIsSeen(s, [], k);
    } else {
      StaleIsAlwaysSeen(s, steps, n - 1, k);
      StaleStaysSeen(s, steps, n - 1, k);
    }
  }

  /** A captured table only gains keys, and what it says was right when it was still active. */
  lemma {:induction false} CapturedIsSeen(s: State, steps: seq<Step>, k: Key)
    requires Inv(s) && SafeRun(s, steps)
    ensures Lookup(Captured(s, steps), k).Some? ==> Seen(s, steps, k, Lookup(Captured(s, steps), k))
    ensures Lookup(Captured(s, steps), k) == None ==> Lookup(s.active, k) == None
    decreases |steps|
  {
    var r := Lookup(Captured(s, steps), k);
    if steps == [] || (steps[0].FlushBegin? && s.dirty == None) {
      if r.Some? {
        assert Find(Exec(s, steps[..0]), k) == r;
      }
    } else {
      var s' := Apply(s, steps[0]);
      StepKeepsInv(s, steps[0]);
      CapturedIsSeen(s', steps[1..], k);
      if steps[0].Write? {
        LookupAfterInsert(s.active, steps[0].key, steps[0].value, k);
      }
      if r.Some? {
        var t: nat :| t <= |steps[1..]| && Find(Exec(s', steps[1..][..t]), k) == r;
        assert steps[..t + 1][1..] == steps[1..][..t];
        assert Find(Exec(s, steps[..t + 1]), k) == r;
      }
    }
  }

  lemma {:induction false} RunsPrefix(s: State, steps: seq<Step>, i: nat)
    requires i <= |steps| && SafeRun(s, steps)
    ensures SafeRun(s, steps[..i]) && SafeRun(Exec(s, steps[..i]), steps[i..]) && Exec(s, steps) == Exec(Exec(s, steps[..i]), steps[i..])
  {
    assert steps == steps[..i] + steps[i..];
    RunMore(s, steps[..i], steps[i..]);
  }

  // ------------------------------------------- the condition, and why it is enough

  /** Every listed file is still there when it is opened, or was already waiting to be dropped at the
      listing, so that the merged file is listed with it. */
  predicate Kept(l: State, after: seq<Step>, probes: seq<nat>)
    requires Timed(l, after, probes)
  {
    forall p: nat :: p < |probes| ==> Present(l, after, probes, p) || IsPending(l, p)
  }

  predicate IsPending(l: State, p: nat)
    requires p < |l.files|
  {
    l.compact.Dropping? && l.files[p] in l.compact.pending
  }

  lemma {:induction false} NewestHas(files: seq<File>, f: File, k: Key)
    requires f in files && Lookup(f.table, k).Some?
    ensures FilesLookup(files, k).Some?
  {
    var i :| 0 <= i < |files| && files[i] == f;
    assert files == files[..i] + [f] + files[i + 1..];
    FilesAppend(files[..i] + [f], files[i + 1..], k);
    FilesAppend(files[..i], [f], k);
    OneFile(f, k);
  }

  /** Above a file waiting to be dropped the merged file answers. */
  lemma {:induction false} PendingIsCovered(l: State, p: nat, k: Key)
    requires Inv(l) && p < |l.files| && IsPending(l, p) && Lookup(l.files[p].table, k).Some?
    ensures FilesLookup(l.files[p + 1..], k).Some?
  {
    var c := l.compact;
    NewestHas(c.pending, l.files[p], k);
    var at := |c.older| + |c.pending|;
    assert l.files[at] == c.newMeta;
    var q :| 0 <= q < |c.pending| && c.pending[q] == l.files[p];
    assert l.files[|c.older| + q] == c.pending[q];
    assert p == |c.older| + q;
    assert l.files[p + 1..][at - p - 1] == c.newMeta;
    NewestHas(l.files[p + 1..], c.newMeta, k);
  }

  lemma {:induction false} KeptAnswers(l: State, after: seq<Step>, probes: seq<nat>, n: nat, k: Key)
    requires Inv(l) && Timed(l, after, probes) && Kept(l, after, probes) && n <= |probes|
    requires FilesLookup(l.files[n..], k) == None
    ensures ProbeFiles(l, after, probes, n, k) == FilesLookup(l.files[..n], k)
  {
    if n == 0 {
      assert TablesOf(l.files[..0]) == [];
    } else {
      var f := l.files[n - 1];
      assert l.files[..n] == l.files[..n - 1] + [f] && l.files[n - 1..] == [f] + l.files[n..];
      FilesAppend(l.files[..n - 1], [f], k);
      FilesAppend([f], l.files[n..], k);
      OneFile(f, k);
      if Lookup(f.table, k) == None {
        KeptAnswers(l, after, probes, n - 1, k);
      } else if IsPending(l, n - 1) {
        PendingIsCovered(l, n - 1, k);
      }
    }
  }

  /** Get is linearizable when the listed files are kept: it returns what an atomic read would have
      returned at some moment between its start and its end. */
  lemma {:induction false} KeptGetIsLinearizable(s: State, before: seq<Step>, i: nat, after: seq<Step>, probes: seq<nat>, k: Key)
    requires Inv(s) && SafeRun(s, before) && i <= |before| && SafeRun(Exec(s, before), after)
    requires Timed(Exec(s, before), after, probes) && Kept(Exec(s, before), after, probes)
    ensures Seen(s, before + after, k, ConcurrentFind(s, before, i, after, probes, k))
  {
    var all := before + after;
    RunMore(s, before, after);
    RunsPrefix(s, before, i);
    CapturedIsSeen(s, before[..i], k);
    assert all[..i] == before[..i] && all[..|before|] == before && all[..|all|] == all;
    var a := Lookup(Captured(s, before[..i]), k);
    if a.Some? {
      SeenGrows(s, all, i, |all|, k, a);
    } else if s.dirty.Some? && Lookup(s.dirty.value, k).Some? {
      assert Find(Exec(s, all[..0]), k) == Lookup(s.dirty.value, k);
    } else {
      StaleIsAlwaysSeen(s, before, |before|, k);
      assert before[..|before|] == before;
      var l := Exec(s, before);
      ReadsSeeTheLastWrite(s, before, k);
      assert l.files[|probes|..] == [] && l.files[..|probes|] == l.files;
      assert TablesOf(l.files[|probes|..]) == [];
      KeptAnswers(l, after, probes, |probes|, k);
      SeenGrows(s, all, |before|, |all|, k, FilesLookup(l.files, k));
    }
  }
}
