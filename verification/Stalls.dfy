/** When the back-pressure of MemTable can leave a writer blocked for good: the exact configurations,
    without failed flushes and with them. */
module Stalls {
  import opened ByteStrings
  import opened Entries
  import opened ShortestKeys
  import opened Backpressure

  /** Some writer is blocked, and nothing happens until a writer that is not comes back with a new
      request. */
  ghost predicate Stalled(s: State) {
    && (exists w: nat :: w < |s.writers| && IsBlocked(s, w))
    && (forall step :: Enabled(s, step) ==> step.Request?)
  }

  predicate IsBlocked(s: State, w: nat)
    requires w < |s.writers|
  {
    s.writers[w].Waiting? && !Fits(s, Full(s.writers[w].key, s.writers[w].value))
  }

  ghost predicate CanStall(writers: nat, budget: int, maxSize: int) {
    exists steps :: Runs(Init(writers, budget, maxSize), steps) && Stalled(Exec(Init(writers, budget, maxSize), steps))
  }

  ghost predicate CanStallWithoutFailure(writers: nat, budget: int, maxSize: int) {
    exists steps :: Runs(Init(writers, budget, maxSize), steps) && NoFailure(steps) &&
      Stalled(Exec(Init(writers, budget, maxSize), steps))
  }

  predicate AtMostOneFailure(steps: seq<Step>) {
    forall i, j :: 0 <= i < j < |steps| ==> !steps[i].FlushFail? || !steps[j].FlushFail?
  }

  ghost predicate CanStallAfterOneFailure(writers: nat, budget: int, maxSize: int) {
    exists steps :: Runs(Init(writers, budget, maxSize), steps) && AtMostOneFailure(steps) &&
      Stalled(Exec(Init(writers, budget, maxSize), steps))
  }

  lemma {:induction false} StallIsQuiet(s: State)
    requires Inv(s) && Stalled(s)
    ensures s.flusher.Resting? && !s.signal && HeldByAll(s.writers) == 0
  {
    assert Enabled(s, FlushTake) <==> s.flusher.Resting? && s.signal;
    assert Enabled(s, FlushOk) <==> s.flusher.Writing?;
    assert Enabled(s, FlushRelease) <==> s.flusher.Releasing?;
    forall i: nat | i < |s.writers| ensures s.writers[i].Ready? || s.writers[i].Waiting? {
      assert Enabled(s, InsertEntry(i)) <==> s.writers[i].Reserved?;
      assert Enabled(s, Refund(i)) <==> s.writers[i].Refunding?;
    }
    IdleHoldsNothing(s.writers);
  }

  lemma {:induction false} StepKeepsConfig(s: State, step: Step)
    requires Enabled(s, step)
    ensures var s' := Apply(s, step); s'.budget == s.budget && s'.maxSize == s.maxSize && |s'.writers| == |s.writers|
  {
  }

  lemma {:induction false} InitIsGood(writers: nat, budget: int, maxSize: int)
    ensures Inv(Init(writers, budget, maxSize))
  {
    IdleHoldsNothing(Init(writers, budget, maxSize).writers);
  }

  // ---------------------------------------------------- without failed flushes

  /** With no room for even one entry, whatever is in active has a flush signalled. */
  ghost predicate Eager(s: State) {
    Inv(s) && s.maxSize <= 0 && (s.active != [] ==> s.signal) && (s.flusher.Resting? ==> s.dirty == None)
  }

  lemma {:induction false} StaysEager(s: State, step: Step)
    requires Eager(s) && Enabled(s, step) && !step.FlushFail?
    ensures Eager(Apply(s, step))
  {
    StepConserves(s, step);
  }

  lemma {:induction false} EagerRuns(s: State, steps: seq<Step>)
    requires Eager(s) && Runs(s, steps) && NoFailure(steps)
    ensures !Stalled(Exec(s, steps))
    decreases |steps|
  {
    if steps != [] {
      StaysEager(s, steps[0]);
      EagerRuns(Apply(s, steps[0]), steps[1..]);
    } else if Stalled(s) {
      StallIsQuiet(s);
      assert false;
    }
  }

  lemma {:induction false} RunKeepsConfig(s: State, steps: seq<Step>)
    requires Inv(s) && Runs(s, steps)
    ensures var s' := Exec(s, steps); Inv(s') && s'.budget == s.budget && s'.maxSize == s.maxSize && |s'.writers| == |s.writers|
    decreases |steps|
  {
    if steps != [] {
      StepConserves(s, steps[0]);
      StepKeepsConfig(s, steps[0]);
      RunKeepsConfig(Apply(s, steps[0]), steps[1..]);
    }
  }

  /** A stall needs a budget and a writer. */
  lemma {:induction false} StallNeedsBudget(writers: nat, budget: int, maxSize: int, steps: seq<Step>)
    requires Runs(Init(writers, budget, maxSize), steps) && Stalled(Exec(Init(writers, budget, maxSize), steps))
    ensures budget > 0 && writers >= 1
  {
    InitIsGood(writers, budget, maxSize);
    RunKeepsConfig(Init(writers, budget, maxSize), steps);
  }

  lemma {:induction false} OneWriterNeverStalls(budget: int, maxSize: int, steps: seq<Step>)
    requires Runs(Init(1, budget, maxSize), steps) && NoFailure(steps)
    ensures !Stalled(Exec(Init(1, budget, maxSize), steps))
  {
    SingleWriterNeverStuck(budget, maxSize, steps);
    var s := Exec(Init(1, budget, maxSize), steps);
    if Stalled(s) {
      StalledIsBlocked(s);
      assert false;
    }
  }

  lemma {:induction false} StalledIsBlocked(s: State)
    requires |s.writers| == 1 && Stalled(s)
    ensures Blocked(s)
  {
  }

  // ------------------------------------------------------------ building runs

  /** The run goes from s to s'. */
  ghost predicate Goes(s: State, steps: seq<Step>, s': State) {
    Runs(s, steps) && Exec(s, steps) == s'
  }

  lemma {:induction false} GoesOn(s: State, a: seq<Step>, s': State, b: seq<Step>, s'': State)
    requires Goes(s, a, s') && Goes(s', b, s'')
    ensures Goes(s, a + b, s'')
    decreases |a|
  {
    if a == [] {
      assert a + b == b;
    } else {
      assert (a + b)[1..] == a[1..] + b;
      GoesOn(Apply(s, a[0]), a[1..], s', b, s'');
    }
  }

  lemma {:induction false} GoesOne(s: State, step: Step)
    requires Enabled(s, step)
    ensures Goes(s, [step], Apply(s, step))
  {
    var run := [step];
    assert run[1..] == [];
    assert Runs(Apply(s, step), run[1..]) && Exec(Apply(s, step), run[1..]) == Apply(s, step);
    assert Runs(s, run);
  }

  lemma {:induction false} GoesOneMore(s: State, a: seq<Step>, s': State, step: Step)
    requires Goes(s, a, s') && Enabled(s', step)
    ensures Goes(s, a + [step], Apply(s', step))
  {
    GoesOne(s', step);
    GoesOn(s, a, s', [step], Apply(s', step));
  }

  /** A key of the given length. */
  function KeyOf(n: nat): (k: Key)
    ensures |k| == n
  {
    seq(n, _ => 0)
  }

  /** Writer 0 stands at w, all others are ready. */
  predicate Solo(s: State, w: Writer) {
    s.writers != [] && s.writers[0] == w && forall i :: 1 <= i < |s.writers| ==> s.writers[i].Ready?
  }

  lemma {:induction false} SoloStalls(s: State, k: Key)
    requires Solo(s, Waiting(k, None)) && !Fits(s, |k|) && s.flusher.Resting? && !s.signal
    ensures Stalled(s)
  {
    assert IsBlocked(s, 0);
  }

  /** With two writers the signal can be spent while active is still empty. */
  lemma {:induction false} TwoWritersCanStall(writers: nat, budget: int, maxSize: int)
    requires writers >= 2 && budget > 0 && maxSize >= 1
    ensures CanStallWithoutFailure(writers, budget, maxSize)
  {
    var k := KeyOf(budget);
    var s0 := Init(writers, budget, maxSize);
    var s1 := Apply(s0, Request(0, k, None));
    var s2 := Apply(s1, Request(1, k, None));
    var s3 := Apply(s2, FlushTake);
    var s4 := Apply(s3, InsertEntry(0));
    assert Goes(s0, [], s0);
    GoesOneMore(s0, [], s0, Request(0, k, None));
    var a := [] + [Request(0, k, None)];
    GoesOneMore(s0, a, s1, Request(1, k, None));
    GoesOneMore(s0, a + [Request(1, k, None)], s2, FlushTake);
    GoesOneMore(s0, a + [Request(1, k, None)] + [FlushTake], s3, InsertEntry(0));
    assert s4.writers[1] == Waiting(k, None);
    assert IsBlocked(s4, 1);
    assert Stalled(s4);
    assert NoFailure(a + [Request(1, k, None)] + [FlushTake] + [InsertEntry(0)]);
  }

  /** Without failed flushes a writer can be left blocked exactly when there are two writers or more,
      a budget, and room for an entry before a flush is signalled. */
  lemma {:induction false} StallsWithoutFailureIff(writers: nat, budget: int, maxSize: int)
    ensures CanStallWithoutFailure(writers, budget, maxSize) <==> writers >= 2 && budget > 0 && maxSize >= 1
  {
    var s0 := Init(writers, budget, maxSize);
    if writers >= 2 && budget > 0 && maxSize >= 1 {
      TwoWritersCanStall(writers, budget, maxSize);
    } else {
      forall steps | Runs(s0, steps) && NoFailure(steps) ensures !Stalled(Exec(s0, steps)) {
        if Stalled(Exec(s0, steps)) {
          StallNeedsBudget(writers, budget, maxSize, steps);
          if writers == 1 {
            OneWriterNeverStalls(budget, maxSize, steps);
          } else {
            InitIsGood(writers, budget, maxSize);
            EagerRuns(s0, steps);
          }
        }
      }
    }
  }

  // ------------------------------------------------------- with failed flushes

  /** The budget has room for more records than maxSize: for the shortest keys there are. */
  predicate RoomForMore(budget: int, maxSize: int) {
    LeastBytes(Max(0, maxSize) + 1) <= budget
  }

  lemma {:induction false} RoomIsATable(budget: int, maxSize: int)
    ensures RoomForMore(budget, maxSize) <==>
            exists t: Table :: Sorted(t) && t != [] && |t| > maxSize && TotalBytes(t) <= budget
  {
    var n: nat := Max(0, maxSize) + 1;
    ShortestAttains(n);
    if t: Table :| Sorted(t) && t != [] && |t| > maxSize && TotalBytes(t) <= budget {
      TableTakesLeast(t[..n]);
      PrefixBytes(t, n);
    }
    if RoomForMore(budget, maxSize) {
      assert Shortest(n) != [] && |Shortest(n)| > maxSize;
    }
  }

  /** Only the empty key takes no byte. */
  lemma {:induction false} EntriesTakeBytes(t: Table)
    requires Sorted(t)
    ensures |t| <= TotalBytes(t) + 1
    ensures t != [] && t[0].key != [] ==> |t| <= TotalBytes(t)
  {
    if t != [] {
      assert |t| > 1 ==> Less(t[0].key, t[1].key);
      EntriesTakeBytes(t[1..]);
    }
  }

  lemma {:induction false} InsertAddsAtMostOne(t: Table, k: Key, v: Value)
    ensures |Insert(t, k, v)| <= |t| + 1
  {
    if t != [] && Less(t[0].key, k) {
      InsertAddsAtMostOne(t[1..], k, v);
    }
  }

  /** One writer and no room for more records than maxSize: a flush is signalled only for a blocked
      writer, or to retry, and nothing is written until it is done. */
  ghost predicate Calm(s: State) {
    && Inv(s) && |s.writers| == 1 && Sorted(s.active) && s.budget > 0 && s.maxSize >= 2
    && |s.active| <= s.maxSize
    && (s.writers[0].Reserved? ==> s.used <= s.budget || TotalBytes(s.active) == 0)
    && (Blocked(s) ==> s.signal || !s.flusher.Resting?)
    && (Stirred(s) ==> Blocked(s) && (s.signal <==> s.flusher.Resting?))
    && (s.dirty.Some? || !s.flusher.Resting? ==> s.active == [])
  }

  predicate Stirred(s: State) {
    s.signal || !s.flusher.Resting? || s.dirty.Some?
  }

  ghost predicate NoRoom(s: State) {
    forall t: Table :: Sorted(t) && TotalBytes(t) <= s.budget ==> |t| <= s.maxSize
  }

  lemma {:induction false} InsertStaysCalm(s: State)
    requires Calm(s) && NoRoom(s) && Enabled(s, InsertEntry(0))
    ensures Calm(Apply(s, InsertEntry(0)))
  {
    var k, v := s.writers[0].key, s.writers[0].value;
    StepConserves(s, InsertEntry(0));
    InsertKeepsSorted(s.active, k, v);
    TotalBytesAfterInsert(s.active, k, v);
    assert s.writers == [s.writers[0]];
    assert HeldByAll(s.writers) == Full(k, v);
    if TotalBytes(s.active) == 0 {
      EntriesTakeBytes(s.active);
      InsertAddsAtMostOne(s.active, k, v);
    }
    assert |Insert(s.active, k, v)| <= s.maxSize;
  }

  lemma {:induction false} RequestStaysCalm(s: State, step: Step)
    requires Calm(s) && Enabled(s, step) && (step.Request? || step.Granted? || step.Refund?)
    ensures Calm(Apply(s, step))
  {
    StepConserves(s, step);
    assert s.writers == [s.writers[0]];
    HeldIsNonNegative(s.writers);
  }

  lemma {:induction false} FlushStaysCalm(s: State, step: Step)
    requires Calm(s) && Enabled(s, step)
    requires step.FlushTake? || step.FlushOk? || step.FlushFail? || step.FlushRelease?
    ensures Calm(Apply(s, step))
  {
    StepConserves(s, step);
    assert s.writers == [s.writers[0]];
    assert Blocked(s);
    assert HeldByAll(s.writers) == 0;
  }

  lemma {:induction false} CalmRunsDoNotStall(s: State, steps: seq<Step>)
    requires Calm(s) && NoRoom(s) && Runs(s, steps)
    ensures !Stalled(Exec(s, steps))
    decreases |steps|
  {
    if steps != [] {
      match steps[0] {
        case InsertEntry(w) => InsertStaysCalm(s);
        case Request(_, _, _) => RequestStaysCalm(s, steps[0]);
        case Granted(_) => RequestStaysCalm(s, steps[0]);
        case Refund(_) => RequestStaysCalm(s, steps[0]);
        case _ => FlushStaysCalm(s, steps[0]);
      }
      CalmRunsDoNotStall(Apply(s, steps[0]), steps[1..]);
    } else if Stalled(s) {
      StallIsQuiet(s);
      assert false;
    }
  }

  lemma {:induction false} OneWriterNeedsRoom(budget: int, maxSize: int, steps: seq<Step>)
    requires Runs(Init(1, budget, maxSize), steps) && Stalled(Exec(Init(1, budget, maxSize), steps))
    ensures RoomForMore(budget, maxSize)
  {
    var s0 := Init(1, budget, maxSize);
    StallNeedsBudget(1, budget, maxSize, steps);
    if maxSize <= 1 {
      SmallLimitsHaveRoom(budget, maxSize);
    } else if !RoomForMore(budget, maxSize) {
      RoomIsATable(budget, maxSize);
      InitIsGood(1, budget, maxSize);
      forall t: Table | Sorted(t) && TotalBytes(t) <= budget ensures |t| <= maxSize {}
      CalmRunsDoNotStall(s0, steps);
      assert false;
    }
  }

  /** The empty key, and one key of a single byte. */
  lemma {:induction false} SmallLimitsHaveRoom(budget: int, maxSize: int)
    requires budget > 0 && maxSize <= 1
    ensures RoomForMore(budget, maxSize)
  {
    var t := [Entry([], None), Entry(KeyOf(1), None)];
    assert Sorted(t) && TotalBytes(t[1..]) == 1;
    assert t[1..][1..] == [];
    RoomIsATable(budget, maxSize);
  }

  // ---------------------------------------------- how a failed flush strands a writer

  /** Writing the entries of a table one by one, each of which fits. */
  lemma {:induction false} AppendsLast(t: Table, i: nat)
    requires Sorted(t) && i < |t|
    ensures Insert(t[..i], t[i].key, t[i].value) == t[..i + 1] && InsertDelta(t[..i], t[i].key, t[i].value) == EntryLen(t[i])
  {
    LowerBoundIsUnique(t[..i], t[i].key, i);
    InsertIsSplice(t[..i], t[i].key, t[i].value);
    assert t[..i + 1] == t[..i] + [t[i]];
  }

  lemma {:induction false} PrefixBytes(t: Table, i: nat)
    requires i <= |t|
    ensures TotalBytes(t[..i]) <= TotalBytes(t)
  {
    if i > 0 {
      assert t[..i][1..] == t[1..][..i - 1];
      PrefixBytes(t[1..], i - 1);
    }
  }

  lemma {:induction false} NextBytes(t: Table, i: nat)
    requires i < |t|
    ensures TotalBytes(t[..i + 1]) == TotalBytes(t[..i]) + EntryLen(t[i])
  {
    assert t[..i + 1] == t[..i] + [t[i]];
    TotalBytesAppend(t[..i], t[i]);
  }

  /** Writer 0 alone, nothing reserved or being flushed. */
  predicate At(s: State, active: Table, dirty: Option<Table>, flusher: Flusher, used: int, w: Writer) {
    s.active == active && s.dirty == dirty && s.flusher == flusher && s.used == used && Solo(s, w)
  }

  /** The same budget and limit. */
  predicate Kin(s: State, s': State) {
    s'.budget == s.budget && s'.maxSize == s.maxSize
  }

  /** Writer 0 writes an entry that fits and that active does not hold. */
  lemma {:induction false} WriteOne(s: State, e: Entry, active': Table) returns (steps: seq<Step>, s': State)
    requires At(s, s.active, s.dirty, s.flusher, s.used, Ready) && Fits(s, EntryLen(e))
    requires active' == Insert(s.active, e.key, e.value) && InsertDelta(s.active, e.key, e.value) == EntryLen(e)
    ensures Goes(s, steps, s') && At(s', active', s.dirty, s.flusher, s.used + EntryLen(e), Ready) && Kin(s, s')
    ensures s'.signal == (s.signal || |active'| > s.maxSize) && NoFailure(steps)
  {
    var s1 := Apply(s, Request(0, e.key, e.value));
    s' := Apply(s1, InsertEntry(0));
    assert Goes(s, [], s);
    GoesOneMore(s, [], s, Request(0, e.key, e.value));
    GoesOneMore(s, [] + [Request(0, e.key, e.value)], s1, InsertEntry(0));
    steps := [] + [Request(0, e.key, e.value)] + [InsertEntry(0)];
  }

  lemma {:induction false} WriteAll(s: State, t: Table, n: nat) returns (steps: seq<Step>, s': State)
    requires At(s, [], None, Flusher.Resting, 0, Ready) && Sorted(t) && n <= |t| && TotalBytes(t) <= s.budget
    ensures Goes(s, steps, s') && At(s', t[..n], None, Flusher.Resting, TotalBytes(t[..n]), Ready) && Kin(s, s')
    ensures NoFailure(steps) && (n > 0 && n > s.maxSize ==> s'.signal)
    decreases n
  {
    if n == 0 {
      steps, s' := [], s;
    } else {
      var before, s1 := WriteAll(s, t, n - 1);
      AppendsLast(t, n - 1);
      NextBytes(t, n - 1);
      PrefixBytes(t, n);
      var more;
      more, s' := WriteOne(s1, t[n - 1], t[..n]);
      GoesOn(s, before, s1, more, s');
      steps := before + more;
    }
  }

  /** The flush of d has failed and is to be retried. The writer writes one more byte and then asks
      for the whole budget; its signal is the retry's. */
  lemma {:induction false} Strand(s: State, d: Table) returns (steps: seq<Step>)
    requires At(s, [], Some(d), Flusher.Resting, TotalBytes(d), Ready) && s.signal && s.budget > 0
    requires TotalBytes(d) == 0 || TotalBytes(d) + 1 <= s.budget
    ensures Runs(s, steps) && Stalled(Exec(s, steps)) && NoFailure(steps)
  {
    var e, big := Entry(KeyOf(1), None), KeyOf(s.budget);
    var a, s1 := WriteOne(s, e, [e]);
    var s2 := Apply(s1, Request(0, big, None));
    GoesOneMore(s, a, s1, Request(0, big, None));
    var b, s3 := Retry(s2, d, [e], big);
    GoesOn(s, a + [Request(0, big, None)], s2, b, s3);
    SoloStalls(s3, big);
    steps := a + [Request(0, big, None)] + b;
  }

  /** A flush of d runs to its end and takes nothing else. */
  lemma {:induction false} Retry(s: State, d: Table, active: Table, k: Key) returns (steps: seq<Step>, s': State)
    requires At(s, active, Some(d), Flusher.Resting, s.used, Waiting(k, None)) && s.signal && s.used >= TotalBytes(d)
    ensures Goes(s, steps, s') && At(s', active, None, Flusher.Resting, s.used - TotalBytes(d), Waiting(k, None)) && Kin(s, s')
    ensures !s'.signal && NoFailure(steps)
  {
    var s1 := Apply(s, FlushTake);
    var rest;
    assert Goes(s, [], s);
    GoesOneMore(s, [], s, FlushTake);
    rest, s' := FinishFlush(s1, d, active, k);
    GoesOn(s, [] + [FlushTake], s1, rest, s');
    steps := [] + [FlushTake] + rest;
  }

  lemma {:induction false} FinishFlush(s: State, d: Table, active: Table, k: Key) returns (steps: seq<Step>, s': State)
    requires At(s, active, Some(d), Flusher.Writing, s.used, Waiting(k, None)) && s.used >= TotalBytes(d)
    ensures Goes(s, steps, s') && At(s', active, None, Flusher.Resting, s.used - TotalBytes(d), Waiting(k, None)) && Kin(s, s')
    ensures s'.signal == s.signal && NoFailure(steps)
  {
    var s1 := Apply(s, FlushOk);
    s' := Apply(s1, FlushRelease);
    assert Goes(s, [], s);
    GoesOneMore(s, [], s, FlushOk);
    GoesOneMore(s, [] + [FlushOk], s1, FlushRelease);
    steps := [] + [FlushOk] + [FlushRelease];
  }

  /** The flush of active starts, and fails. */
  lemma {:induction false} FailOnce(s: State, d: Table) returns (steps: seq<Step>, s': State)
    requires At(s, d, None, Flusher.Resting, s.used, Ready) && s.signal && d != []
    ensures Goes(s, steps, s') && At(s', [], Some(d), Flusher.Resting, s.used, Ready) && Kin(s, s') && s'.signal
    ensures AtMostOneFailure(steps)
  {
    var s1 := Apply(s, FlushTake);
    s' := Apply(s1, FlushFail);
    assert Goes(s, [], s);
    GoesOneMore(s, [], s, FlushTake);
    GoesOneMore(s, [] + [FlushTake], s1, FlushFail);
    steps := [] + [FlushTake] + [FlushFail];
  }

  /** A full table is being flushed when the writer blocks: its signal outlives that flush, and the
      next one takes the little that the writer writes then. */
  lemma {:induction false} SpareSignal(s: State, d: Table, k: Key) returns (steps: seq<Step>, s': State)
    requires At(s, d, None, Flusher.Resting, TotalBytes(d), Ready) && s.signal && d != []
    requires s.budget > 0 && s.used > 0 && s.used + |k| > s.budget
    ensures Goes(s, steps, s') && At(s', [Entry(k, None)], None, Flusher.Resting, |k|, Ready) && Kin(s, s') && s'.signal
    ensures NoFailure(steps)
  {
    var s1 := Apply(s, FlushTake);
    var s2 := Apply(s1, Request(0, k, None));
    assert Goes(s, [], s);
    GoesOneMore(s, [], s, FlushTake);
    GoesOneMore(s, [] + [FlushTake], s1, Request(0, k, None));
    var flush, s3 := FinishFlush(s2, d, [], k);
    GoesOn(s, [] + [FlushTake] + [Request(0, k, None)], s2, flush, s3);
    var a := [] + [FlushTake] + [Request(0, k, None)] + flush;
    var s4 := Apply(s3, Granted(0));
    s' := Apply(s4, InsertEntry(0));
    GoesOneMore(s, a, s3, Granted(0));
    GoesOneMore(s, a + [Granted(0)], s4, InsertEntry(0));
    steps := a + [Granted(0)] + [InsertEntry(0)];
  }

  lemma {:induction false} OneFailureAmong(a: seq<Step>, b: seq<Step>, c: seq<Step>)
    requires NoFailure(a) && AtMostOneFailure(b) && NoFailure(c)
    ensures AtMostOneFailure(a + b + c)
  {
    var all := a + b + c;
    forall i, j | 0 <= i < j < |all| ensures !all[i].FlushFail? || !all[j].FlushFail? {
      if |a| <= i && j < |a| + |b| {
        assert all[i] == b[i - |a|] && all[j] == b[j - |a|];
      }
    }
  }

  /** Once a full active table stands before the writer, a failed flush strands it. */
  lemma {:induction false} FailAndStrand(s0: State, a: seq<Step>, s: State, d: Table)
    requires Goes(s0, a, s) && NoFailure(a) && At(s, d, None, Flusher.Resting, TotalBytes(d), Ready)
    requires s.signal && d != [] && s.budget > 0 && (TotalBytes(d) == 0 || TotalBytes(d) + 1 <= s.budget)
    ensures exists steps :: Runs(s0, steps) && AtMostOneFailure(steps) && Stalled(Exec(s0, steps))
  {
    var fail, s1 := FailOnce(s, d);
    var strand := Strand(s1, d);
    GoesOn(s0, a, s, fail, s1);
    GoesOn(s0, a + fail, s1, strand, Exec(s1, strand));
    OneFailureAmong(a, fail, strand);
    assert Runs(s0, a + fail + strand);
  }

  /** The budget exceeds d, or d fills it and a spare signal is made with a small key first. */
  lemma {:induction false} FullTableStalls(s0: State, a: seq<Step>, s: State, d: Table, k: Key)
    requires Goes(s0, a, s) && NoFailure(a) && At(s, d, None, Flusher.Resting, TotalBytes(d), Ready)
    requires s.signal && d != [] && s.budget > 0
    requires TotalBytes(d) < s.budget ||
             (s.used > 0 && s.used + |k| > s.budget && (k == [] || |k| + 1 <= s.budget))
    ensures exists steps :: Runs(s0, steps) && AtMostOneFailure(steps) && Stalled(Exec(s0, steps))
  {
    if TotalBytes(d) < s.budget {
      FailAndStrand(s0, a, s, d);
    } else {
      var spare, s1 := SpareSignal(s, d, k);
      GoesOn(s0, a, s, spare, s1);
      assert TotalBytes([Entry(k, None)]) == |k| + TotalBytes([Entry(k, None)][1..]);
      FailAndStrand(s0, a + spare, s1, [Entry(k, None)]);
    }
  }

  /** A budget of one byte: the empty key and a key beyond the budget, which fits while nothing is used. */
  lemma {:induction false} TightBudgetStrands(writers: nat, maxSize: int)
    requires writers >= 1 && maxSize <= 1
    ensures CanStallAfterOneFailure(writers, 1, maxSize)
  {
    var s0 := Init(writers, 1, maxSize);
    var d := [Entry([], None), Entry(KeyOf(2), None)];
    assert Sorted(d) && d[..1] == [d[0]] && d[..2] == d && d[1..] == [d[1]] && d[1..][1..] == [];
    assert TotalBytes(d) == 2;
    AppendsLast(d, 0);
    AppendsLast(d, 1);
    var a, s1 := WriteOne(s0, d[0], d[..1]);
    var b, s2 := WriteOne(s1, d[1], d);
    GoesOn(s0, a, s1, b, s2);
    FullTableStalls(s0, a + b, s2, d, []);
  }

  /** Any writer can be stranded by one failed flush, when there is room. */
  lemma {:induction false} RoomStrandsAWriter(writers: nat, budget: int, maxSize: int)
    requires writers >= 1 && budget > 0 && RoomForMore(budget, maxSize)
    ensures CanStallAfterOneFailure(writers, budget, maxSize)
  {
    var s0 := Init(writers, budget, maxSize);
    RoomIsATable(budget, maxSize);
    var t: Table :| Sorted(t) && t != [] && |t| > maxSize && TotalBytes(t) <= budget;
    assert TotalBytes([]) == 0;
    if TotalBytes(t) == 1 == budget {
      EntriesTakeBytes(t);
      TightBudgetStrands(writers, maxSize);
    } else {
      var a, s := WriteAll(s0, t, |t|);
      assert t[..|t|] == t;
      FullTableStalls(s0, a, s, t, KeyOf(1));
    }
  }

  /** With failed flushes: a writer can be left blocked for good exactly when there is a budget and
      either a second writer or room in the budget for more records than maxSize. One failed flush
      is enough. */
  lemma {:induction false} StallsIff(writers: nat, budget: int, maxSize: int)
    ensures CanStall(writers, budget, maxSize) <==>
            budget > 0 && (writers >= 2 || (writers == 1 && RoomForMore(budget, maxSize)))
    ensures CanStall(writers, budget, maxSize) <==> CanStallAfterOneFailure(writers, budget, maxSize)
  {
    if budget > 0 && (writers >= 2 || (writers == 1 && RoomForMore(budget, maxSize))) {
      if maxSize >= 1 && writers >= 2 {
        TwoWritersCanStall(writers, budget, maxSize);
        var s0 := Init(writers, budget, maxSize);
        var steps :| Runs(s0, steps) && NoFailure(steps) && Stalled(Exec(s0, steps));
        assert AtMostOneFailure(steps);
      } else {
        if writers >= 2 { SmallLimitsHaveRoom(budget, maxSize); }
        RoomStrandsAWriter(writers, budget, maxSize);
      }
    } else {
      forall steps | Runs(Init(writers, budget, maxSize), steps) ensures !Stalled(Exec(Init(writers, budget, maxSize), steps)) {
        if Stalled(Exec(Init(writers, budget, maxSize), steps)) {
          StallNeedsBudget(writers, budget, maxSize, steps);
          OneWriterNeedsRoom(budget, maxSize, steps);
          assert false;
        }
      }
    }
  }
}
