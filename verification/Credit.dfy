/** The byte-credit pool of pkg/credit/credit.go. */
module Credit {
  import opened ByteStrings

  class Pool {
    const budget: int
    var used: int

    constructor (budget: int)
      ensures this.budget == budget && used == 0
    {
      this.budget, this.used := budget, 0;
    }

    predicate Fits(n: int)
      reads this
    {
      budget <= 0 || used == 0 || used + n <= budget
    }

    method TryAcquire(n: int) returns (ok: bool)
      modifies this
      ensures ok == old(Fits(n))
      ensures !ok <==> budget > 0 && old(used) != 0 && old(used) + n > budget
      ensures used == old(used) + if ok then n else 0
      ensures ok && budget > 0 ==> used <= Max(budget, n)
    {
      ok := Fits(n);
      if ok {
        used := used + n;
      }
    }

    /** The exit of Acquire's wait loop. */
    method Acquire(n: int)
      requires Fits(n)
      modifies this
      ensures used == old(used) + n
      ensures budget > 0 ==> used <= Max(budget, n)
    {
      used := used + n;
    }

    method Release(n: int)
      modifies this
      ensures used == if old(used) - n < 0 then 0 else old(used) - n
    {
      used := used - n;
      if used < 0 {
        used := 0;
      }
    }
  }
}

/** Any number of writers and one flush worker sharing the pool: MemTable.Put, Delete and Flush as
    interleaved steps, split where the locks are released. */
module Backpressure {
  import opened ByteStrings
  import opened Entries

  datatype Writer =
    | Ready
    | Waiting(key: Key, value: Value)   // TryAcquire failed, a flush was signalled, blocked in Acquire
    | Reserved(key: Key, value: Value)  // credit taken, entry not inserted yet
    | Refunding(over: int)              // inserted; the excess is still to be released

  datatype Flusher = Resting | Writing | Releasing(freed: int)

  datatype State = State(active: Table, dirty: Option<Table>, used: int, budget: int, maxSize: int,
                         writers: seq<Writer>, flusher: Flusher, signal: bool,
                         largest: nat)  // auxiliary: the largest record requested so far

  function Full(k: Key, v: Value): nat {
    |k| + ValueLen(v)
  }

  predicate Fits(s: State, n: int) {
    s.budget <= 0 || s.used == 0 || s.used + n <= s.budget
  }

  datatype Step =
    | Request(w: nat, key: Key, value: Value)
    | Granted(w: nat)
    | InsertEntry(w: nat)
    | Refund(w: nat)
    | FlushTake
    | FlushOk
    | FlushFail
    | FlushRelease

  predicate Enabled(s: State, step: Step) {
    match step
    case Request(w, _, _) => w < |s.writers| && s.writers[w].Ready?
    case Granted(w) => w < |s.writers| && s.writers[w].Waiting? && Fits(s, Full(s.writers[w].key, s.writers[w].value))
    case InsertEntry(w) => w < |s.writers| && s.writers[w].Reserved?
    case Refund(w) => w < |s.writers| && s.writers[w].Refunding?
    case FlushTake => s.flusher.Resting? && s.signal
    case FlushOk => s.flusher.Writing?
    case FlushFail => s.flusher.Writing?
    case FlushRelease => s.flusher.Releasing?
  }

  /** Pool.Release with its clamp at zero. */
  function Released(used: int, n: int): int {
    if used - n < 0 then 0 else used - n
  }

  function Apply(s: State, step: Step): State
    requires Enabled(s, step)
  {
    match step
    case Request(w, k, v) =>
      var s' := s.(largest := if Full(k, v) > s.largest then Full(k, v) else s.largest);
      if Fits(s, Full(k, v)) then s'.(used := s.used + Full(k, v), writers := s.writers[w := Reserved(k, v)])
      else s'.(signal := true, writers := s.writers[w := Waiting(k, v)])
    case Granted(w) =>
      var k, v := s.writers[w].key, s.writers[w].value;
      s.(used := s.used + Full(k, v), writers := s.writers[w := Reserved(k, v)])
    case InsertEntry(w) =>
      var k, v := s.writers[w].key, s.writers[w].value;
      var active := Insert(s.active, k, v);
      var over := Full(k, v) - InsertDelta(s.active, k, v);
      s.(active := active, signal := s.signal || |active| > s.maxSize,
         writers := s.writers[w := if over != 0 then Refunding(over) else Ready])
    case Refund(w) =>
      s.(used := Released(s.used, s.writers[w].over), writers := s.writers[w := Ready])
    case FlushTake =>
      if s.dirty == None && s.active == [] then s.(signal := false)
      else if s.dirty == None then s.(signal := false, dirty := Some(s.active), active := [], flusher := Writing)
      else s.(signal := false, flusher := Writing)
    case FlushOk =>
      s.(dirty := None, flusher := Releasing(DirtyBytes(s)))
    case FlushFail => s.(flusher := Resting, signal := true)
    case FlushRelease => s.(used := Released(s.used, s.flusher.freed), flusher := Resting)
  }

  function DirtyBytes(s: State): nat {
    if s.dirty.Some? then TotalBytes(s.dirty.value) else 0
  }

  // -------------------------------------------------------------- conservation

  function Held(w: Writer): int {
    match w
    case Reserved(k, v) => Full(k, v)
    case Refunding(over) => over
    case _ => 0
  }

  function HeldByAll(ws: seq<Writer>): int {
    if ws == [] then 0 else Held(ws[0]) + HeldByAll(ws[1..])
  }

  function HeldByFlusher(f: Flusher): int {
    if f.Releasing? then f.freed else 0
  }

  lemma {:induction false} HeldAfterUpdate(ws: seq<Writer>, i: nat, w: Writer)
    requires i < |ws|
    ensures HeldByAll(ws[i := w]) == HeldByAll(ws) - Held(ws[i]) + Held(w)
  {
    if i == 0 {
      assert ws[0 := w][1..] == ws[1..];
    } else {
      HeldAfterUpdate(ws[1..], i - 1, w);
      assert ws[i := w][1..] == ws[1..][i - 1 := w];
    }
  }

  predicate NoDebts(ws: seq<Writer>) {
    forall i :: 0 <= i < |ws| ==> Held(ws[i]) >= 0
  }

  lemma {:induction false} HeldCoversEach(ws: seq<Writer>, i: nat)
    requires NoDebts(ws) && i < |ws|
    ensures 0 <= Held(ws[i]) <= HeldByAll(ws)
  {
    HeldIsNonNegative(ws[1..]);
    if i > 0 {
      HeldCoversEach(ws[1..], i - 1);
    }
  }

  lemma {:induction false} HeldIsNonNegative(ws: seq<Writer>)
    requires NoDebts(ws)
    ensures HeldByAll(ws) >= 0
  {
    if ws != [] {
      HeldIsNonNegative(ws[1..]);
    }
  }

  /** Every byte of credit in use is accounted for. */
  predicate Conserved(s: State) {
    s.used == TotalBytes(s.active) + DirtyBytes(s) + HeldByAll(s.writers) + HeldByFlusher(s.flusher)
  }

  predicate Inv(s: State) {
    && Conserved(s) && NoDebts(s.writers) && HeldByFlusher(s.flusher) >= 0
    && (s.flusher.Writing? ==> s.dirty.Some?)
    && (s.flusher.Releasing? ==> s.dirty == None)
  }

  /** The clamp in Release does not fire: there is at least as much in use as is given back. */
  predicate ClampIdle(s: State, step: Step)
    requires Enabled(s, step)
  {
    match step
    case Refund(w) => s.used >= s.writers[w].over
    case FlushRelease => s.used >= s.flusher.freed
    case _ => true
  }

  lemma {:induction false} ClampNeverFires(s: State, step: Step)
    requires Inv(s) && Enabled(s, step)
    ensures ClampIdle(s, step)
  {
    HeldIsNonNegative(s.writers);
    if step.Refund? {
      HeldCoversEach(s.writers, step.w);
    }
  }

  /** Inserting turns a reservation into table bytes and a refund. */
  lemma {:induction false} InsertConserves(s: State, w: nat)
    requires Inv(s) && Enabled(s, InsertEntry(w))
    ensures Inv(Apply(s, InsertEntry(w)))
  {
    var k, v := s.writers[w].key, s.writers[w].value;
    var over := Full(k, v) - InsertDelta(s.active, k, v);
    TotalBytesAfterInsert(s.active, k, v);
    var next := if over != 0 then Refunding(over) else Ready;
    HeldAfterUpdate(s.writers, w, next);
    assert Held(next) == over;
  }

  lemma {:induction false} FlushConserves(s: State, step: Step)
    requires Inv(s) && Enabled(s, step)
    requires step.FlushTake? || step.FlushOk? || step.FlushFail? || step.FlushRelease?
    ensures Inv(Apply(s, step))
  {
    ClampNeverFires(s, step);
  }

  lemma {:induction false} StepConserves(s: State, step: Step)
    requires Inv(s) && Enabled(s, step)
    ensures Inv(Apply(s, step))
  {
    match step
    case Request(w, k, v) =>
      HeldAfterUpdate(s.writers, w, Reserved(k, v));
      HeldAfterUpdate(s.writers, w, Waiting(k, v));
    case Granted(w) =>
      HeldAfterUpdate(s.writers, w, Reserved(s.writers[w].key, s.writers[w].value));
    case InsertEntry(w) => InsertConserves(s, w);
    case Refund(w) =>
      ClampNeverFires(s, step);
      HeldAfterUpdate(s.writers, w, Ready);
    case _ => FlushConserves(s, step);
  }

  // ------------------------------------------------------------------- bounds

  /** With a positive budget the credit in use exceeds neither the budget nor, if that is more, one
      single record. */
  predicate Bounded(s: State) {
    && (s.budget > 0 ==> s.used <= Max(s.budget, s.largest))
    && (forall i :: 0 <= i < |s.writers| && (s.writers[i].Waiting? || s.writers[i].Reserved?) ==>
          Full(s.writers[i].key, s.writers[i].value) <= s.largest)
  }

  lemma {:induction false} StepStaysBounded(s: State, step: Step)
    requires Inv(s) && Bounded(s) && Enabled(s, step)
    ensures Bounded(Apply(s, step))
  {
    HeldIsNonNegative(s.writers);
    if step.Refund? {
      HeldCoversEach(s.writers, step.w);
    }
  }

  // --------------------------------------------------------------- whole runs

  predicate Runs(s: State, steps: seq<Step>)
    decreases |steps|
  {
    steps == [] || (Enabled(s, steps[0]) && Runs(Apply(s, steps[0]), steps[1..]))
  }

  function Exec(s: State, steps: seq<Step>): State
    requires Runs(s, steps)
    decreases |steps|
  {
    if steps == [] then s else Exec(Apply(s, steps[0]), steps[1..])
  }

  function Init(writers: nat, budget: int, maxSize: int): State {
    State([], None, 0, budget, maxSize, seq(writers, _ => Ready), Resting, false, 0)
  }

  lemma {:induction false} IdleHoldsNothing(ws: seq<Writer>)
    requires forall i :: 0 <= i < |ws| ==> ws[i].Ready? || ws[i].Waiting?
    ensures HeldByAll(ws) == 0
  {
    if ws != [] {
      IdleHoldsNothing(ws[1..]);
    }
  }

  lemma {:induction false} RunKeeps(s: State, steps: seq<Step>)
    requires Inv(s) && Bounded(s) && Runs(s, steps)
    ensures Inv(Exec(s, steps)) && Bounded(Exec(s, steps))
    ensures Exec(s, steps).budget == s.budget
    decreases |steps|
  {
    if steps != [] {
      StepConserves(s, steps[0]);
      StepStaysBounded(s, steps[0]);
      RunKeeps(Apply(s, steps[0]), steps[1..]);
    }
  }

  /** No writer between reserving and refunding, and no release pending. */
  predicate AtRest(s: State) {
    && (forall i :: 0 <= i < |s.writers| ==> s.writers[i].Ready? || s.writers[i].Waiting?)
    && !s.flusher.Releasing?
  }

  /** Credit conservation over every interleaving of any number of writers with one flusher. */
  lemma {:induction false} CreditIsConserved(writers: nat, budget: int, maxSize: int, steps: seq<Step>)
    requires Runs(Init(writers, budget, maxSize), steps)
    ensures var s := Exec(Init(writers, budget, maxSize), steps);
            && Conserved(s)
            && (forall step :: Enabled(s, step) ==> ClampIdle(s, step))
            && (AtRest(s) ==> s.used == TotalBytes(s.active) + DirtyBytes(s))
  {
    var s0 := Init(writers, budget, maxSize);
    IdleHoldsNothing(s0.writers);
    RunKeeps(s0, steps);
    var s := Exec(s0, steps);
    forall step | Enabled(s, step) ensures ClampIdle(s, step) {
      ClampNeverFires(s, step);
    }
    if AtRest(s) {
      IdleHoldsNothing(s.writers);
    }
  }

  /** Memory bound: unflushed bytes never exceed the larger of the budget and one record. */
  lemma {:induction false} MemoryIsBounded(writers: nat, budget: int, maxSize: int, steps: seq<Step>)
    requires budget > 0 && Runs(Init(writers, budget, maxSize), steps)
    ensures var s := Exec(Init(writers, budget, maxSize), steps);
            TotalBytes(s.active) + DirtyBytes(s) <= s.used <= Max(budget, s.largest)
  {
    var s0 := Init(writers, budget, maxSize);
    IdleHoldsNothing(s0.writers);
    RunKeeps(s0, steps);
    HeldIsNonNegative(Exec(s0, steps).writers);
  }

  // ------------------------------------------------------------------ progress

  /** One writer, no failed flush. */
  predicate SingleWriter(s: State) {
    && Inv(s) && |s.writers| == 1
    && (s.flusher.Resting? ==> s.dirty == None)
    && (s.writers[0].Waiting? && !Fits(s, Full(s.writers[0].key, s.writers[0].value)) ==>
          s.signal || (s.active == [] && !s.flusher.Resting?))
  }

  predicate Blocked(s: State) {
    |s.writers| == 1 && s.writers[0].Waiting? && !Fits(s, Full(s.writers[0].key, s.writers[0].value))
  }

  /** How many flushes must still complete before the blocked writer fits. */
  function FlushesNeeded(s: State): nat {
    if !Blocked(s) then 0 else if s.active != [] && !s.flusher.Resting? then 2 else 1
  }

  /** Steps of the flush worker until then. */
  function Distance(s: State): nat {
    if !Blocked(s) then 0
    else
      (match s.flusher case Resting => 3 case Writing => 2 case Releasing(_) => 1) +
      (if s.active != [] && !s.flusher.Resting? then 3 else 0)
  }

  lemma {:induction false} SingleWriterStep(s: State, step: Step)
    requires SingleWriter(s) && Enabled(s, step) && !step.FlushFail?
    ensures SingleWriter(Apply(s, step))
  {
    StepConserves(s, step);
    assert s.writers == [s.writers[0]];
  }

  /** A blocked writer has a flush running or signalled, every step is one of that flush worker's,
      and each brings the writer closer. */
  lemma {:induction false} BlockedWriterProgresses(s: State)
    requires SingleWriter(s) && Blocked(s)
    ensures s.signal || !s.flusher.Resting?
    ensures Enabled(s, FlushTake) || Enabled(s, FlushOk) || Enabled(s, FlushRelease)
    ensures 1 <= FlushesNeeded(s) <= 2 && 1 <= Distance(s) <= 5
    ensures forall step :: Enabled(s, step) && !step.FlushFail? ==>
      && (step.FlushTake? || step.FlushOk? || step.FlushRelease?)
      && Distance(Apply(s, step)) < Distance(s)
      && FlushesNeeded(Apply(s, step)) <= FlushesNeeded(s) - if step.FlushRelease? then 1 else 0
  {
    assert s.writers == [s.writers[0]];
    assert HeldByAll(s.writers) == 0 by { IdleHoldsNothing(s.writers); }
    forall step | Enabled(s, step) && !step.FlushFail?
      ensures step.FlushTake? || step.FlushOk? || step.FlushRelease?
      ensures Distance(Apply(s, step)) < Distance(s)
      ensures FlushesNeeded(Apply(s, step)) <= FlushesNeeded(s) - if step.FlushRelease? then 1 else 0
    {
    }
  }

  function Completions(steps: seq<Step>): nat {
    if steps == [] then 0 else (if steps[0].FlushRelease? then 1 else 0) + Completions(steps[1..])
  }

  predicate NoFailure(steps: seq<Step>) {
    forall i :: 0 <= i < |steps| ==> !steps[i].FlushFail?
  }

  lemma {:induction false} RunKeepsSingleWriter(s: State, steps: seq<Step>)
    requires SingleWriter(s) && Runs(s, steps) && NoFailure(steps)
    ensures SingleWriter(Exec(s, steps))
    decreases |steps|
  {
    if steps != [] {
      SingleWriterStep(s, steps[0]);
      RunKeepsSingleWriter(Apply(s, steps[0]), steps[1..]);
    }
  }

  /** A run of a blocked writer's system can contain at most two completed flushes, and at most five
      steps, before the writer fits. */
  lemma {:induction false} BlockedForAtMostTwoFlushes(s: State, steps: seq<Step>)
    requires SingleWriter(s) && Runs(s, steps) && NoFailure(steps)
    requires forall i :: 0 <= i <= |steps| ==> Runs(s, steps[..i]) && Blocked(Exec(s, steps[..i]))
    ensures Completions(steps) + FlushesNeeded(Exec(s, steps)) <= FlushesNeeded(s) <= 2
    ensures |steps| + Distance(Exec(s, steps)) <= Distance(s) <= 5
    decreases |steps|
  {
    assert steps[..0] == [];
    assert Blocked(s);
    BlockedWriterProgresses(s);
    if steps != [] {
      var s', rest := Apply(s, steps[0]), steps[1..];
      SingleWriterStep(s, steps[0]);
      forall i | 0 <= i <= |rest| ensures Runs(s', rest[..i]) && Blocked(Exec(s', rest[..i])) {
        assert steps[..i + 1][1..] == rest[..i];
        assert Runs(s, steps[..i + 1]) && Blocked(Exec(s, steps[..i + 1]));
      }
      BlockedForAtMostTwoFlushes(s', rest);
    }
  }

  /** Progress: in every run of one writer without a failed flush, a blocked writer always has a
      flush running or signalled, and the flush worker can take its next step. */
  lemma {:induction false} SingleWriterNeverStuck(budget: int, maxSize: int, steps: seq<Step>)
    requires Runs(Init(1, budget, maxSize), steps) && NoFailure(steps)
    ensures var s := Exec(Init(1, budget, maxSize), steps);
            SingleWriter(s) &&
            (Blocked(s) ==>
               && (s.signal || !s.flusher.Resting?)
               && (Enabled(s, FlushTake) || Enabled(s, FlushOk) || Enabled(s, FlushRelease)))
  {
    var s0 := Init(1, budget, maxSize);
    IdleHoldsNothing(s0.writers);
    RunKeepsSingleWriter(s0, steps);
    var s := Exec(s0, steps);
    if Blocked(s) {
      BlockedWriterProgresses(s);
    }
  }
}
