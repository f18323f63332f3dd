/** Standalone crash recovery (service/fsm.go): the log is replayed, as ordinary writes, onto
    whatever prefix of it had already reached SSTables. */
module Recovery {
  import opened ByteStrings
  import opened Entries
  import Wal
  import Lsm

  /** A client command; a nil value in a Put is None. */
  datatype Command = Put(key: Key, value: Value) | Delete(key: Key)

  /** The entry that writeStandalone inserts into the memtable. */
  function StoredEntry(c: Command): Entry {
    match c
    case Put(k, v) => Entry(k, v)
    case Delete(k) => Entry(k, None)
  }

  /** The record that writeStandalone appends to the log first. */
  function Logged(c: Command): Wal.LogRecord {
    match c
    case Put(k, v) => Wal.LogRecord(Wal.OP_PUT, k, if v.Some? then v.value else [])
    case Delete(k) => Wal.LogRecord(Wal.OP_DELETE, k, [])
  }

  function LogOf(cs: seq<Command>): (rs: seq<Wal.LogRecord>)
    ensures |rs| == |cs| && forall i :: 0 <= i < |cs| ==> rs[i] == Logged(cs[i])
  {
    seq(|cs|, i requires 0 <= i < |cs| => Logged(cs[i]))
  }

  /** replayWAL's callback: unknown operations are ignored. */
  function ReplayedEntry(r: Wal.Replayed): Option<Entry> {
    if r.op == Wal.OP_PUT then Some(Entry(r.key, r.value))
    else if r.op == Wal.OP_DELETE then Some(Entry(r.key, None))
    else None
  }

  function ReplayedEntries(rs: seq<Wal.Replayed>): seq<Entry> {
    if rs == [] then []
    else (match ReplayedEntry(rs[0]) case None => [] case Some(e) => [e]) + ReplayedEntries(rs[1..])
  }

  /** The last entry written for k, or what was there before. */
  function Last(es: seq<Entry>, k: Key, before: Option<Value>): Option<Value> {
    if es == [] then before
    else Last(es[1..], k, if es[0].key == k then Some(es[0].value) else before)
  }

  function StoredEntries(cs: seq<Command>): (es: seq<Entry>)
    ensures |es| == |cs| && forall i :: 0 <= i < |cs| ==> es[i] == StoredEntry(cs[i])
  {
    seq(|cs|, i requires 0 <= i < |cs| => StoredEntry(cs[i]))
  }

  /** What a replay makes of a stored entry: an empty value comes back as nil. */
  function Reborn(v: Value): Value {
    if v == Some([]) then None else v
  }

  function RebornEntries(cs: seq<Command>): (es: seq<Entry>)
    ensures |es| == |cs| && forall i :: 0 <= i < |cs| ==> es[i] == Entry(cs[i].key, Reborn(StoredEntry(cs[i]).value))
  {
    seq(|cs|, i requires 0 <= i < |cs| => Entry(cs[i].key, Reborn(StoredEntry(cs[i]).value)))
  }

  /** Record i is the last Put (1) or Delete (2) of k among those replayed. */
  predicate IsLastReplayed(rs: seq<Wal.Replayed>, i: nat, k: Key) {
    && i < |rs| && rs[i].key == k && (rs[i].op == 1 || rs[i].op == 2)
    && forall j :: i < j < |rs| && rs[j].key == k ==> rs[j].op != 1 && rs[j].op != 2
  }

  /** A replay leaves the last Put's value or, after a Delete, a tombstone; other operations do nothing. */
  lemma {:induction false} LastReplayed(rs: seq<Wal.Replayed>, k: Key, before: Option<Value>)
    ensures forall i: nat :: IsLastReplayed(rs, i, k) ==>
      Last(ReplayedEntries(rs), k, before) == Some(if rs[i].op == 1 then rs[i].value else None)
    ensures (forall i :: 0 <= i < |rs| && rs[i].key == k ==> rs[i].op != 1 && rs[i].op != 2) ==>
      Last(ReplayedEntries(rs), k, before) == before
  {
    if rs != [] {
      var e, es := ReplayedEntry(rs[0]), ReplayedEntries(rs);
      if e.Some? {
        assert es[1..] == ReplayedEntries(rs[1..]);
      } else {
        assert es == ReplayedEntries(rs[1..]);
      }
      LastReplayed(rs[1..], k, if e.Some? && e.value.key == k then Some(e.value.value) else before);
      assert forall j :: 0 < j < |rs| ==> rs[j] == rs[1..][j - 1];
      forall i: nat | IsLastReplayed(rs, i, k)
        ensures Last(ReplayedEntries(rs), k, before) == Some(if rs[i].op == 1 then rs[i].value else None)
      {
        if i > 0 {
          assert IsLastReplayed(rs[1..], i - 1, k);
        } else {
          assert forall j :: 0 <= j < |rs| - 1 ==> rs[1..][j] == rs[j + 1];
        }
      }
    }
  }

  lemma {:induction false} ReplayGivesReborn(cs: seq<Command>)
    ensures ReplayedEntries(Wal.AllReplayed(LogOf(cs))) == RebornEntries(cs)
  {
    if cs != [] {
      ReplayGivesReborn(cs[1..]);
      assert LogOf(cs)[1..] == LogOf(cs[1..]);
      assert Wal.AllReplayed(LogOf(cs))[1..] == Wal.AllReplayed(LogOf(cs[1..]));
      assert RebornEntries(cs) == [RebornEntries(cs)[0]] + RebornEntries(cs[1..]);
    }
  }

  // -------------------------------------------------------------- last writes

  ghost predicate Mentions(es: seq<Entry>, k: Key) {
    exists i :: 0 <= i < |es| && es[i].key == k
  }

  lemma {:induction false} LastForgets(es: seq<Entry>, k: Key, a: Option<Value>, b: Option<Value>)
    requires Mentions(es, k)
    ensures Last(es, k, a) == Last(es, k, b)
  {
    if es[0].key != k {
      var i :| 0 <= i < |es| && es[i].key == k;
      assert es[1..][i - 1].key == k;
      LastForgets(es[1..], k, a, b);
    }
  }

  lemma {:induction false} LastUnmentioned(es: seq<Entry>, k: Key, before: Option<Value>)
    requires !Mentions(es, k)
    ensures Last(es, k, before) == before
  {
    if es != [] {
      assert es[0].key != k;
      forall i | 0 <= i < |es[1..]| ensures es[1..][i].key != k {
        assert es[i + 1].key != k;
      }
      LastUnmentioned(es[1..], k, before);
    }
  }

  lemma {:induction false} LastAppend(a: seq<Entry>, b: seq<Entry>, k: Key, before: Option<Value>)
    ensures Last(a + b, k, before) == Last(b, k, Last(a, k, before))
  {
    if a == [] {
      assert a + b == b;
    } else {
      assert (a + b)[1..] == a[1..] + b;
      LastAppend(a[1..], b, k, if a[0].key == k then Some(a[0].value) else before);
    }
  }

  /** Replaying again changes nothing. */
  lemma {:induction false} ReplayIsIdempotent(es: seq<Entry>, k: Key, before: Option<Value>)
    ensures Last(es + es, k, before) == Last(es, k, before)
  {
    LastAppend(es, es, k, before);
    if Mentions(es, k) {
      LastForgets(es, k, Last(es, k, before), before);
    } else {
      LastUnmentioned(es, k, before);
    }
  }

  lemma {:induction false} LastOfReborn(cs: seq<Command>, k: Key, before: Option<Value>)
    ensures Last(RebornEntries(cs), k, if before.Some? then Some(Reborn(before.value)) else None) ==
            (var r := Last(StoredEntries(cs), k, before); if r.Some? then Some(Reborn(r.value)) else None)
  {
    if cs != [] {
      assert RebornEntries(cs)[1..] == RebornEntries(cs[1..]);
      assert StoredEntries(cs)[1..] == StoredEntries(cs[1..]);
      LastOfReborn(cs[1..], k, if cs[0].key == k then Some(StoredEntry(cs[0]).value) else before);
    }
  }

  /** Replaying a log onto a base that holds only keys of the log forgets the base. */
  lemma {:induction false} ReplayOntoBase(cs: seq<Command>, k: Key, base: Option<Value>)
    requires base.Some? ==> Mentions(StoredEntries(cs), k)
    ensures Last(RebornEntries(cs), k, base) == Last(RebornEntries(cs), k, None)
  {
    if base.Some? {
      var i :| 0 <= i < |StoredEntries(cs)| && StoredEntries(cs)[i].key == k;
      assert RebornEntries(cs)[i].key == k;
      LastForgets(RebornEntries(cs), k, base, None);
    }
  }

  /** Replaying a log onto the state of any prefix of it forgets the prefix. */
  lemma {:induction false} ReplayOntoPrefix(cs: seq<Command>, p: nat, k: Key)
    requires p <= |cs|
    ensures Last(RebornEntries(cs), k, Last(StoredEntries(cs[..p]), k, None)) == Last(RebornEntries(cs), k, None)
  {
    var base := StoredEntries(cs[..p]);
    if Mentions(base, k) {
      var i :| 0 <= i < |base| && base[i].key == k;
      assert RebornEntries(cs)[i].key == k;
      LastForgets(RebornEntries(cs), k, Last(base, k, None), None);
    } else {
      LastUnmentioned(base, k, None);
    }
  }

  // ------------------------------------------------------- through the engine

  /** The writes of an engine run, in order. */
  function WritesOf(steps: seq<Lsm.Step>): seq<Entry> {
    if steps == [] then []
    else (if steps[0].Write? then [Entry(steps[0].key, steps[0].value)] else []) + WritesOf(steps[1..])
  }

  lemma {:induction false} LastWriteIsLast(steps: seq<Lsm.Step>, k: Key, before: Option<Value>)
    ensures Lsm.LastWrite(steps, k, before) == Last(WritesOf(steps), k, before)
    decreases |steps|
  {
    if steps != [] {
      LastWriteIsLast(steps[1..], k, Lsm.After(steps[0], k, before));
      if steps[0].Write? {
        assert WritesOf(steps)[1..] == WritesOf(steps[1..]);
      } else {
        assert WritesOf(steps) == WritesOf(steps[1..]);
      }
    }
  }

  /** Every key that the reopened engine holds, with whatever value, occurs in the log. */
  ghost predicate HoldsOnlyLogged(s: Lsm.State, cs: seq<Command>) {
    forall k :: Lsm.Find(s, k).Some? ==> Mentions(StoredEntries(cs), k)
  }

  predicate FitsCommands(cs: seq<Command>) {
    Wal.FitsLog(LogOf(cs))
  }

  /** k's last command is a Put of an empty, non-nil value. */
  ghost predicate LastIsEmptyPut(cs: seq<Command>, k: Key) {
    Last(StoredEntries(cs), k, None) == Some(Some([]))
  }

  /** Crash recovery. The log survives up to an arbitrary cut inside the record in flight; the engine
      reopens with any contents whose keys all occur in the log; the log is replayed through an
      arbitrary engine run. A read then answers as before the crash exactly when the key's last
      command is not a Put of an empty value; such a key is lost. */
  lemma {:induction false} RecoveryRestores(acked: seq<Command>, inFlight: Command, cut: nat,
                                            s: Lsm.State, steps: seq<Lsm.Step>, k: Key)
    requires FitsCommands(acked + [inFlight])
    requires var log := Wal.EncodeLog(LogOf(acked + [inFlight]));
             |Wal.EncodeLog(LogOf(acked))| <= cut <= |log| &&
             WritesOf(steps) == ReplayedEntries(Wal.ReplayAll(log[..cut]))
    requires Lsm.Inv(s) && Lsm.Runs(s, steps) && Lsm.MergesAreSafe(s, steps) && HoldsOnlyLogged(s, acked)
    ensures var whole := cut == |Wal.EncodeLog(LogOf(acked + [inFlight]))|;
            var cs := if whole then acked + [inFlight] else acked;
            var now, before := Lsm.Get(Lsm.Exec(s, steps), k), Lsm.Live(Last(StoredEntries(cs), k, None));
            && (now == before <==> !LastIsEmptyPut(cs, k))
            && (LastIsEmptyPut(cs, k) ==> now == None)
  {
    var all := acked + [inFlight];
    SurvivingLog(acked, inFlight, cut);
    var cs := if cut == |Wal.EncodeLog(LogOf(all))| then all else acked;
    ReplayGivesReborn(cs);
    assert WritesOf(steps) == RebornEntries(cs);
    Lsm.ReadsSeeTheLastWrite(s, steps, k);
    LastWriteIsLast(steps, k, Lsm.Find(s, k));
    MentionsMore(acked, inFlight, k);
    ReplayOntoBase(cs, k, Lsm.Find(s, k));
    LastOfReborn(cs, k, None);
  }

  lemma {:induction false} SurvivingLog(acked: seq<Command>, inFlight: Command, cut: nat)
    requires FitsCommands(acked + [inFlight])
    requires |Wal.EncodeLog(LogOf(acked))| <= cut <= |Wal.EncodeLog(LogOf(acked + [inFlight]))|
    ensures var log := Wal.EncodeLog(LogOf(acked + [inFlight]));
            Wal.ReplayAll(log[..cut]) == Wal.AllReplayed(LogOf(if cut == |log| then acked + [inFlight] else acked))
  {
    var all := acked + [inFlight];
    assert LogOf(all) == LogOf(acked) + [Logged(inFlight)];
    forall i | 0 <= i < |LogOf(acked)| ensures Wal.FitsRecord(LogOf(acked)[i]) {
      assert LogOf(all)[i] == LogOf(acked)[i];
    }
    assert Wal.FitsRecord(LogOf(all)[|acked|]);
    Wal.AcknowledgedSurvive(LogOf(acked), Logged(inFlight), cut);
  }

  lemma {:induction false} MentionsMore(cs: seq<Command>, c: Command, k: Key)
    ensures Mentions(StoredEntries(cs), k) ==> Mentions(StoredEntries(cs + [c]), k)
  {
    if Mentions(StoredEntries(cs), k) {
      var i :| 0 <= i < |StoredEntries(cs)| && StoredEntries(cs)[i].key == k;
      assert StoredEntries(cs + [c])[i].key == k;
    }
  }

  /** Replaying the log a second time, through another run, changes no read. */
  lemma {:induction false} SecondReplayChangesNothing(s: Lsm.State, once: seq<Lsm.Step>, again: seq<Lsm.Step>, k: Key)
    requires Lsm.Inv(s) && Lsm.Runs(s, once + again) && Lsm.MergesAreSafe(s, once + again)
    requires WritesOf(once) == WritesOf(again)
    ensures Lsm.Find(Lsm.Exec(s, once + again), k) == Lsm.Find(Lsm.Exec(s, once), k)
  {
    Lsm.RunMore(s, once, again);
    Lsm.ReadsSeeTheLastWrite(s, once, k);
    Lsm.ReadsSeeTheLastWrite(Lsm.Exec(s, once), again, k);
    LastWriteIsLast(once, k, Lsm.Find(s, k));
    LastWriteIsLast(again, k, Lsm.Find(Lsm.Exec(s, once), k));
    ReplayIsIdempotent(WritesOf(once), k, Lsm.Find(s, k));
    LastAppend(WritesOf(once), WritesOf(once), k, Lsm.Find(s, k));
  }

  // ------------------------------------------------------ what a crash leaves

  lemma {:induction false} WritesAppend(a: seq<Lsm.Step>, b: seq<Lsm.Step>)
    ensures WritesOf(a + b) == WritesOf(a) + WritesOf(b)
  {
    if a == [] {
      assert a + b == b;
    } else {
      assert (a + b)[1..] == a[1..] + b;
      WritesAppend(a[1..], b);
    }
  }

  lemma {:induction false} LastOver(es: seq<Entry>, k: Key, before: Option<Value>)
    ensures Last(es, k, before) == if Last(es, k, None).Some? then Last(es, k, None) else before
  {
    if Mentions(es, k) {
      LastForgets(es, k, before, None);
      LastOfMentioned(es, k);
    } else {
      LastUnmentioned(es, k, before);
      LastUnmentioned(es, k, None);
    }
  }

  lemma {:induction false} LastOfMentioned(es: seq<Entry>, k: Key)
    requires Mentions(es, k)
    ensures Last(es, k, None).Some?
  {
    var before := if es[0].key == k then Some(es[0].value) else None;
    if es[0].key == k && !Mentions(es[1..], k) {
      LastUnmentioned(es[1..], k, before);
    } else {
      if es[0].key != k {
        var i :| 0 <= i < |es| && es[i].key == k;
        assert es[1..][i - 1].key == k;
      }
      LastForgets(es[1..], k, before, None);
      LastOfMentioned(es[1..], k);
    }
  }

  ghost predicate Answers(t: Table, es: seq<Entry>) {
    forall k :: Lookup(t, k) == Last(es, k, None)
  }

  ghost predicate FilesAnswer(files: seq<Lsm.File>, es: seq<Entry>) {
    forall k :: Lsm.FilesLookup(files, k) == Last(es, k, None)
  }

  /** The writes so far lie in layers: the first p in files, the next up to q in dirty, the rest in
      active. */
  ghost predicate Layered(s: Lsm.State, es: seq<Entry>, p: nat, q: nat) {
    && p <= q <= |es|
    && FilesAnswer(s.files, es[..p]) && Answers(s.active, es[q..])
    && (if s.dirty.Some? && !s.flush.Published? then Answers(s.dirty.value, es[p..q]) else p == q)
  }

  lemma {:induction false} WriteKeepsLayers(s: Lsm.State, es: seq<Entry>, p: nat, q: nat, k: Key, v: Value)
    requires Lsm.Inv(s) && Layered(s, es, p, q)
    ensures Layered(Lsm.Apply(s, Lsm.Write(k, v)), es + [Entry(k, v)], p, q)
  {
    var es' := es + [Entry(k, v)];
    assert es'[..p] == es[..p] && es'[p..q] == es[p..q] && es'[q..] == es[q..] + [Entry(k, v)];
    forall x ensures Lookup(Insert(s.active, k, v), x) == Last(es'[q..], x, None) {
      LookupAfterInsert(s.active, k, v, x);
      LastAppend(es[q..], [Entry(k, v)], x, None);
      assert [Entry(k, v)][1..] == [];
    }
  }

  lemma {:induction false} PublishKeepsLayers(s: Lsm.State, es: seq<Entry>, p: nat, q: nat, path: nat)
    requires Lsm.Enabled(s, Lsm.FlushPublish(path)) && Layered(s, es, p, q)
    ensures Layered(Lsm.Apply(s, Lsm.FlushPublish(path)), es, q, q)
  {
    var files := Lsm.Apply(s, Lsm.FlushPublish(path)).files;
    forall k ensures Lsm.FilesLookup(files, k) == Last(es[..q], k, None) {
      Lsm.PublishStep(s, path, k);
      assert es[..q] == es[..p] + es[p..q];
      LastAppend(es[..p], es[p..q], k, None);
      LastOver(es[p..q], k, Last(es[..p], k, None));
    }
  }

  lemma {:induction false} SwapKeepsLayers(s: Lsm.State, es: seq<Entry>, p: nat, q: nat)
    requires Lsm.Enabled(s, Lsm.FlushBegin) && Layered(s, es, p, q)
    ensures Layered(Lsm.Apply(s, Lsm.FlushBegin), es, p, if s.dirty.Some? then q else |es|)
  {
    assert es[q..|es|] == es[q..] && es[|es|..] == [];
  }

  lemma {:induction false} CompactionKeepsLayers(s: Lsm.State, es: seq<Entry>, p: nat, q: nat, step: Lsm.Step)
    requires Lsm.Inv(s) && Lsm.Enabled(s, step) && Lsm.Safe(s, step) && Layered(s, es, p, q)
    requires !step.Write? && !step.FlushBegin? && !step.FlushPublish?
    ensures Layered(Lsm.Apply(s, step), es, p, q)
  {
    match step
    case CompactMerge(path, merged) => Lsm.MergeStep(s, path, merged);
    case CompactDrop => Lsm.DropStep(s);
    case _ =>
  }

  ghost predicate InLayers(s: Lsm.State, es: seq<Entry>) {
    exists p, q :: Layered(s, es, p, q)
  }

  lemma {:induction false} StepKeepsLayers(s: Lsm.State, es: seq<Entry>, step: Lsm.Step)
    requires Lsm.Inv(s) && InLayers(s, es) && Lsm.Enabled(s, step) && Lsm.Safe(s, step)
    ensures InLayers(Lsm.Apply(s, step), es + WritesOf([step]))
  {
    var p, q :| Layered(s, es, p, q);
    assert [step][1..] == [] && es + [] == es;
    assert WritesOf([step]) == if step.Write? then [Entry(step.key, step.value)] else [];
    match step
    case Write(k, v) => WriteKeepsLayers(s, es, p, q, k, v);
    case FlushBegin => SwapKeepsLayers(s, es, p, q);
    case FlushPublish(path) => PublishKeepsLayers(s, es, p, q, path);
    case _ => CompactionKeepsLayers(s, es, p, q, step);
  }

  lemma {:induction false} RunKeepsLayers(s: Lsm.State, es: seq<Entry>, steps: seq<Lsm.Step>)
    requires Lsm.Inv(s) && InLayers(s, es) && Lsm.Runs(s, steps) && Lsm.MergesAreSafe(s, steps)
    ensures InLayers(Lsm.Exec(s, steps), es + WritesOf(steps))
    decreases |steps|
  {
    if steps == [] {
      assert es + [] == es;
    } else {
      var first := WritesOf([steps[0]]);
      StepKeepsLayers(s, es, steps[0]);
      Lsm.StepKeepsInv(s, steps[0]);
      RunKeepsLayers(Lsm.Apply(s, steps[0]), es + first, steps[1..]);
      assert steps == [steps[0]] + steps[1..];
      WritesAppend([steps[0]], steps[1..]);
      assert es + (first + WritesOf(steps[1..])) == (es + first) + WritesOf(steps[1..]);
    }
  }

  /** What a crash leaves of the engine: its files. */
  function Crashed(s: Lsm.State): Lsm.State {
    Lsm.State([], None, s.files, Lsm.Idle, Lsm.Resting, s.maxCompaction)
  }

  /** Whenever a run from the empty engine is cut short by a crash, the files answer as some prefix of
      its writes does. */
  lemma {:induction false} CrashLeavesAPrefix(maxCompaction: int, steps: seq<Lsm.Step>) returns (p: nat)
    requires Lsm.Runs(Lsm.Init(maxCompaction), steps) && Lsm.MergesAreSafe(Lsm.Init(maxCompaction), steps)
    ensures var s := Crashed(Lsm.Exec(Lsm.Init(maxCompaction), steps));
            && Lsm.Inv(s) && p <= |WritesOf(steps)|
            && forall k :: Lsm.Find(s, k) == Last(WritesOf(steps)[..p], k, None)
  {
    var s0 := Lsm.Init(maxCompaction);
    Lsm.InitInv(maxCompaction);
    assert Lsm.TablesOf(s0.files) == [];
    assert Layered(s0, [], 0, 0);
    RunKeepsLayers(s0, [], steps);
    assert [] + WritesOf(steps) == WritesOf(steps);
    var q;
    p, q :| Layered(Lsm.Exec(s0, steps), WritesOf(steps), p, q);
    Lsm.ReadsSeeTheLastWrite(s0, steps, []);
  }

  /** From the empty engine through a crash: run, lose everything but files and log, replay. */
  lemma {:induction false} CrashAndReplay(maxCompaction: int, before: seq<Lsm.Step>, acked: seq<Command>, inFlight: Command, cut: nat,
                                          replay: seq<Lsm.Step>, k: Key)
    requires Lsm.Runs(Lsm.Init(maxCompaction), before) && Lsm.MergesAreSafe(Lsm.Init(maxCompaction), before)
    requires WritesOf(before) == StoredEntries(acked) && FitsCommands(acked + [inFlight])
    requires var log := Wal.EncodeLog(LogOf(acked + [inFlight]));
             |Wal.EncodeLog(LogOf(acked))| <= cut < |log| &&
             WritesOf(replay) == ReplayedEntries(Wal.ReplayAll(log[..cut]))
    requires var s := Crashed(Lsm.Exec(Lsm.Init(maxCompaction), before)); Lsm.Runs(s, replay) && Lsm.MergesAreSafe(s, replay)
    ensures var s := Lsm.Exec(Lsm.Init(maxCompaction), before);
            Lsm.Get(Lsm.Exec(Crashed(s), replay), k) == Lsm.Get(s, k) <==> !LastIsEmptyPut(acked, k)
  {
    var s0 := Lsm.Init(maxCompaction);
    var s := Crashed(Lsm.Exec(s0, before));
    var p := CrashLeavesAPrefix(maxCompaction, before);
    PrefixMentions(s, acked, p);
    RecoveryRestores(acked, inFlight, cut, s, replay, k);
    Lsm.InitInv(maxCompaction);
    Lsm.ReadsSeeTheLastWrite(s0, before, k);
    LastWriteIsLast(before, k, None);
  }

  lemma {:induction false} PrefixMentions(s: Lsm.State, cs: seq<Command>, p: nat)
    requires p <= |cs| && forall k :: Lsm.Find(s, k) == Last(StoredEntries(cs)[..p], k, None)
    ensures HoldsOnlyLogged(s, cs)
  {
    forall k | Lsm.Find(s, k).Some? ensures Mentions(StoredEntries(cs), k) {
      var es := StoredEntries(cs)[..p];
      if !Mentions(es, k) { LastUnmentioned(es, k, None); }
      var i :| 0 <= i < |es| && es[i].key == k;
      assert StoredEntries(cs)[i].key == k;
    }
  }
}
