/** The standalone server of service/fsm.go: log first, then the memtable; replay at start; scans. */
module Server {
  import opened ByteStrings
  import opened Entries
  import opened SSTableFormat
  import opened Lsm
  import opened SSTables
  import opened SkipLists
  import opened Credit
  import opened MemTables
  import opened RangeScan
  import opened Wal
  import opened Recovery

  const MAX_SCAN_RESULTS: nat := 10000

  /** The engine answers every read as the commands do, taken in order. */
  ghost predicate Holds(s: Lsm.State, cs: seq<Command>) {
    forall k :: Find(s, k) == Last(StoredEntries(cs), k, None)
  }

  ghost predicate LogAndEngine(file: Bytes, s: Lsm.State, cs: seq<Command>) {
    file == EncodeLog(LogOf(cs)) && Inv(s) && Holds(s, cs)
  }

  /** The run took the engine from s to s' and its writes are those of the replayed records. */
  ghost predicate IsReplay(s: Lsm.State, s': Lsm.State, steps: seq<Step>, rs: seq<Replayed>) {
    && Runs(s, steps) && s' == Exec(s, steps) && WritesOf(steps) == ReplayedEntries(rs)
    && (forall i :: 0 <= i < |steps| ==> steps[i].Write?)
  }

  class KVServer {
    const wal: WAL
    const storage: MemTable
    ghost var history: seq<Command>  // every command whose write has returned

    constructor (budget: int, maxLevel: nat, maxMemTableSize: int, maxCompactionSize: int)
      requires 1 <= maxLevel
      ensures storage.Valid() && InStep() && history == []
    {
      var log := new WAL();
      storage := new MemTable(budget, maxLevel, maxMemTableSize, maxCompactionSize);
      wal, history := log, [];
      new;
      InitInv(maxCompactionSize);
    }

    /** The log holds the history, and so does the engine. */
    ghost predicate InStep()
      reads this, wal, storage, storage.active, storage.dirty, storage.sst
    {
      LogAndEngine(wal.file, storage.Abs(), history)
    }

    /** writeStandalone. When the log cannot be written (logFails) nothing is stored; a write that has
        to wait for credit leaves its record in the log and nothing else. */
    method WriteStandalone(cmd: Command, newLevel: nat, logFails: bool) returns (admitted: bool)
      requires storage.Valid() && FitsEntry(StoredEntry(cmd)) && 1 <= newLevel <= storage.maxLevel
      modifies this, wal, storage, storage.credits, storage.active, storage.active.nodes
      ensures storage.Valid()
      ensures wal.file == old(wal.file) + if logFails then [] else EncodeRecord(Logged(cmd))
      ensures Logged(cmd) == match cmd case Put(k, v) => LogRecord(1, k, if v.Some? then v.value else []) case Delete(k) => LogRecord(2, k, [])
      ensures admitted == (!logFails && old(storage.credits.Fits(EntryLen(StoredEntry(cmd)))))
      ensures var e := StoredEntry(cmd);
              storage.Abs() == if admitted then Apply(old(storage.Abs()), Write(e.key, e.value)) else old(storage.Abs())
      ensures admitted && cmd.Put? ==> Find(storage.Abs(), cmd.key) == Some(cmd.value)
      ensures admitted && cmd.Delete? ==> Find(storage.Abs(), cmd.key) == Some(None) && Lsm.Get(storage.Abs(), cmd.key) == None
      ensures forall q :: !admitted || q != cmd.key ==> Find(storage.Abs(), q) == Find(old(storage.Abs()), q)
      ensures history == if admitted then old(history) + [cmd] else old(history)
      ensures admitted && old(InStep()) ==> InStep()
    {
      if logFails {
        return false;
      }
      ghost var file := wal.file;
      AppendToLog(cmd);
      admitted := Store(cmd, newLevel, file);
    }

    /** The memtable half of a write whose record has been logged. */
    method Store(cmd: Command, newLevel: nat, ghost file: Bytes) returns (admitted: bool)
      requires storage.Valid() && FitsEntry(StoredEntry(cmd)) && 1 <= newLevel <= storage.maxLevel
      requires wal.file == file + EncodeRecord(Logged(cmd))
      modifies this, storage, storage.credits, storage.active, storage.active.nodes
      ensures storage.Valid() && admitted == old(storage.credits.Fits(EntryLen(StoredEntry(cmd))))
      ensures var e := StoredEntry(cmd);
              storage.Abs() == if admitted then Apply(old(storage.Abs()), Write(e.key, e.value)) else old(storage.Abs())
      ensures admitted && cmd.Put? ==> Find(storage.Abs(), cmd.key) == Some(cmd.value)
      ensures admitted && cmd.Delete? ==> Find(storage.Abs(), cmd.key) == Some(None) && Lsm.Get(storage.Abs(), cmd.key) == None
      ensures forall q :: !admitted || q != cmd.key ==> Find(storage.Abs(), q) == Find(old(storage.Abs()), q)
      ensures history == if admitted then old(history) + [cmd] else old(history)
      ensures admitted && LogAndEngine(file, old(storage.Abs()), old(history)) ==> InStep()
    {
      ghost var s, cs := storage.Abs(), history;
      admitted := InsertNow(cmd, newLevel);
      if admitted {
        history := history + [cmd];
        StaysInStep(s, storage.Abs(), file, wal.file, cs, cmd);
      }
    }

    method InsertNow(cmd: Command, newLevel: nat) returns (admitted: bool)
      requires storage.Valid() && FitsEntry(StoredEntry(cmd)) && 1 <= newLevel <= storage.maxLevel
      modifies storage, storage.credits, storage.active, storage.active.nodes
      ensures storage.Valid() && admitted == old(storage.credits.Fits(EntryLen(StoredEntry(cmd))))
      ensures var e := StoredEntry(cmd);
              storage.Abs() == if admitted then Apply(old(storage.Abs()), Write(e.key, e.value)) else old(storage.Abs())
      ensures admitted && cmd.Put? ==> Find(storage.Abs(), cmd.key) == Some(cmd.value)
      ensures admitted && cmd.Delete? ==> Find(storage.Abs(), cmd.key) == Some(None) && Lsm.Get(storage.Abs(), cmd.key) == None
      ensures forall q :: !admitted || q != cmd.key ==> Find(storage.Abs(), q) == Find(old(storage.Abs()), q)
    {
      var e := StoredEntry(cmd);
      admitted := storage.Write(e.key, e.value, newLevel);
    }

    /** The end of a write that was logged and had to wait, once there is room. */
    method StoreAfterWait(cmd: Command, newLevel: nat, ghost file: Bytes)
      requires storage.Valid() && FitsEntry(StoredEntry(cmd)) && 1 <= newLevel <= storage.maxLevel
      requires wal.file == file + EncodeRecord(Logged(cmd)) && storage.credits.Fits(EntryLen(StoredEntry(cmd)))
      modifies this, storage, storage.credits, storage.active, storage.active.nodes
      ensures storage.Valid()
      ensures var e := StoredEntry(cmd); storage.Abs() == Apply(old(storage.Abs()), Write(e.key, e.value))
      ensures cmd.Put? ==> Find(storage.Abs(), cmd.key) == Some(cmd.value)
      ensures cmd.Delete? ==> Find(storage.Abs(), cmd.key) == Some(None) && Lsm.Get(storage.Abs(), cmd.key) == None
      ensures forall q :: q != cmd.key ==> Find(storage.Abs(), q) == Find(old(storage.Abs()), q)
      ensures history == old(history) + [cmd]
      ensures LogAndEngine(file, old(storage.Abs()), old(history)) ==> InStep()
    {
      ghost var s, cs := storage.Abs(), history;
      InsertAfterWait(cmd, newLevel);
      history := history + [cmd];
      StaysInStep(s, storage.Abs(), file, wal.file, cs, cmd);
    }

    method InsertAfterWait(cmd: Command, newLevel: nat)
      requires storage.Valid() && FitsEntry(StoredEntry(cmd)) && 1 <= newLevel <= storage.maxLevel
      requires storage.credits.Fits(EntryLen(StoredEntry(cmd)))
      modifies storage, storage.credits, storage.active, storage.active.nodes
      ensures storage.Valid()
      ensures var e := StoredEntry(cmd); storage.Abs() == Apply(old(storage.Abs()), Write(e.key, e.value))
      ensures cmd.Put? ==> Find(storage.Abs(), cmd.key) == Some(cmd.value)
      ensures cmd.Delete? ==> Find(storage.Abs(), cmd.key) == Some(None) && Lsm.Get(storage.Abs(), cmd.key) == None
      ensures forall q :: q != cmd.key ==> Find(storage.Abs(), q) == Find(old(storage.Abs()), q)
    {
      var e := StoredEntry(cmd);
      storage.WriteAfterWait(e.key, e.value, newLevel);
    }

    method AppendToLog(cmd: Command)
      modifies wal
      ensures wal.file == old(wal.file) + EncodeRecord(Logged(cmd))
    {
      match cmd {
        case Put(k, v) => wal.Append(OP_PUT, k, if v.Some? then v.value else []);
        case Delete(k) => wal.Append(OP_DELETE, k, []);
      }
    }

    /** The record's write has no room in the pool, and a flush has been signalled. */
    predicate IsRefused(r: Replayed)
      reads storage, storage.credits
    {
      && storage.flushSignal
      && ReplayedEntry(r).Some? && !storage.credits.Fits(EntryLen(ReplayedEntry(r).value))
    }

    /** replayWAL from a given record on: every surviving record, in order, as an ordinary write. It
        stops short only to wait for credit, at record n. */
    method ReplayWAL(from: nat) returns (n: nat, ghost steps: seq<Step>)
      requires storage.Valid() && from <= |ReplayAll(wal.file)|
      requires forall r :: r in ReplayAll(wal.file) ==> FitsEntry(Entry(r.key, r.value))
      modifies storage, storage.credits, storage.active, storage.active.nodes
      ensures storage.Valid()
      ensures var rs := ReplayAll(wal.file);
              from <= n <= |rs| && (n < |rs| ==> IsRefused(rs[n])) &&
              IsReplay(old(storage.Abs()), storage.Abs(), steps, rs[from..n])
    {
      var rs := wal.Replay();
      n, steps := ReplayRecords(rs, from);
    }

    method ReplayRecords(rs: seq<Replayed>, from: nat) returns (n: nat, ghost steps: seq<Step>)
      requires storage.Valid() && from <= |rs|
      requires forall i :: 0 <= i < |rs| ==> FitsEntry(Entry(rs[i].key, rs[i].value))
      modifies storage, storage.credits, storage.active, storage.active.nodes
      ensures storage.Valid() && from <= n <= |rs| && (n < |rs| ==> IsRefused(rs[n]))
      ensures IsReplay(old(storage.Abs()), storage.Abs(), steps, rs[from..n])
    {
      ghost var s0 := storage.Abs();
      n := from;
      steps := NothingReplayed(s0, rs, from);
      var waiting := false;
      while n < |rs| && !waiting
        invariant storage.Valid() && from <= n <= |rs| && (waiting ==> n < |rs| && IsRefused(rs[n]))
        invariant storage.active == old(storage.active)
        invariant forall i :: 0 <= i < |storage.active.nodes| ==> storage.active.nodes[i] in old(storage.active.nodes) || fresh(storage.active.nodes[i])
        invariant IsReplay(s0, storage.Abs(), steps, rs[from..n])
        decreases |rs| - n, !waiting
      {
        waiting, steps := ReplayNext(rs, from, n, s0, steps);
        n := if waiting then n else n + 1;
      }
    }

    method ReplayNext(rs: seq<Replayed>, ghost from: nat, n: nat, ghost s0: Lsm.State, ghost before: seq<Step>)
      returns (waiting: bool, ghost steps: seq<Step>)
      requires storage.Valid() && from <= n < |rs| && FitsEntry(Entry(rs[n].key, rs[n].value))
      requires IsReplay(s0, storage.Abs(), before, rs[from..n])
      modifies storage, storage.credits, storage.active, storage.active.nodes
      ensures storage.Valid() && storage.active == old(storage.active)
      ensures forall i :: 0 <= i < |storage.active.nodes| ==> storage.active.nodes[i] in old(storage.active.nodes) || fresh(storage.active.nodes[i])
      ensures waiting ==> IsRefused(rs[n])
      ensures IsReplay(s0, storage.Abs(), steps, rs[from..if waiting then n else n + 1])
    {
      ghost var s := storage.Abs();
      ghost var step;
      waiting, step := ReplayRecord(rs[n]);
      steps := before + step;
      if waiting {
        assert steps == before;
      } else {
        ReplayOneMore(s0, s, storage.Abs(), before, step, rs, from, n);
      }
    }

    /** replayWAL's callback. newLevel is what randomLevel draws. */
    method ReplayRecord(r: Replayed) returns (waiting: bool, ghost steps: seq<Step>)
      requires storage.Valid() && FitsEntry(Entry(r.key, r.value))
      modifies storage, storage.credits, storage.active, storage.active.nodes
      ensures storage.Valid() && storage.active == old(storage.active)
      ensures forall i :: 0 <= i < |storage.active.nodes| ==> storage.active.nodes[i] in old(storage.active.nodes) || fresh(storage.active.nodes[i])
      ensures waiting ==> IsRefused(r) && steps == []
      ensures IsReplay(old(storage.Abs()), storage.Abs(), steps, if waiting then [] else [r])
    {
      waiting, steps := false, [];
      assert [r][1..] == [];
      var e := ReplayedEntry(r);
      if e.Some? {
        var newLevel: nat :| 1 <= newLevel <= storage.maxLevel;
        var admitted := storage.Write(e.value.key, e.value.value, newLevel);
        waiting := !admitted;
        if admitted {
          steps := [Write(e.value.key, e.value.value)];
          RunOfOne(old(storage.Abs()), steps[0]);
        }
      }
    }

    /** Scan: the first matches in the hot data, in key order. */
    method Scan(start: Key, end: Key, pred: Bytes -> bool) returns (out: seq<Hit>)
      requires storage.Valid()
      ensures forall i, j :: 0 <= i < j < |out| ==> Less(out[i].key, out[j].key)
      ensures |out| <= 10000
      ensures forall h :: h in out ==> IsMatch(storage.Abs(), start, end, pred, h)
      ensures forall h :: IsMatch(storage.Abs(), start, end, pred, h) && h !in out ==>
        |out| == 10000 && forall g :: g in out ==> Less(g.key, h.key)
    {
      out := storage.ScanRange(start, end, Collect(pred, MAX_SCAN_RESULTS), []);
      ghost var hits := HotHits(storage.Abs(), start, end);
      CollectsTheFirst(pred, MAX_SCAN_RESULTS, [], hits);
      assert [] + Matching(pred, hits) == Matching(pred, hits);
      FirstMatchesAreScan(storage.Abs(), start, end, pred, MAX_SCAN_RESULTS);
    }
  }

  lemma {:induction false} HoldsAfterWrite(s: Lsm.State, cs: seq<Command>, cmd: Command)
    requires Inv(s) && Holds(s, cs)
    ensures var e := StoredEntry(cmd);
            Inv(Apply(s, Write(e.key, e.value))) && Holds(Apply(s, Write(e.key, e.value)), cs + [cmd])
  {
    var e := StoredEntry(cmd);
    var step := Write(e.key, e.value);
    StepKeepsInv(s, step);
    assert StoredEntries(cs + [cmd]) == StoredEntries(cs) + [e];
    forall k ensures Find(Apply(s, step), k) == Last(StoredEntries(cs + [cmd]), k, None) {
      StepIsInvisible(s, step, k);
      LastAppend(StoredEntries(cs), [e], k, None);
      assert [e][1..] == [];
    }
  }

  lemma {:induction false} StaysInStep(s: Lsm.State, s': Lsm.State, file: Bytes, file': Bytes, cs: seq<Command>, cmd: Command)
    requires var e := StoredEntry(cmd); s' == Apply(s, Write(e.key, e.value))
    requires file' == file + EncodeRecord(Logged(cmd))
    ensures LogAndEngine(file, s, cs) ==> LogAndEngine(file', s', cs + [cmd])
  {
    if LogAndEngine(file, s, cs) {
      HoldsAfterWrite(s, cs, cmd);
      LogGrows(cs, cmd);
    }
  }

  lemma {:induction false} LogGrows(cs: seq<Command>, cmd: Command)
    ensures EncodeLog(LogOf(cs + [cmd])) == EncodeLog(LogOf(cs)) + EncodeRecord(Logged(cmd))
  {
    assert LogOf(cs + [cmd]) == LogOf(cs) + [Logged(cmd)];
    EncodeLogAppend(LogOf(cs), [Logged(cmd)]);
    assert [Logged(cmd)][1..] == [];
    assert EncodeRecord(Logged(cmd)) + [] == EncodeRecord(Logged(cmd));
  }

  /** What a replay leaves behind for a key: its last surviving record decides, and a key without one
      answers as before. */
  lemma {:induction false} ReplayShows(s: Lsm.State, s': Lsm.State, steps: seq<Step>, rs: seq<Replayed>, k: Key)
    requires Inv(s) && IsReplay(s, s', steps, rs)
    ensures Inv(s')
    ensures forall i: nat :: IsLastReplayed(rs, i, k) ==> Find(s', k) == Some(if rs[i].op == 1 then rs[i].value else None)
    ensures (forall i :: 0 <= i < |rs| && rs[i].key == k ==> rs[i].op != 1 && rs[i].op != 2) ==> Find(s', k) == Find(s, k)
  {
    NoMergesAreSafe(s, steps);
    ReadsSeeTheLastWrite(s, steps, k);
    LastWriteIsLast(steps, k, Find(s, k));
    LastReplayed(rs, k, Find(s, k));
  }

  lemma {:induction false} NothingReplayed(s: Lsm.State, rs: seq<Replayed>, from: nat) returns (steps: seq<Step>)
    requires from <= |rs|
    ensures IsReplay(s, s, steps, rs[from..from])
  {
    steps := [];
  }

  lemma {:induction false} ReplayedAppend(a: seq<Replayed>, b: seq<Replayed>)
    ensures ReplayedEntries(a + b) == ReplayedEntries(a) + ReplayedEntries(b)
  {
    if a == [] {
      assert a + b == b;
    } else {
      assert (a + b)[1..] == a[1..] + b;
      ReplayedAppend(a[1..], b);
    }
  }

  lemma {:induction false} ReplayOneMore(s0: Lsm.State, s1: Lsm.State, s2: Lsm.State, a: seq<Step>, b: seq<Step>,
                                         rs: seq<Replayed>, from: nat, n: nat)
    requires from <= n < |rs| && IsReplay(s0, s1, a, rs[from..n]) && IsReplay(s1, s2, b, [rs[n]])
    ensures IsReplay(s0, s2, a + b, rs[from..n + 1])
  {
    RunMore(s0, a, b);
    WritesAppend(a, b);
    assert rs[from..n + 1] == rs[from..n] + [rs[n]];
    ReplayedAppend(rs[from..n], [rs[n]]);
  }
}
