/** The standalone write-ahead log of storage/wal.go: record codec and torn tails. */
module Wal {
  import opened ByteStrings
  import opened Entries

  const OP_PUT: byte := 1
  const OP_DELETE: byte := 2

  /** What Append is given; a nil value is logged like an empty one. */
  datatype LogRecord = LogRecord(op: byte, key: Key, value: Bytes)

  /** What Replay hands to its callback: nil when the value length is 0. */
  datatype Replayed = Replayed(op: byte, key: Key, value: Value)

  function AsReplayed(r: LogRecord): Replayed {
    Replayed(r.op, r.key, if |r.value| > 0 then Some(r.value) else None)
  }

  predicate FitsRecord(r: LogRecord) {
    |r.key| < TWO32 && |r.value| < TWO32
  }

  function Header(r: LogRecord): (s: Bytes)
    ensures |s| == 9
  {
    [r.op] + BigEndian(|r.key|, 4) + BigEndian(|r.value|, 4)
  }

  /** [op 1][klen 4][vlen 4][key][value] */
  function EncodeRecord(r: LogRecord): (s: Bytes)
    ensures |s| == 9 + |r.key| + |r.value|
  {
    Header(r) + r.key + r.value
  }

  function EncodeLog(rs: seq<LogRecord>): Bytes {
    if rs == [] then [] else EncodeRecord(rs[0]) + EncodeLog(rs[1..])
  }

  class WAL {
    var file: Bytes

    constructor ()
      ensures file == []
    {
      file := [];
    }

    method Append(op: byte, key: Key, value: Bytes)
      modifies this
      ensures file == old(file) + EncodeRecord(LogRecord(op, key, value))
      ensures file == old(file) + ([op] + BigEndian(|key|, 4) + BigEndian(|value|, 4) + key + value)
    {
      var buf := [op] + BigEndian(|key|, 4) + BigEndian(|value|, 4);
      buf := buf + key;
      buf := buf + value;
      file := file + buf;
    }

    /** The records handed to the callback, in order. */
    method Replay() returns (rs: seq<Replayed>)
      ensures rs == ReplayAll(file)
    {
      rs := [];
      var pos := 0;
      while true
        invariant pos <= |file|
        invariant rs + ReplayAll(file[pos..]) == ReplayAll(file)
        decreases |file| - pos
      {
        match ReadRecord(file[pos..]) {
          case Torn =>
            return;
          case Whole(r, n) =>
            ReplayStep(file, pos, rs);
            rs, pos := rs + [r], pos + n;
        }
      }
    }
  }

  datatype Parsed = Whole(record: Replayed, length: nat) | Torn

  /** One iteration of Replay on the bytes not yet read. */
  function ReadRecord(data: Bytes): (p: Parsed)
    ensures p.Whole? ==> 9 <= p.length <= |data|
  {
    if |data| < 9 then Torn
    else
      var klen := FromBigEndian(data[1..5]);
      var vlen := FromBigEndian(data[5..9]);
      if |data| < 9 + klen + vlen then Torn
      else
        var key := data[9..9 + klen];
        var value := data[9 + klen..9 + klen + vlen];
        Whole(Replayed(data[0], key, if vlen > 0 then Some(value) else None), 9 + klen + vlen)
  }

  function ReplayAll(data: Bytes): seq<Replayed>
    decreases |data|
  {
    match ReadRecord(data)
    case Torn => []
    case Whole(r, n) => [r] + ReplayAll(data[n..])
  }

  lemma {:induction false} ReplayStep(file: Bytes, pos: nat, rs: seq<Replayed>)
    requires pos <= |file| && ReadRecord(file[pos..]).Whole?
    ensures var p := ReadRecord(file[pos..]);
            rs + ReplayAll(file[pos..]) == (rs + [p.record]) + ReplayAll(file[pos + p.length..])
  {
    var p := ReadRecord(file[pos..]);
    assert file[pos..][p.length..] == file[pos + p.length..];
  }

  lemma {:induction false} HeaderFields(r: LogRecord, data: Bytes)
    requires FitsRecord(r) && Header(r) <= data
    ensures data[0] == r.op && FromBigEndian(data[1..5]) == |r.key| && FromBigEndian(data[5..9]) == |r.value|
  {
    Widths();
    BigEndianRoundTrip(|r.key|, 4);
    BigEndianRoundTrip(|r.value|, 4);
    var h := Header(r);
    assert data[..9] == h;
    assert data[1..5] == h[1..5] == BigEndian(|r.key|, 4);
    assert data[5..9] == h[5..9] == BigEndian(|r.value|, 4);
  }

  /** A whole record is read back whatever follows it. */
  lemma {:induction false} WholeRecordReads(r: LogRecord, rest: Bytes)
    requires FitsRecord(r)
    ensures ReadRecord(EncodeRecord(r) + rest) == Whole(AsReplayed(r), |EncodeRecord(r)|)
  {
    var data := EncodeRecord(r) + rest;
    assert data[..9] == Header(r);
    HeaderFields(r, data);
    assert data[9..9 + |r.key|] == r.key;
    assert data[9 + |r.key|..9 + |r.key| + |r.value|] == r.value;
  }

  /** A record cut anywhere inside is not read. */
  lemma {:induction false} CutRecordIsTorn(r: LogRecord, cut: nat)
    requires FitsRecord(r) && cut < |EncodeRecord(r)|
    ensures ReadRecord(EncodeRecord(r)[..cut]) == Torn
  {
    var data := EncodeRecord(r)[..cut];
    if cut >= 9 {
      assert data[..9] == Header(r);
      HeaderFields(r, data);
    }
  }

  lemma {:induction false} ReplayCons(r: LogRecord, rest: Bytes)
    requires FitsRecord(r)
    ensures ReplayAll(EncodeRecord(r) + rest) == [AsReplayed(r)] + ReplayAll(rest)
  {
    WholeRecordReads(r, rest);
    assert (EncodeRecord(r) + rest)[|EncodeRecord(r)|..] == rest;
  }

  lemma {:induction false} ReplayCut(r: LogRecord, cut: nat)
    requires FitsRecord(r) && cut < |EncodeRecord(r)|
    ensures ReplayAll(EncodeRecord(r)[..cut]) == []
  {
    CutRecordIsTorn(r, cut);
  }

  predicate FitsLog(rs: seq<LogRecord>) {
    forall i :: 0 <= i < |rs| ==> FitsRecord(rs[i])
  }

  function AllReplayed(rs: seq<LogRecord>): (out: seq<Replayed>)
    ensures |out| == |rs| && forall i :: 0 <= i < |rs| ==> out[i] == AsReplayed(rs[i])
  {
    seq(|rs|, i requires 0 <= i < |rs| => AsReplayed(rs[i]))
  }

  /** How many records lie wholly before the cut. */
  function WholeBefore(rs: seq<LogRecord>, cut: nat): (j: nat)
    ensures j <= |rs|
  {
    if rs == [] || cut < |EncodeRecord(rs[0])| then 0
    else 1 + WholeBefore(rs[1..], cut - |EncodeRecord(rs[0])|)
  }

  lemma {:induction false} WholeBeforeIsMaximal(rs: seq<LogRecord>, cut: nat)
    ensures var j := WholeBefore(rs, cut);
            |EncodeLog(rs[..j])| <= cut && (j < |rs| ==> cut < |EncodeLog(rs[..j + 1])|)
  {
    if rs != [] && cut >= |EncodeRecord(rs[0])| {
      var rest := cut - |EncodeRecord(rs[0])|;
      WholeBeforeIsMaximal(rs[1..], rest);
      var j := WholeBefore(rs[1..], rest);
      assert rs[..j + 1][1..] == rs[1..][..j];
      if j < |rs[1..]| { assert rs[..j + 2][1..] == rs[1..][..j + 1]; }
    } else {
      assert rs[..0] == [];
      if rs != [] { assert rs[..1][1..] == []; }
    }
  }

  /** Torn tails: cut the log anywhere, and exactly the records wholly before the cut are replayed. */
  lemma {:induction false} ReplayStopsAtTheTear(rs: seq<LogRecord>, cut: nat)
    requires FitsLog(rs) && cut <= |EncodeLog(rs)|
    ensures ReplayAll(EncodeLog(rs)[..cut]) == AllReplayed(rs[..WholeBefore(rs, cut)])
  {
    if rs == [] {
      assert ReplayAll([]) == [];
    } else if cut < |EncodeRecord(rs[0])| {
      assert EncodeLog(rs)[..cut] == EncodeRecord(rs[0])[..cut];
      ReplayCut(rs[0], cut);
    } else {
      var n := |EncodeRecord(rs[0])|;
      var rest := EncodeLog(rs[1..])[..cut - n];
      assert EncodeLog(rs)[..cut] == EncodeRecord(rs[0]) + rest;
      ReplayCons(rs[0], rest);
      ReplayStopsAtTheTear(rs[1..], cut - n);
      ConsReplayed(rs, WholeBefore(rs[1..], cut - n));
    }
  }

  lemma {:induction false} ConsReplayed(rs: seq<LogRecord>, j: nat)
    requires rs != [] && j <= |rs| - 1
    ensures AllReplayed(rs[..j + 1]) == [AsReplayed(rs[0])] + AllReplayed(rs[1..][..j])
  {
    assert rs[..j + 1] == [rs[0]] + rs[1..][..j];
  }

  lemma {:induction false} EncodeLogAppend(a: seq<LogRecord>, b: seq<LogRecord>)
    ensures EncodeLog(a + b) == EncodeLog(a) + EncodeLog(b)
  {
    if a == [] {
      assert a + b == b;
    } else {
      assert (a + b)[1..] == a[1..] + b;
      EncodeLogAppend(a[1..], b);
    }
  }

  lemma {:induction false} PrefixIsShorter(rs: seq<LogRecord>, i: nat, j: nat)
    requires i <= j <= |rs|
    ensures |EncodeLog(rs[..i])| <= |EncodeLog(rs[..j])|
  {
    assert rs[..j] == rs[..i] + rs[i..j];
    EncodeLogAppend(rs[..i], rs[i..j]);
  }

  lemma {:induction false} AllAckedAreWhole(acked: seq<LogRecord>, inFlight: LogRecord, cut: nat)
    requires |EncodeLog(acked)| <= cut <= |EncodeLog(acked + [inFlight])|
    ensures WholeBefore(acked + [inFlight], cut) == if cut == |EncodeLog(acked + [inFlight])| then |acked| + 1 else |acked|
  {
    var all := acked + [inFlight];
    WholeBeforeIsMaximal(all, cut);
    var j := WholeBefore(all, cut);
    assert all[..|acked|] == acked && all[..|acked| + 1] == all;
    if j < |acked| {
      PrefixIsShorter(all, j + 1, |acked|);
      assert false;
    }
  }

  /** Crash during a write: everything acknowledged is replayed, and of the record in flight either
      all or nothing. */
  lemma {:induction false} AcknowledgedSurvive(acked: seq<LogRecord>, inFlight: LogRecord, cut: nat)
    requires FitsLog(acked) && FitsRecord(inFlight)
    requires |EncodeLog(acked)| <= cut <= |EncodeLog(acked + [inFlight])|
    ensures ReplayAll(EncodeLog(acked + [inFlight])[..cut]) ==
            AllReplayed(if cut == |EncodeLog(acked + [inFlight])| then acked + [inFlight] else acked)
  {
    var all := acked + [inFlight];
    ReplayStopsAtTheTear(all, cut);
    AllAckedAreWhole(acked, inFlight, cut);
    assert all[..|acked|] == acked && all[..|acked| + 1] == all;
  }
}
