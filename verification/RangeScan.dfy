/** Range scans over the hot data: what ScanRange visits, and what KVServer.Scan collects. */
module RangeScan {
  import opened ByteStrings
  import opened Entries
  import opened Merge
  import opened Lsm

  datatype Hit = Hit(key: Key, value: Bytes)

  /** "dirty overridden by active", taken head by head. */
  function Overlay(a: Table, d: Table): Table
    decreases |a| + |d|
  {
    if a == [] && d == [] then []
    else if d == [] || (a != [] && Less(a[0].key, d[0].key)) then [a[0]] + Overlay(a[1..], d)
    else if a == [] || Less(d[0].key, a[0].key) then [d[0]] + Overlay(a, d[1..])
    else [a[0]] + Overlay(a[1..], d[1..])
  }

  /** The closed range; an empty bound is no bound. */
  predicate InRange(k: Key, start: Key, end: Key) {
    !Less(k, start) && (end == [] || !Less(end, k))
  }

  function HitOf(e: Entry, start: Key, end: Key): seq<Hit> {
    if InRange(e.key, start, end) && e.value.Some? then [Hit(e.key, e.value.value)] else []
  }

  function LiveIn(t: Table, start: Key, end: Key): seq<Hit> {
    if t == [] then []
    else HitOf(t[0], start, end) + LiveIn(t[1..], start, end)
  }

  /** The callback folded over the hits until it says stop. */
  function Visit<A>(fn: (A, Key, Bytes) -> (A, bool), acc: A, hits: seq<Hit>): A
    decreases |hits|
  {
    if hits == [] then acc
    else
      var (acc', go) := fn(acc, hits[0].key, hits[0].value);
      if go then Visit(fn, acc', hits[1..]) else acc'
  }

  function DirtyTable(s: State): Table {
    if s.dirty.Some? then s.dirty.value else []
  }

  /** What a scan of the hot data has to visit. */
  function HotHits(s: State, start: Key, end: Key): seq<Hit> {
    LiveIn(Overlay(s.active, DirtyTable(s)), start, end)
  }

  // ------------------------------------------------------------ the overlay

  lemma {:induction false} NewestOfTwo(d: Table, a: Table, k: Key)
    ensures Newest([d, a], k) == if Lookup(a, k).Some? then Lookup(a, k) else Lookup(d, k)
  {
    assert [d, a][..1] == [d];
    assert [d][..0] == [];
  }

  lemma {:induction false} OverlayAnswers(a: Table, d: Table, k: Key)
    requires Sorted(a) && Sorted(d)
    ensures Lookup(Overlay(a, d), k) == if Lookup(a, k).Some? then Lookup(a, k) else Lookup(d, k)
    decreases |a| + |d|
  {
    if a == [] && d == [] {
    } else if d == [] || (a != [] && Less(a[0].key, d[0].key)) {
      OverlayAnswers(a[1..], d, k);
      LookupCons(a[0], Overlay(a[1..], d), k);
      LookupCons(a[0], a[1..], k);
    } else if a == [] || Less(d[0].key, a[0].key) {
      OverlayAnswers(a, d[1..], k);
      LookupCons(d[0], Overlay(a, d[1..]), k);
      LookupCons(d[0], d[1..], k);
      if k == d[0].key {
        AbsentBelowHead(a, k);
      }
    } else {
      CompareFlips(a[0].key, d[0].key);
      OverlayAnswers(a[1..], d[1..], k);
      LookupCons(a[0], Overlay(a[1..], d[1..]), k);
      LookupCons(a[0], a[1..], k);
      LookupCons(d[0], d[1..], k);
    }
  }

  lemma {:induction false} LookupCons(e: Entry, t: Table, k: Key)
    ensures Lookup([e] + t, k) == if e.key == k then Some(e.value) else Lookup(t, k)
  {
    assert ([e] + t)[1..] == t;
  }

  lemma {:induction false} OverlayIsSorted(a: Table, d: Table)
    requires Sorted(a) && Sorted(d)
    ensures Sorted(Overlay(a, d))
    ensures forall e :: e in Overlay(a, d) ==> e in a || e in d
    decreases |a| + |d|
  {
    if a == [] && d == [] {
    } else if d == [] || (a != [] && Less(a[0].key, d[0].key)) {
      OverlayIsSorted(a[1..], d);
      HeadIsLeast(a[0], a[1..], d, Overlay(a[1..], d));
    } else if a == [] || Less(d[0].key, a[0].key) {
      OverlayIsSorted(a, d[1..]);
      HeadIsLeast(d[0], d[1..], a, Overlay(a, d[1..]));
    } else {
      CompareFlips(a[0].key, d[0].key);
      OverlayIsSorted(a[1..], d[1..]);
      HeadIsLeast(a[0], a[1..], d[1..], Overlay(a[1..], d[1..]));
    }
  }

  /** An entry below both heads may go in front. */
  lemma {:induction false} HeadIsLeast(e: Entry, t: Table, u: Table, rest: Table)
    requires Sorted(rest) && Sorted(u) && forall f :: f in rest ==> f in t || f in u
    requires forall f :: f in t ==> Less(e.key, f.key)
    requires u != [] ==> Less(e.key, u[0].key)
    ensures Sorted([e] + rest)
  {
    forall f | f in rest ensures Less(e.key, f.key) {
      if f in u && f != u[0] {
        LessIsTransitive(e.key, u[0].key, f.key);
      }
    }
    SortedCons(e, rest);
  }

  /** The overlay is the newest-wins merge of dirty and active, each key once. */
  lemma {:induction false} OverlayIsMerge(a: Table, d: Table)
    requires Sorted(a) && Sorted(d)
    ensures IsMerge(Overlay(a, d), [d, a])
  {
    OverlayIsSorted(a, d);
    forall k ensures Lookup(Overlay(a, d), k) == Newest([d, a], k) {
      OverlayAnswers(a, d, k);
      NewestOfTwo(d, a, k);
    }
  }

  // ---------------------------------------------------------------- the hits

  ghost predicate AscendingHits(hits: seq<Hit>) {
    forall i, j :: 0 <= i < j < |hits| ==> Less(hits[i].key, hits[j].key)
  }

  /** Exactly the live entries in range, in ascending order. */
  lemma {:induction false} LiveInIsExact(t: Table, start: Key, end: Key)
    requires Sorted(t)
    ensures AscendingHits(LiveIn(t, start, end))
    ensures forall k, v :: Hit(k, v) in LiveIn(t, start, end) <==> InRange(k, start, end) && Lookup(t, k) == Some(Some(v))
  {
    if t != [] {
      var rest := LiveIn(t[1..], start, end);
      LiveInIsExact(t[1..], start, end);
      forall h | h in rest ensures Less(t[0].key, h.key) {
        assert Hit(h.key, h.value) in rest;
        assert Lookup(t[1..], h.key) == Some(Some(h.value));
        var i :| 0 <= i < |t[1..]| && t[1..][i].key == h.key;
        assert t[i + 1].key == h.key;
      }
      forall k, v
        ensures Hit(k, v) in LiveIn(t, start, end) <==> InRange(k, start, end) && Lookup(t, k) == Some(Some(v))
      {
        assert Hit(k, v) in rest <==> InRange(k, start, end) && Lookup(t[1..], k) == Some(Some(v));
      }
    }
  }

  /** A scan sees what Get sees, for every key that is in memory at all. */
  lemma {:induction false} ScanAgreesWithGet(s: State, start: Key, end: Key)
    requires Inv(s)
    ensures AscendingHits(HotHits(s, start, end))
    ensures forall k, v :: Hit(k, v) in HotHits(s, start, end) <==>
      InRange(k, start, end) && Lsm.Get(s, k) == Some(v) &&
      (Lookup(s.active, k).Some? || Lookup(DirtyTable(s), k).Some?)
  {
    var t := Overlay(s.active, DirtyTable(s));
    OverlayIsSorted(s.active, DirtyTable(s));
    LiveInIsExact(t, start, end);
    forall k, v
      ensures Hit(k, v) in LiveIn(t, start, end) <==>
        InRange(k, start, end) && Lsm.Get(s, k) == Some(v) &&
        (Lookup(s.active, k).Some? || Lookup(DirtyTable(s), k).Some?)
    {
      OverlayAnswers(s.active, DirtyTable(s), k);
      assert Hit(k, v) in LiveIn(t, start, end) <==> InRange(k, start, end) && Lookup(t, k) == Some(Some(v));
    }
  }

  // ------------------------------------------------------ where a scan starts

  predicate HeadBelow(t: Table, start: Key) {
    t != [] && Less(t[0].key, start)
  }

  lemma {:induction false} StartInTail(t: Table, start: Key)
    requires HeadBelow(t, start)
    ensures t[LowerBound(t, start)..] == t[1..][LowerBound(t[1..], start)..]
  {
  }

  /** If either head is below start, the one that the overlay takes first is. */
  lemma {:induction false} FirstIsBelow(a: Table, d: Table, start: Key)
    requires HeadBelow(a, start) || HeadBelow(d, start)
    ensures HeadBelow(Overlay(a, d), start)
    ensures a != [] && d != [] && a[0].key == d[0].key ==> HeadBelow(a, start) && HeadBelow(d, start)
    ensures a != [] && (d == [] || Less(a[0].key, d[0].key)) ==> HeadBelow(a, start)
    ensures d != [] && (a == [] || Less(d[0].key, a[0].key)) ==> HeadBelow(d, start)
  {
    if a != [] && d != [] {
      CompareFlips(a[0].key, d[0].key);
      if Less(a[0].key, d[0].key) && HeadBelow(d, start) {
        LessIsTransitive(a[0].key, d[0].key, start);
      } else if Less(d[0].key, a[0].key) && HeadBelow(a, start) {
        LessIsTransitive(d[0].key, a[0].key, start);
      }
    }
  }

  /** Starting at the first nodes not below start misses nothing. */
  lemma {:induction false} SkipBelowStart(a: Table, d: Table, start: Key, end: Key)
    requires Sorted(a) && Sorted(d)
    ensures LiveIn(Overlay(a, d), start, end) ==
            LiveIn(Overlay(a[LowerBound(a, start)..], d[LowerBound(d, start)..]), [], end)
    decreases |a| + |d|
  {
    if HeadBelow(a, start) || HeadBelow(d, start) {
      FirstIsBelow(a, d, start);
      if d == [] || (a != [] && Less(a[0].key, d[0].key)) {
        SkipBelowStart(a[1..], d, start, end);
        StartInTail(a, start);
      } else if a == [] || Less(d[0].key, a[0].key) {
        SkipBelowStart(a, d[1..], start, end);
        StartInTail(d, start);
      } else {
        CompareFlips(a[0].key, d[0].key);
        SkipBelowStart(a[1..], d[1..], start, end);
        StartInTail(a, start);
        StartInTail(d, start);
      }
    } else {
      assert a[0..] == a && d[0..] == d;
      OverlayIsSorted(a, d);
      SameFromStart(Overlay(a, d), start, end);
    }
  }

  lemma {:induction false} SameFromStart(t: Table, start: Key, end: Key)
    requires Sorted(t) && !HeadBelow(t, start)
    ensures LiveIn(t, start, end) == LiveIn(t, [], end)
  {
    if |t| > 1 && Less(t[1].key, start) {
      LessIsTransitive(t[0].key, t[1].key, start);
    }
    if t != [] {
      SameFromStart(t[1..], start, end);
    }
  }

  // -------------------------------------------------------- where a scan ends

  /** Past the upper bound there is nothing left to visit. */
  lemma {:induction false} NothingPastEnd(t: Table, end: Key)
    requires Sorted(t) && t != [] && end != [] && Less(end, t[0].key)
    ensures LiveIn(t, [], end) == []
  {
    if |t| > 1 {
      LessIsTransitive(end, t[0].key, t[1].key);
      NothingPastEnd(t[1..], end);
    }
  }

  lemma {:induction false} OverlayAt(a: Table, d: Table, i: nat, j: nat)
    requires i <= |a| && j <= |d| && (i < |a| || j < |d|)
    ensures Overlay(a[i..], d[j..]) ==
            if j == |d| || (i < |a| && Less(a[i].key, d[j].key)) then [a[i]] + Overlay(a[i + 1..], d[j..])
            else if i == |a| || Less(d[j].key, a[i].key) then [d[j]] + Overlay(a[i..], d[j + 1..])
            else [a[i]] + Overlay(a[i + 1..], d[j + 1..])
  {
    if i < |a| { assert a[i..][1..] == a[i + 1..]; }
    if j < |d| { assert d[j..][1..] == d[j + 1..]; }
  }

  /** One turn of ScanRange's loop. */
  lemma {:induction false} VisitHead<A>(fn: (A, Key, Bytes) -> (A, bool), acc: A, e: Entry, rest: Table, end: Key)
    requires Sorted([e] + rest)
    ensures Visit(fn, acc, LiveIn([e] + rest, [], end)) ==
      if end != [] && Compare(e.key, end) > 0 then acc
      else if e.value == None then Visit(fn, acc, LiveIn(rest, [], end))
      else
        var (acc', go) := fn(acc, e.key, e.value.value);
        if go then Visit(fn, acc', LiveIn(rest, [], end)) else acc'
  {
    var all := [e] + rest;
    assert all[1..] == rest;
    CompareFlips(e.key, end);
    if end != [] && Compare(e.key, end) > 0 {
      NothingPastEnd(all, end);
    } else if e.value.Some? {
      var h := Hit(e.key, e.value.value);
      assert LiveIn(all, [], end) == [h] + LiveIn(rest, [], end);
      assert ([h] + LiveIn(rest, [], end))[1..] == LiveIn(rest, [], end);
    } else {
      assert [] + LiveIn(rest, [], end) == LiveIn(rest, [], end);
    }
  }

  // ------------------------------------------------------------ KVServer.Scan

  function Matching(pred: Bytes -> bool, hits: seq<Hit>): seq<Hit> {
    if hits == [] then []
    else (if pred(hits[0].value) then [hits[0]] else []) + Matching(pred, hits[1..])
  }

  function FirstOf(hits: seq<Hit>, max: nat): seq<Hit> {
    if |hits| <= max then hits else hits[..max]
  }

  /** Scan's callback. */
  function Collect(pred: Bytes -> bool, max: nat): (seq<Hit>, Key, Bytes) -> (seq<Hit>, bool) {
    (out, k, v) => if !pred(v) then (out, true) else (out + [Hit(k, v)], |out| + 1 < max)
  }

  /** The scan stops exactly when the cap is reached. */
  lemma {:induction false} CollectsTheFirst(pred: Bytes -> bool, max: nat, out: seq<Hit>, hits: seq<Hit>)
    requires |out| < max
    ensures Visit(Collect(pred, max), out, hits) == FirstOf(out + Matching(pred, hits), max)
    decreases |hits|
  {
    if hits == [] {
      assert out + [] == out;
    } else {
      var h := hits[0];
      assert Hit(h.key, h.value) == h;
      var rest := Matching(pred, hits[1..]);
      if pred(h.value) {
        assert out + ([h] + rest) == (out + [h]) + rest;
        if |out| + 1 < max {
          CollectsTheFirst(pred, max, out + [h], hits[1..]);
        }
      } else {
        assert [] + rest == rest;
        CollectsTheFirst(pred, max, out, hits[1..]);
      }
    }
  }

  /** h is in the closed range, is the newest in-memory version of its key, and passes the predicate. */
  ghost predicate IsMatch(s: State, start: Key, end: Key, pred: Bytes -> bool, h: Hit) {
    && !Less(h.key, start) && (end == [] || !Less(end, h.key)) && pred(h.value)
    && (|| Lookup(s.active, h.key) == Some(Some(h.value))
        || (Lookup(s.active, h.key) == None && s.dirty.Some? && Lookup(s.dirty.value, h.key) == Some(Some(h.value))))
  }

  /** out holds the first matches, at most max of them, in key order. */
  ghost predicate IsScan(s: State, start: Key, end: Key, pred: Bytes -> bool, max: nat, out: seq<Hit>) {
    && (forall i, j :: 0 <= i < j < |out| ==> Less(out[i].key, out[j].key))
    && |out| <= max
    && (forall h :: h in out ==> IsMatch(s, start, end, pred, h))
    && (forall h :: IsMatch(s, start, end, pred, h) && h !in out ==>
          |out| == max && forall g :: g in out ==> Less(g.key, h.key))
  }

  lemma {:induction false} HotHitsMatch(s: State, start: Key, end: Key, pred: Bytes -> bool)
    requires Sorted(s.active) && Sorted(DirtyTable(s))
    ensures AscendingHits(HotHits(s, start, end))
    ensures forall h :: IsMatch(s, start, end, pred, h) <==> h in HotHits(s, start, end) && pred(h.value)
  {
    var t := Overlay(s.active, DirtyTable(s));
    OverlayIsSorted(s.active, DirtyTable(s));
    LiveInIsExact(t, start, end);
    forall h ensures IsMatch(s, start, end, pred, h) <==> h in HotHits(s, start, end) && pred(h.value) {
      OverlayAnswers(s.active, DirtyTable(s), h.key);
      assert Hit(h.key, h.value) == h;
    }
  }

  lemma {:induction false} MatchingIsExact(pred: Bytes -> bool, hits: seq<Hit>)
    requires AscendingHits(hits)
    ensures AscendingHits(Matching(pred, hits))
    ensures forall h :: h in Matching(pred, hits) <==> h in hits && pred(h.value)
  {
    if hits != [] {
      assert hits == [hits[0]] + hits[1..];
      MatchingIsExact(pred, hits[1..]);
    }
  }

  lemma {:induction false} FirstOfIsFirst(hits: seq<Hit>, max: nat)
    requires AscendingHits(hits)
    ensures var out := FirstOf(hits, max);
            && AscendingHits(out) && |out| <= max && (forall h :: h in out ==> h in hits)
            && (forall h :: h in hits && h !in out ==> |out| == max && forall g :: g in out ==> Less(g.key, h.key))
  {
    var out := FirstOf(hits, max);
    assert forall i :: 0 <= i < |out| ==> out[i] == hits[i];
    forall h, g | h in hits && h !in out && g in out ensures Less(g.key, h.key) {
      var i :| 0 <= i < |hits| && hits[i] == h;
      var j :| 0 <= j < |out| && out[j] == g;
    }
  }

  lemma {:induction false} FirstMatchesAreScan(s: State, start: Key, end: Key, pred: Bytes -> bool, max: nat)
    requires Sorted(s.active) && Sorted(DirtyTable(s))
    ensures IsScan(s, start, end, pred, max, FirstOf(Matching(pred, HotHits(s, start, end)), max))
  {
    var hits := HotHits(s, start, end);
    HotHitsMatch(s, start, end, pred);
    MatchingIsExact(pred, hits);
    FirstOfIsFirst(Matching(pred, hits), max);
  }
}
