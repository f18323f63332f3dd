/** Tables: the sorted entry lists that every component of the engine reads and writes. */
module Entries {
  import opened ByteStrings

  type Key = Bytes

  /** None is Go's nil value, the tombstone; Some([]) is a live empty value. */
  type Value = Option<Bytes>

  datatype Entry = Entry(key: Key, value: Value)

  type Table = seq<Entry>

  predicate Sorted(t: Table) {
    forall i, j :: 0 <= i < j < |t| ==> Less(t[i].key, t[j].key)
  }

  /** Linear search: None when the key is absent, Some(None) for a tombstone. */
  function Lookup(t: Table, k: Key): (r: Option<Value>)
    ensures r == None <==> forall i :: 0 <= i < |t| ==> t[i].key != k
  {
    if t == [] then None
    else if t[0].key == k then Some(t[0].value)
    else
      assert forall i :: 0 < i < |t| ==> t[i] == t[1..][i - 1];
      Lookup(t[1..], k)
  }

  lemma {:induction false} LookupAt(t: Table, i: nat)
    requires Sorted(t) && i < |t|
    ensures Lookup(t, t[i].key) == Some(t[i].value)
  {
    if i > 0 {
      assert Less(t[0].key, t[i].key);
      LookupAt(t[1..], i - 1);
    }
  }

  lemma {:induction false} LookupAppend(s: Table, t: Table, k: Key)
    ensures Lookup(s + t, k) == if Lookup(s, k).Some? then Lookup(s, k) else Lookup(t, k)
  {
    if s == [] {
      assert s + t == t;
    } else {
      assert (s + t)[1..] == s[1..] + t;
      LookupAppend(s[1..], t, k);
    }
  }

  /** Two sorted tables with the same answers are the same list. */
  lemma {:induction false} SortedIsCanonical(s: Table, t: Table)
    requires Sorted(s) && Sorted(t)
    requires forall k :: Lookup(s, k) == Lookup(t, k)
    ensures s == t
  {
    if s == [] || t == [] {
      var k := if s != [] then s[0].key else if t != [] then t[0].key else [];
      assert Lookup(s, k) == Lookup(t, k);
    } else {
      LessIsTotalOrder();
      assert Lookup(s, s[0].key).Some? && Lookup(t, t[0].key).Some?;
      var i :| 0 <= i < |t| && t[i].key == s[0].key;
      var j :| 0 <= j < |s| && s[j].key == t[0].key;
      assert s[0].key == t[0].key;
      forall k ensures Lookup(s[1..], k) == Lookup(t[1..], k) {
        assert Lookup(s, k) == Lookup(t, k);
        if k == s[0].key {
          assert Lookup(s[1..], k) == None && Lookup(t[1..], k) == None;
        }
      }
      SortedIsCanonical(s[1..], t[1..]);
      assert s == [s[0]] + s[1..] && t == [t[0]] + t[1..];
      assert Lookup(s, s[0].key) == Lookup(t, s[0].key);
    }
  }

  /** Where the first key not below k sits: the node that firstGTE returns. */
  function LowerBound(t: Table, k: Key): (p: nat)
    ensures p <= |t|
    ensures forall i :: 0 <= i < p ==> Less(t[i].key, k)
    ensures p < |t| ==> !Less(t[p].key, k)
  {
    if t == [] || !Less(t[0].key, k) then 0 else 1 + LowerBound(t[1..], k)
  }

  lemma {:induction false} LowerBoundIsUnique(t: Table, k: Key, p: nat)
    requires p <= |t|
    requires forall i :: 0 <= i < p ==> Less(t[i].key, k)
    requires p < |t| ==> !Less(t[p].key, k)
    ensures LowerBound(t, k) == p
  {
  }

  predicate HasAt(t: Table, p: nat, k: Key) {
    p < |t| && t[p].key == k
  }

  /** The sorted table after one write. */
  function Insert(t: Table, k: Key, v: Value): Table {
    if t == [] then [Entry(k, v)]
    else if Less(t[0].key, k) then [t[0]] + Insert(t[1..], k, v)
    else if t[0].key == k then [Entry(k, v)] + t[1..]
    else [Entry(k, v)] + t
  }

  /** The same write by position: replace in place, or splice in. */
  lemma {:induction false} InsertIsSplice(t: Table, k: Key, v: Value)
    ensures var p := LowerBound(t, k);
            Insert(t, k, v) == if HasAt(t, p, k) then t[p := Entry(k, v)] else Splice(t, p, Entry(k, v))
  {
    var e := Entry(k, v);
    if t == [] {
    } else if Less(t[0].key, k) {
      var p := LowerBound(t[1..], k);
      InsertIsSplice(t[1..], k, v);
      assert t == [t[0]] + t[1..];
      if HasAt(t[1..], p, k) {
        assert [t[0]] + t[1..][p := e] == t[p + 1 := e];
      } else {
        SpliceCons(t[0], t[1..], p, e);
      }
    } else if t[0].key != k {
      SpliceCons(t[0], t, 0, e);
    }
  }

  lemma {:induction false} SearchAtLowerBound(t: Table, k: Key)
    requires Sorted(t)
    ensures var p := LowerBound(t, k);
            Lookup(t, k) == if HasAt(t, p, k) then Some(t[p].value) else None
  {
    LessIsTotalOrder();
    var p := LowerBound(t, k);
    if HasAt(t, p, k) {
      LookupAt(t, p);
    } else {
      forall i | 0 <= i < |t| ensures t[i].key != k {
        if p < i { assert Less(t[p].key, t[i].key); }
      }
    }
  }

  lemma {:induction false} InsertKeepsSorted(t: Table, k: Key, v: Value)
    requires Sorted(t)
    ensures Sorted(Insert(t, k, v))
    ensures forall e :: e in Insert(t, k, v) ==> e in t || e == Entry(k, v)
  {
    if t == [] {
    } else if Less(t[0].key, k) {
      InsertKeepsSorted(t[1..], k, v);
      SortedCons(t[0], Insert(t[1..], k, v));
    } else if t[0].key == k {
      SortedCons(Entry(k, v), t[1..]);
    } else {
      CompareFlips(t[0].key, k);
      forall e | e in t ensures Less(k, e.key) {
        if e != t[0] {
          LessIsTransitive(k, t[0].key, e.key);
        }
      }
      SortedCons(Entry(k, v), t);
    }
  }

  lemma {:induction false} SortedCons(e: Entry, t: Table)
    requires Sorted(t) && forall f :: f in t ==> Less(e.key, f.key)
    ensures Sorted([e] + t)
  {
    var u := [e] + t;
    forall i, j | 0 <= i < j < |u| ensures Less(u[i].key, u[j].key) {
      assert u[j] == t[j - 1];
    }
  }

  /** A write changes the answer for its own key and for no other. */
  lemma {:induction false} LookupAfterInsert(t: Table, k: Key, v: Value, q: Key)
    requires Sorted(t)
    ensures Lookup(Insert(t, k, v), q) == if q == k then Some(v) else Lookup(t, q)
  {
    if t != [] && Less(t[0].key, k) {
      LookupAfterInsert(t[1..], k, v, q);
      assert Insert(t, k, v)[1..] == Insert(t[1..], k, v);
    } else if t != [] && t[0].key == k {
      assert Insert(t, k, v)[1..] == t[1..];
    } else {
      assert Insert(t, k, v)[1..] == t;
    }
  }

  // -------------------------------------------------------------- byte sizes

  function ValueLen(v: Value): nat {
    if v.None? then 0 else |v.value|
  }

  function EntryLen(e: Entry): nat {
    |e.key| + ValueLen(e.value)
  }

  /** Key plus value bytes, the quantity that byteSize tracks. */
  function TotalBytes(t: Table): nat {
    if t == [] then 0 else EntryLen(t[0]) + TotalBytes(t[1..])
  }

  lemma {:induction false} TotalBytesAppend(t: Table, e: Entry)
    ensures TotalBytes(t + [e]) == TotalBytes(t) + EntryLen(e)
  {
    if t != [] {
      assert (t + [e])[1..] == t[1..] + [e];
      TotalBytesAppend(t[1..], e);
    }
  }

  /** The change in byte size that one write causes. */
  function InsertDelta(t: Table, k: Key, v: Value): int {
    var p := LowerBound(t, k);
    if HasAt(t, p, k) then ValueLen(v) - ValueLen(t[p].value) else |k| + ValueLen(v)
  }

  /** The delta by what the table held: the new bytes, less the old value's on an overwrite. */
  lemma {:induction false} DeltaIsGrowth(t: Table, k: Key, v: Value)
    requires Sorted(t)
    ensures var n := if v.Some? then |v.value| else 0;
            InsertDelta(t, k, v) == match Lookup(t, k) case None => |k| + n
                                                       case Some(None) => n
                                                       case Some(Some(b)) => n - |b|
  {
    SearchAtLowerBound(t, k);
  }

  lemma {:induction false} TotalBytesAfterInsert(t: Table, k: Key, v: Value)
    ensures TotalBytes(Insert(t, k, v)) == TotalBytes(t) + InsertDelta(t, k, v)
    ensures InsertDelta(t, k, v) <= |k| + ValueLen(v)
  {
    if t != [] && Less(t[0].key, k) {
      TotalBytesAfterInsert(t[1..], k, v);
      assert Insert(t, k, v)[1..] == Insert(t[1..], k, v);
    } else if t != [] && t[0].key == k {
      assert Insert(t, k, v)[1..] == t[1..];
    } else {
      assert Insert(t, k, v)[1..] == t;
    }
  }
}
