/** The byte strings in order of length, numbered from 0, and the least bytes that distinct keys take. */
module ShortestKeys {
  import opened ByteStrings
  import opened Entries

  /** The i-th byte string: the empty one, the 256 single bytes, the 65536 pairs, and so on. */
  function KeyAt(i: nat): (k: Key)
    ensures |k| == LengthAt(i)
  {
    if i == 0 then [] else KeyAt((i - 1) / 256) + [(i - 1) % 256]
  }

  function LengthAt(i: nat): nat {
    if i == 0 then 0 else 1 + LengthAt((i - 1) / 256)
  }

  function NumberOf(k: Key): nat {
    if k == [] then 0 else 256 * NumberOf(k[..|k| - 1]) + k[|k| - 1] + 1
  }

  lemma {:induction false} NumberOfKeyAt(i: nat)
    ensures NumberOf(KeyAt(i)) == i
  {
    if i > 0 {
      var k := KeyAt((i - 1) / 256);
      NumberOfKeyAt((i - 1) / 256);
      assert KeyAt(i)[..|k|] == k;
    }
  }

  lemma {:induction false} KeyAtNumber(k: Key)
    ensures KeyAt(NumberOf(k)) == k
  {
    if k != [] {
      var n := |k| - 1;
      KeyAtNumber(k[..n]);
      assert (NumberOf(k) - 1) / 256 == NumberOf(k[..n]) && (NumberOf(k) - 1) % 256 == k[n];
      assert k[..n] + [k[n]] == k;
    }
  }

  /** Later strings are no shorter. */
  lemma {:induction false} LengthsRise(i: nat, j: nat)
    requires i <= j
    ensures LengthAt(i) <= LengthAt(j)
  {
    if i > 0 {
      LengthsRise((i - 1) / 256, (j - 1) / 256);
    }
  }

  /** What the first n byte strings take together. */
  function LeastBytes(n: nat): nat {
    if n == 0 then 0 else LeastBytes(n - 1) + LengthAt(n - 1)
  }

  // -------------------------------------------------------------- a lower bound

  predicate DistinctNumbers(ns: seq<nat>) {
    forall i, j :: 0 <= i < j < |ns| ==> ns[i] != ns[j]
  }

  function Lengths(ns: seq<nat>): nat {
    if ns == [] then 0 else Lengths(ns[..|ns| - 1]) + LengthAt(ns[|ns| - 1])
  }

  lemma {:induction false} LengthsSplit(a: seq<nat>, b: seq<nat>)
    ensures Lengths(a + b) == Lengths(a) + Lengths(b)
  {
    if b == [] {
      assert a + b == a;
    } else {
      var n := |b| - 1;
      assert (a + b)[..|a| + n] == a + b[..n];
      LengthsSplit(a, b[..n]);
    }
  }

  /** Of distinct numbers, one is at least their count less one. */
  lemma {:induction false} SomeIsLarge(ns: seq<nat>, bound: nat) returns (i: nat)
    requires ns != [] && DistinctNumbers(ns) && bound < |ns|
    ensures i < |ns| && ns[i] >= bound
  {
    if forall j :: 0 <= j < |ns| ==> ns[j] < bound {
      TooMany(ns, bound);
      assert false;
    }
    i :| i < |ns| && ns[i] >= bound;
  }

  lemma {:induction false} TooMany(ns: seq<nat>, bound: nat)
    requires DistinctNumbers(ns) && forall j :: 0 <= j < |ns| ==> ns[j] < bound
    ensures |ns| <= bound
    decreases bound
  {
    if ns != [] {
      assert ns[0] < bound;
      if j: nat :| j < |ns| && ns[j] == bound - 1 {
        var rest := ns[..j] + ns[j + 1..];
        forall l | 0 <= l < |rest| ensures rest[l] < bound - 1 {
          assert rest[l] == ns[if l < j then l else l + 1];
        }
        TooMany(rest, bound - 1);
      } else {
        TooMany(ns, bound - 1);
      }
    }
  }

  lemma {:induction false} LeastBytesIsLeast(ns: seq<nat>)
    requires DistinctNumbers(ns)
    ensures Lengths(ns) >= LeastBytes(|ns|)
    decreases |ns|
  {
    if ns != [] {
      var n := |ns| - 1;
      var i := SomeIsLarge(ns, n);
      var rest := ns[..i] + ns[i + 1..];
      LeastBytesIsLeast(rest);
      LengthsRise(n, ns[i]);
      assert ns == ns[..i] + [ns[i]] + ns[i + 1..];
      LengthsSplit(ns[..i], [ns[i]]);
      LengthsSplit(ns[..i] + [ns[i]], ns[i + 1..]);
      LengthsSplit(ns[..i], ns[i + 1..]);
      assert [ns[i]][..0] == [];
    }
  }

  function Numbers(t: Table): (ns: seq<nat>)
    ensures |ns| == |t| && forall i :: 0 <= i < |t| ==> ns[i] == NumberOf(t[i].key)
  {
    seq(|t|, i requires 0 <= i < |t| => NumberOf(t[i].key))
  }

  lemma {:induction false} NumbersTake(t: Table)
    ensures Lengths(Numbers(t)) <= TotalBytes(t)
  {
    if t != [] {
      var n := |t| - 1;
      NumbersTake(t[..n]);
      assert Numbers(t)[..n] == Numbers(t[..n]);
      assert t == t[..n] + [t[n]];
      TotalBytesAppend(t[..n], t[n]);
      KeyAtNumber(t[n].key);
    }
  }

  /** A table of n keys takes at least the bytes of the n shortest. */
  lemma {:induction false} TableTakesLeast(t: Table)
    requires Sorted(t)
    ensures TotalBytes(t) >= LeastBytes(|t|)
  {
    var ns := Numbers(t);
    LessIsTotalOrder();
    forall i, j | 0 <= i < j < |ns| ensures ns[i] != ns[j] {
      KeyAtNumber(t[i].key);
      KeyAtNumber(t[j].key);
      assert Less(t[i].key, t[j].key);
    }
    LeastBytesIsLeast(ns);
    NumbersTake(t);
  }

  // -------------------------------------------------------- and it is attained

  /** The n shortest keys, without values. */
  function Shortest(n: nat): Table {
    if n == 0 then [] else Insert(Shortest(n - 1), KeyAt(n - 1), None)
  }

  lemma {:induction false} ShortestAttains(n: nat)
    ensures Sorted(Shortest(n)) && |Shortest(n)| == n && TotalBytes(Shortest(n)) == LeastBytes(n)
  {
    if n > 0 {
      var t, k := Shortest(n - 1), KeyAt(n - 1);
      ShortestAttains(n - 1);
      NumberOfKeyAt(n - 1);
      ShortestIsSorted(n - 1);
      ShortestHold(n - 1, k);
      InsertKeepsSorted(t, k, None);
      InsertsNew(t, k);
      TotalBytesAfterInsert(t, k, None);
    }
  }

  lemma {:induction false} ShortestHold(n: nat, k: Key)
    requires forall m: nat :: m <= n ==> Sorted(Shortest(m))
    ensures Lookup(Shortest(n), k).Some? ==> NumberOf(k) < n
  {
    if n > 0 {
      ShortestHold(n - 1, k);
      NumberOfKeyAt(n - 1);
      LookupAfterInsert(Shortest(n - 1), KeyAt(n - 1), None, k);
    }
  }

  lemma {:induction false} ShortestIsSorted(n: nat)
    ensures forall m: nat :: m <= n ==> Sorted(Shortest(m))
  {
    if n > 0 {
      ShortestIsSorted(n - 1);
      InsertKeepsSorted(Shortest(n - 1), KeyAt(n - 1), None);
    }
  }

  lemma {:induction false} InsertsNew(t: Table, k: Key)
    requires Sorted(t) && Lookup(t, k) == None
    ensures |Insert(t, k, None)| == |t| + 1 && InsertDelta(t, k, None) == |k|
  {
    SearchAtLowerBound(t, k);
    InsertIsSplice(t, k, None);
  }
}
