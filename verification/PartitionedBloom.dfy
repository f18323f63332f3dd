/** The namespace-partitioned bloom filter of storage/zstorage/partitioned_bloom.go. */
module PartitionedBloom {
  import opened ByteStrings
  import Bloom

  const DEFAULT_SEP: byte := 58

  /** Where the separator first occurs; the length when it does not. */
  function IndexByte(key: Bytes, sep: byte): (i: nat)
    ensures i <= |key| && (i < |key| ==> key[i] == sep)
    ensures forall j :: 0 <= j < i ==> key[j] != sep
  {
    if key == [] || key[0] == sep then 0 else 1 + IndexByte(key[1..], sep)
  }

  function Namespace(key: Bytes, sep: byte): Bytes {
    var i := IndexByte(key, sep);
    if i < |key| then key[..i] else []
  }

  function Suffix(key: Bytes, sep: byte): Bytes {
    var i := IndexByte(key, sep);
    if i < |key| then key[i + 1..] else key
  }

  /** A key is its namespace, the first separator and its suffix; without a separator it is all suffix. */
  lemma {:induction false} KeySplits(key: Bytes, sep: byte)
    ensures if sep in key then key == Namespace(key, sep) + [sep] + Suffix(key, sep) && sep !in Namespace(key, sep)
            else Namespace(key, sep) == [] && Suffix(key, sep) == key
  {
  }

  datatype Partitioned = Partitioned(sep: byte, partitions: map<Bytes, Bloom.Filter>)

  predicate Valid(pb: Partitioned) {
    forall ns :: ns in pb.partitions ==> Bloom.ValidFilter(pb.partitions[ns])
  }

  predicate MayContain(pb: Partitioned, key: Bytes)
    requires Valid(pb)
  {
    var ns := Namespace(key, pb.sep);
    ns in pb.partitions && Bloom.MayContain(pb.partitions[ns], Suffix(key, pb.sep))
  }

  /** Past this many keys in one namespace the filter's encoding outgrows its 4-byte length. */
  const MAX_KEYS: nat := 3_584_000_000

  /** The size that NewBloomFilter computes for n keys at a false-positive rate of 1%: 64 bits, or
      -n * ln(0.01) / ln(2)^2 = n * 9.58505... bits, rounded up. */
  predicate SizedFor(f: Bloom.Filter, n: nat) {
    f.m <= 64 || 10000 * f.m <= 95851 * Max(1, n) + 10000
  }

  ghost predicate IsNew(f: Bloom.Filter, n: nat) {
    Bloom.ValidFilter(f) && SizedFor(f, n) && Bloom.IsBuiltFrom(f, {})
  }

  /** NewBloomFilter; the floating-point m and k are left open within SizedFor. */
  method NewFilter(n: nat) returns (f: Bloom.Filter)
    ensures IsNew(f, n)
  {
    var m: nat :| 64 <= m <= TWO64 - 64 && (m <= 64 || 10000 * m <= 95851 * Max(1, n) + 10000);
    var k: nat :| 1 <= k < TWO64;
    f := Bloom.Filter(seq(Bloom.WordCount(m), _ => 0), m, k);
    Bloom.ZeroHasNoBits(f);
  }

  lemma {:induction false} SizedIsSmall(f: Bloom.Filter, n: nat)
    requires Bloom.ValidFilter(f) && SizedFor(f, n)
    ensures 8 * |f.bits| <= 18 * Max(1, n)
    ensures n <= MAX_KEYS ==> 16 + 8 * |f.bits| < TWO32
  {
    assert 64 * |f.bits| <= f.m + 63;
  }

  function Namespaces(keys: seq<Bytes>, sep: byte): set<Bytes> {
    set k | k in keys :: Namespace(k, sep)
  }

  /** Sizes that the 4-byte length fields can hold. */
  predicate Encodable(pb: Partitioned) {
    && |pb.partitions| < TWO32
    && (forall ns :: ns in pb.partitions ==> FitsPart(ns, pb.partitions[ns]))
  }

  /** How many of the keys fall in a namespace. */
  function CountIn(keys: seq<Bytes>, ns: Bytes, sep: byte): (n: nat)
    ensures n <= |keys|
    ensures (exists i :: 0 <= i < |keys| && Namespace(keys[i], sep) == ns) ==> n > 0
  {
    if keys == [] then 0
    else
      var last := |keys| - 1;
      CountIn(keys[..last], ns, sep) + if Namespace(keys[last], sep) == ns then 1 else 0
  }

  /** Every filter is sized for the keys of its namespace. */
  ghost predicate Sized(pb: Partitioned, keys: seq<Bytes>) {
    && Valid(pb) && pb.partitions.Keys == Namespaces(keys, pb.sep)
    && (forall ns :: ns in pb.partitions ==> SizedFor(pb.partitions[ns], CountIn(keys, ns, pb.sep)))
  }

  function SuffixesIn(keys: seq<Bytes>, ns: Bytes, sep: byte): set<Bytes> {
    set k | k in keys && Namespace(k, sep) == ns :: Suffix(k, sep)
  }

  /** Every filter holds the bits of its namespace's keys, and no others. */
  ghost predicate IsBuiltFrom(pb: Partitioned, keys: seq<Bytes>)
    requires Valid(pb)
  {
    forall ns :: ns in pb.partitions ==> Bloom.IsBuiltFrom(pb.partitions[ns], SuffixesIn(keys, ns, pb.sep))
  }

  /** BuildPartitionedBloom: one filter per namespace present, no key of the set is vetoed, and no bit
      is set but those of the set's keys. */
  method Build(keys: seq<Bytes>, sep: byte) returns (pb: Partitioned)
    ensures Sized(pb, keys) && pb.sep == sep && IsBuiltFrom(pb, keys)
    ensures forall k :: k in keys ==> MayContain(pb, k)
  {
    var counts := CountNamespaces(keys, sep);
    var partitions := Create(counts);
    pb := Partitioned(sep, partitions);
    ghost var done: seq<Bytes> := [];
    NothingAdded(pb);
    for i := 0 to |keys|
      invariant done == keys[..i]
      invariant pb.sep == sep && Sized(pb, keys) && IsBuiltFrom(pb, done)
    {
      pb := AddNext(pb, keys[i], keys, done);
      done := done + [keys[i]];
    }
    assert done == keys;
    BuiltFindsAll(pb, keys);
  }

  lemma {:induction false} BuiltFindsAll(pb: Partitioned, keys: seq<Bytes>)
    requires Sized(pb, keys) && IsBuiltFrom(pb, keys)
    ensures forall k :: k in keys ==> MayContain(pb, k)
  {
    forall k | k in keys ensures MayContain(pb, k) {
      var ns := Namespace(k, pb.sep);
      assert ns in pb.partitions;
      Bloom.AddedIsFound(pb.partitions[ns], SuffixesIn(keys, ns, pb.sep), Suffix(k, pb.sep));
    }
  }

  lemma {:induction false} NothingAdded(pb: Partitioned)
    requires Valid(pb) && forall ns :: ns in pb.partitions ==> Bloom.IsBuiltFrom(pb.partitions[ns], {})
    ensures IsBuiltFrom(pb, [])
  {
    forall ns | ns in pb.partitions ensures Bloom.IsBuiltFrom(pb.partitions[ns], SuffixesIn([], ns, pb.sep)) {
      assert SuffixesIn([], ns, pb.sep) == {};
    }
  }

  method AddNext(pb: Partitioned, key: Bytes, keys: seq<Bytes>, ghost done: seq<Bytes>) returns (pb': Partitioned)
    requires Sized(pb, keys) && key in keys && IsBuiltFrom(pb, done)
    ensures pb'.sep == pb.sep && Sized(pb', keys) && IsBuiltFrom(pb', done + [key])
  {
    assert Namespace(key, pb.sep) in pb.partitions;
    pb' := AddKey(pb, key, |keys|);
    BuiltFromOneMore(pb, pb', done, key);
    AddKeepsSized(pb, pb', keys, key);
  }

  /** Only the filter of the key's namespace has changed. */
  ghost predicate AddsBits(pb: Partitioned, pb': Partitioned, key: Bytes)
    requires Valid(pb) && Valid(pb')
  {
    var ns := Namespace(key, pb.sep);
    && (forall n :: n in pb.partitions && n != ns ==> n in pb'.partitions && pb'.partitions[n] == pb.partitions[n])
    && ns in pb'.partitions
    && forall keys: set<Bytes> ::
         (if ns in pb.partitions then Bloom.IsBuiltFrom(pb.partitions[ns], keys) else keys == {}) ==>
         Bloom.IsBuiltFrom(pb'.partitions[ns], keys + {Suffix(key, pb.sep)})
  }

  lemma {:induction false} BuiltFromOneMore(pb: Partitioned, pb': Partitioned, keys: seq<Bytes>, key: Bytes)
    requires Valid(pb) && Valid(pb') && IsBuiltFrom(pb, keys) && AddsBits(pb, pb', key)
    requires pb'.sep == pb.sep && pb'.partitions.Keys == pb.partitions.Keys && Namespace(key, pb.sep) in pb.partitions
    ensures IsBuiltFrom(pb', keys + [key])
  {
    forall ns | ns in pb'.partitions
      ensures Bloom.IsBuiltFrom(pb'.partitions[ns], SuffixesIn(keys + [key], ns, pb.sep))
    {
      SuffixesOneMore(keys, key, ns, pb.sep);
    }
  }

  lemma {:induction false} SuffixesOneMore(keys: seq<Bytes>, key: Bytes, ns: Bytes, sep: byte)
    ensures SuffixesIn(keys + [key], ns, sep) ==
            SuffixesIn(keys, ns, sep) + if Namespace(key, sep) == ns then {Suffix(key, sep)} else {}
  {
    var all := keys + [key];
    assert forall k :: k in all <==> k in keys || k == key;
  }

  /** A built filter answers yes exactly when the key's namespace is there and each of the suffix's k
      probes meets a probe of one of the namespace's suffixes. */
  lemma {:induction false} BuiltAnswersByProbes(pb: Partitioned, keys: seq<Bytes>, q: Bytes)
    requires Valid(pb) && IsBuiltFrom(pb, keys)
    ensures var ns, s := Namespace(q, pb.sep), Suffix(q, pb.sep);
            MayContain(pb, q) <==>
              && ns in pb.partitions
              && var f := pb.partitions[ns];
                 forall i :: 0 <= i < f.k ==>
                   Bloom.Reached(SuffixesIn(keys, ns, pb.sep), f, Bloom.Probe(Bloom.Hash1(s), Bloom.Hash2(s), i, f.m))
  {
    var ns, s := Namespace(q, pb.sep), Suffix(q, pb.sep);
    if ns in pb.partitions {
      Bloom.AnswersByProbes(pb.partitions[ns], SuffixesIn(keys, ns, pb.sep), s);
    }
  }

  lemma {:induction false} AddKeepsSized(pb: Partitioned, pb': Partitioned, keys: seq<Bytes>, key: Bytes)
    requires Sized(pb, keys) && key in keys && Valid(pb') && pb'.sep == pb.sep
    requires pb'.partitions.Keys == pb.partitions.Keys + {Namespace(key, pb.sep)}
    requires forall ns :: ns in pb.partitions ==> pb'.partitions[ns].m == pb.partitions[ns].m
    ensures Sized(pb', keys)
  {
    assert Namespace(key, pb.sep) in pb.partitions;
  }

  /** How many keys each namespace has. */
  ghost predicate Counted(counts: map<Bytes, nat>, keys: seq<Bytes>, sep: byte) {
    && counts.Keys == Namespaces(keys, sep)
    && (forall ns :: CountIn(keys, ns, sep) == if ns in counts then counts[ns] else 0)
  }

  method CountNamespaces(keys: seq<Bytes>, sep: byte) returns (counts: map<Bytes, nat>)
    ensures Counted(counts, keys, sep)
  {
    counts := map[];
    ghost var done: seq<Bytes> := [];
    for i := 0 to |keys|
      invariant done == keys[..i] && Counted(counts, done, sep)
    {
      var ns := Namespace(keys[i], sep);
      CountOneMore(counts, done, keys[i], sep);
      counts := counts[ns := if ns in counts then counts[ns] + 1 else 1];
      done := done + [keys[i]];
    }
    assert done == keys;
  }

  lemma {:induction false} CountOneMore(counts: map<Bytes, nat>, keys: seq<Bytes>, key: Bytes, sep: byte)
    requires Counted(counts, keys, sep)
    ensures var ns := Namespace(key, sep);
            Counted(counts[ns := if ns in counts then counts[ns] + 1 else 1], keys + [key], sep)
  {
    assert (keys + [key])[..|keys|] == keys;
    assert Namespaces(keys + [key], sep) == Namespaces(keys, sep) + {Namespace(key, sep)};
  }

  lemma {:induction false} FewNamespaces(keys: seq<Bytes>, sep: byte)
    ensures |Namespaces(keys, sep)| <= |keys|
  {
    if keys != [] {
      var n := |keys| - 1;
      FewNamespaces(keys[..n], sep);
      assert keys == keys[..n] + [keys[n]];
      assert Namespaces(keys, sep) == Namespaces(keys[..n], sep) + {Namespace(keys[n], sep)};
    }
  }

  /** What Build builds fits its length fields. */
  lemma {:induction false} SizedIsEncodable(pb: Partitioned, keys: seq<Bytes>)
    requires Sized(pb, keys) && |keys| <= MAX_KEYS && forall k :: k in keys ==> |k| < TWO32
    ensures Encodable(pb)
  {
    FewNamespaces(keys, pb.sep);
    assert |pb.partitions| == |pb.partitions.Keys|;
    forall ns | ns in pb.partitions ensures FitsPart(ns, pb.partitions[ns]) {
      var k :| k in keys && Namespace(k, pb.sep) == ns;
      SizedIsSmall(pb.partitions[ns], CountIn(keys, ns, pb.sep));
    }
  }

  /** Nothing that was reported present is lost. */
  ghost predicate Grows(pb: Partitioned, pb': Partitioned)
    requires Valid(pb) && Valid(pb')
  {
    forall q :: MayContain(pb, q) ==> MayContain(pb', q)
  }

  /** Add: route the suffix to its namespace's filter, creating one for n keys if there is none. */
  method AddKey(pb: Partitioned, key: Bytes, n: nat) returns (pb': Partitioned)
    requires Valid(pb)
    ensures Valid(pb') && pb'.sep == pb.sep
    ensures pb'.partitions.Keys == pb.partitions.Keys + {Namespace(key, pb.sep)}
    ensures forall ns :: ns in pb'.partitions ==>
      if ns in pb.partitions then pb'.partitions[ns].m == pb.partitions[ns].m else SizedFor(pb'.partitions[ns], n)
    ensures MayContain(pb', key)
    ensures Grows(pb, pb') && AddsBits(pb, pb', key)
  {
    var ns := Namespace(key, pb.sep);
    var f;
    if ns in pb.partitions {
      f := pb.partitions[ns];
    } else {
      f := NewFilter(n);
    }
    var f' := Bloom.Add(f, Suffix(key, pb.sep));
    forall keys: set<Bytes> | Bloom.IsBuiltFrom(f, keys) ensures Bloom.IsBuiltFrom(f', keys + {Suffix(key, pb.sep)}) {
      Bloom.BuiltFromOneMore(f, f', keys, Suffix(key, pb.sep));
    }
    pb' := pb.(partitions := pb.partitions[ns := f']);
  }

  method Create(counts: map<Bytes, nat>) returns (partitions: map<Bytes, Bloom.Filter>)
    ensures partitions.Keys == counts.Keys
    ensures forall ns :: ns in partitions ==> IsNew(partitions[ns], counts[ns])
  {
    partitions := map[];
    var left := counts.Keys;
    while left != {}
      invariant left <= counts.Keys && partitions.Keys == counts.Keys - left
      invariant forall ns :: ns in partitions ==> IsNew(partitions[ns], counts[ns])
      decreases left
    {
      var ns :| ns in left;
      var f := NewFilter(counts[ns]);
      partitions := partitions[ns := f];
      left := left - {ns};
    }
  }

  // -------------------------------------------------------------- serialising

  function EncodePart(ns: Bytes, f: Bloom.Filter): Bytes {
    Chunk(ns) + Chunk(Bloom.EncodeFilter(f))
  }

  function EncodeParts(order: seq<Bytes>, parts: map<Bytes, Bloom.Filter>): Bytes
    requires forall ns :: ns in order ==> ns in parts
  {
    if order == [] then []
    else
      var n := |order| - 1;
      EncodeParts(order[..n], parts) + EncodePart(order[n], parts[order[n]])
  }

  /** order lists the namespaces, each once: an order in which Go may range over the map. */
  ghost predicate IsOrder(order: seq<Bytes>, keys: set<Bytes>) {
    && (forall ns :: ns in order <==> ns in keys)
    && (forall i, j :: 0 <= i < j < |order| ==> order[i] != order[j])
  }

  ghost predicate EncodedAs(blob: Bytes, pb: Partitioned, order: seq<Bytes>) {
    && IsOrder(order, pb.partitions.Keys)
    && blob == [pb.sep] + BigEndian(|pb.partitions|, 4) + EncodeParts(order, pb.partitions)
  }

  /** The blob is an encoding of the filter, up to the order of its partitions. */
  ghost predicate Encodes(blob: Bytes, pb: Partitioned) {
    exists order :: EncodedAs(blob, pb, order)
  }

  method Encode(pb: Partitioned) returns (blob: Bytes)
    ensures Encodes(blob, pb) && |blob| >= 5
  {
    var header := [pb.sep] + BigEndian(|pb.partitions|, 4);
    var body := [];
    var left := pb.partitions.Keys;
    ghost var order := [];
    while left != {}
      invariant left <= pb.partitions.Keys
      invariant IsOrder(order, pb.partitions.Keys - left)
      invariant body == EncodeParts(order, pb.partitions)
      decreases left
    {
      var ns :| ns in left;
      var enc := Bloom.WriteFilter(pb.partitions[ns]);
      body := body + (Chunk(ns) + Chunk(enc));
      left := left - {ns};
      assert (order + [ns])[..|order|] == order;
      order := order + [ns];
    }
    blob := header + body;
    assert EncodedAs(blob, pb, order);
  }

  datatype ParsedPart = Part(ns: Bytes, enc: Bytes, next: nat) | Bad

  function ReadPart(data: Bytes, pos: nat): ParsedPart {
    match ReadChunk(data, pos)
    case None => Bad
    case Some(ns) =>
      match ReadChunk(data, ns.next)
      case None => Bad
      case Some(enc) => Part(ns.bytes, enc.bytes, enc.next)
  }

  lemma {:induction false} PartReadsBack(data: Bytes, pos: nat, ns: Bytes, enc: Bytes)
    requires |ns| < TWO32 && |enc| < TWO32
    requires Has(data, pos, Chunk(ns) + Chunk(enc))
    ensures ReadPart(data, pos) == Part(ns, enc, pos + |Chunk(ns) + Chunk(enc)|)
  {
    HasSplit(data, pos, Chunk(ns), Chunk(enc));
    ChunkReadsBack(data, pos, ns);
    ChunkReadsBack(data, pos + 4 + |ns|, enc);
  }

  lemma {:induction false} PartsHavePrefix(data: Bytes, start: nat, order: seq<Bytes>, parts: map<Bytes, Bloom.Filter>, i: nat)
    requires (forall ns :: ns in order ==> ns in parts) && i < |order|
    requires Has(data, start, EncodeParts(order, parts))
    ensures EncodeParts(order[..i + 1], parts) == EncodeParts(order[..i], parts) + EncodePart(order[i], parts[order[i]])
    ensures Has(data, start + |EncodeParts(order[..i], parts)|, EncodePart(order[i], parts[order[i]]))
    ensures Has(data, start, EncodeParts(order[..i], parts))
    decreases |order| - i
  {
    assert order[..i + 1][..i] == order[..i];
    if i + 1 == |order| {
      assert order[..i + 1] == order;
    } else {
      PartsHavePrefix(data, start, order, parts, i + 1);
    }
    HasSplit(data, start, EncodeParts(order[..i], parts), EncodePart(order[i], parts[order[i]]));
  }

  /** At pos the data holds the encoding of filter f for namespace ns, up to next. */
  predicate PartAt(data: Bytes, pos: nat, ns: Bytes, f: Bloom.Filter, next: nat) {
    Bloom.ValidFilter(f) && ReadPart(data, pos) == Part(ns, Bloom.EncodeFilter(f), next)
  }

  /** Positions that lead a reader through the partitions. */
  predicate PartPath(data: Bytes, order: seq<Bytes>, parts: map<Bytes, Bloom.Filter>, offs: seq<nat>) {
    && |offs| == |order| + 1
    && (forall i :: 0 <= i < |order| ==>
          order[i] in parts && PartAt(data, offs[i], order[i], parts[order[i]], offs[i + 1]))
  }

  lemma {:induction false} PartsArePath(data: Bytes, start: nat, order: seq<Bytes>, parts: map<Bytes, Bloom.Filter>) returns (offs: seq<nat>)
    requires forall ns :: ns in order ==> ns in parts && FitsPart(ns, parts[ns])
    requires Has(data, start, EncodeParts(order, parts))
    ensures PartPath(data, order, parts, offs) && offs[0] == start
  {
    offs := seq(|order| + 1, i requires 0 <= i <= |order| => start + |EncodeParts(order[..i], parts)|);
    forall i | 0 <= i < |order|
      ensures order[i] in parts && PartAt(data, offs[i], order[i], parts[order[i]], offs[i + 1])
    {
      var ns := order[i];
      assert FitsPart(ns, parts[ns]);
      assert Has(data, offs[i], EncodePart(ns, parts[ns])) && offs[i + 1] == offs[i] + |EncodePart(ns, parts[ns])| by {
        PartsHavePrefix(data, start, order, parts, i);
      }
      PartIsAt(data, offs[i], ns, parts[ns]);
    }
  }

  predicate FitsPart(ns: Bytes, f: Bloom.Filter) {
    |ns| < TWO32 && Bloom.ValidFilter(f) && 16 + 8 * |f.bits| < TWO32
  }

  lemma {:induction false} PartIsAt(data: Bytes, pos: nat, ns: Bytes, f: Bloom.Filter)
    requires FitsPart(ns, f) && Has(data, pos, EncodePart(ns, f))
    ensures PartAt(data, pos, ns, f, pos + |EncodePart(ns, f)|)
  {
    PartReadsBack(data, pos, ns, Bloom.EncodeFilter(f));
  }

  /** DecodePartitionedBloom; any encoding of a filter gives that filter back. */
  method Decode(data: Bytes, ghost pb: Partitioned) returns (r: Option<Partitioned>)
    ensures Encodes(data, pb) && Encodable(pb) ==> r == Some(pb)
  {
    if |data| < 5 {
      return None;
    }
    ghost var order, offs := [], [];
    if Encodes(data, pb) && Encodable(pb) {
      order, offs := EncodingIsPath(data, pb);
    }
    var partCount := FromBigEndian(data[1..5]);
    var parts := DecodeParts(data, 5, partCount, order, pb.partitions, offs);
    match parts {
      case None => return None;
      case Some(p) =>
        r := Some(Partitioned(data[0], p));
    }
  }

  lemma {:induction false} EncodingIsPath(data: Bytes, pb: Partitioned) returns (order: seq<Bytes>, offs: seq<nat>)
    requires Encodes(data, pb) && Encodable(pb)
    ensures |data| >= 5 && data[0] == pb.sep && FromBigEndian(data[1..5]) == |order|
    ensures IsOrder(order, pb.partitions.Keys) && PartPath(data, order, pb.partitions, offs) && offs[0] == 5
  {
    order :| EncodedAs(data, pb, order);
    var count := BigEndian(|pb.partitions|, 4);
    assert data == [pb.sep] + count + EncodeParts(order, pb.partitions);
    assert data[1..5] == count;
    assert Has(data, 5, EncodeParts(order, pb.partitions));
    Widths();
    BigEndianRoundTrip(|pb.partitions|, 4);
    OrderCounts(order, pb.partitions.Keys);
    offs := PartsArePath(data, 5, order, pb.partitions);
  }

  lemma {:induction false} OrderCounts(order: seq<Bytes>, keys: set<Bytes>)
    requires IsOrder(order, keys)
    ensures |order| == |keys|
  {
    if order == [] {
      assert keys == {};
    } else {
      var n := |order| - 1;
      assert order[n] in order;
      forall ns ensures ns in order[..n] <==> ns in keys - {order[n]} {
        if ns in keys - {order[n]} {
          var i :| 0 <= i < |order| && order[i] == ns;
          assert order[..n][i] == ns;
        }
      }
      OrderCounts(order[..n], keys - {order[n]});
    }
  }

  method DecodePart(data: Bytes, pos: nat, ghost ns: Bytes, ghost f: Bloom.Filter, ghost next: nat)
    returns (ok: bool, ns': Bytes, f': Bloom.Filter, next': nat)
    ensures PartAt(data, pos, ns, f, next) ==> ok && ns' == ns && f' == f && next' == next
  {
    ok, ns', f', next' := false, [], Bloom.Filter([], 0, 0), pos;
    match ReadPart(data, pos) {
      case Bad => return;
      case Part(n, enc, after) =>
        var r := Bloom.ReadFilter(enc, f);
        if r.Some? {
          ok, ns', f', next' := true, n, r.value, after;
        }
    }
  }

  method DecodeParts(data: Bytes, start: nat, count: nat,
                     ghost order: seq<Bytes>, ghost want: map<Bytes, Bloom.Filter>, ghost offs: seq<nat>)
    returns (r: Option<map<Bytes, Bloom.Filter>>)
    ensures PartPath(data, order, want, offs) && start == offs[0] && count == |order| && IsOrder(order, want.Keys)
            ==> r == Some(want)
  {
    ghost var written := PartPath(data, order, want, offs) && start == offs[0] && count == |order| && IsOrder(order, want.Keys);
    var parts: map<Bytes, Bloom.Filter> := map[];
    var pos := start;
    for i := 0 to count
      invariant written ==> pos == offs[i] && Decoded(parts, order[..i], want)
    {
      ghost var ns0, f0, next0 := [], Bloom.Filter([], 0, 0), 0;
      if written {
        ns0, f0, next0 := order[i], want[order[i]], offs[i + 1];
        DecodedStep(parts, order, i, want);
      }
      var ok, ns, f, next := DecodePart(data, pos, ns0, f0, next0);
      if !ok {
        return None;
      }
      parts, pos := parts[ns := f], next;
    }
    if written {
      DecodedAll(parts, order, want);
    }
    return Some(parts);
  }

  ghost predicate Decoded(parts: map<Bytes, Bloom.Filter>, order: seq<Bytes>, want: map<Bytes, Bloom.Filter>) {
    && (forall ns :: ns in parts <==> ns in order)
    && (forall ns :: ns in parts ==> ns in want && parts[ns] == want[ns])
  }

  lemma {:induction false} DecodedStep(parts: map<Bytes, Bloom.Filter>, order: seq<Bytes>, i: nat, want: map<Bytes, Bloom.Filter>)
    requires i < |order| && order[i] in want && Decoded(parts, order[..i], want)
    ensures Decoded(parts[order[i] := want[order[i]]], order[..i + 1], want)
  {
    assert order[..i + 1] == order[..i] + [order[i]];
  }

  lemma {:induction false} DecodedAll(parts: map<Bytes, Bloom.Filter>, order: seq<Bytes>, want: map<Bytes, Bloom.Filter>)
    requires Decoded(parts, order[..|order|], want) && IsOrder(order, want.Keys)
    ensures parts == want
  {
    assert order[..|order|] == order;
  }

  // ----------------------------------------------------------- size of the blob

  /** Enough bytes for the keys' share of the encoding. */
  function Allowance(keys: seq<Bytes>): nat {
    if keys == [] then 0 else |keys[|keys| - 1]| + 42 + Allowance(keys[..|keys| - 1])
  }

  /** The keys outside a namespace. */
  function Outside(keys: seq<Bytes>, ns: Bytes, sep: byte): seq<Bytes> {
    if keys == [] then []
    else
      var n := |keys| - 1;
      Outside(keys[..n], ns, sep) + if Namespace(keys[n], sep) == ns then [] else [keys[n]]
  }

  lemma {:induction false} AllowanceSplits(keys: seq<Bytes>, ns: Bytes, sep: byte)
    ensures var c := CountIn(keys, ns, sep);
            Allowance(keys) >= Allowance(Outside(keys, ns, sep)) + if c == 0 then 0 else |ns| + 42 * c
  {
    if keys != [] {
      var n := |keys| - 1;
      AllowanceSplits(keys[..n], ns, sep);
      var rest := Outside(keys[..n], ns, sep);
      if Namespace(keys[n], sep) == ns {
        assert Outside(keys, ns, sep) == rest;
      } else {
        assert (rest + [keys[n]])[..|rest|] == rest;
      }
    }
  }

  lemma {:induction false} OutsideCounts(keys: seq<Bytes>, ns: Bytes, other: Bytes, sep: byte)
    requires ns != other
    ensures CountIn(Outside(keys, ns, sep), other, sep) == CountIn(keys, other, sep)
  {
    if keys != [] {
      var n := |keys| - 1;
      OutsideCounts(keys[..n], ns, other, sep);
      var rest := Outside(keys[..n], ns, sep);
      if Namespace(keys[n], sep) == ns {
        assert Outside(keys, ns, sep) == rest;
      } else {
        assert (rest + [keys[n]])[..|rest|] == rest;
      }
    }
  }

  /** Partitions of distinct namespaces together stay within the allowance of their keys. */
  lemma {:induction false} PartsAreSmall(order: seq<Bytes>, parts: map<Bytes, Bloom.Filter>, keys: seq<Bytes>, sep: byte)
    requires forall i, j :: 0 <= i < j < |order| ==> order[i] != order[j]
    requires forall ns :: ns in order ==>
      ns in parts && Bloom.ValidFilter(parts[ns]) && CountIn(keys, ns, sep) > 0 && SizedFor(parts[ns], CountIn(keys, ns, sep))
    ensures |EncodeParts(order, parts)| <= Allowance(keys)
    decreases |order|
  {
    if order != [] {
      var n := |order| - 1;
      var ns := order[n];
      assert ns in order;
      var rest := Outside(keys, ns, sep);
      AllowanceSplits(keys, ns, sep);
      SizedIsSmall(parts[ns], CountIn(keys, ns, sep));
      forall q | q in order[..n] ensures CountIn(rest, q, sep) == CountIn(keys, q, sep) {
        OutsideCounts(keys, ns, q, sep);
      }
      PartsAreSmall(order[..n], parts, rest, sep);
    }
  }

  /** The bloom section is linear in the keys. */
  lemma {:induction false} BlobIsSmall(blob: Bytes, pb: Partitioned, keys: seq<Bytes>)
    requires Encodes(blob, pb) && Sized(pb, keys)
    ensures |blob| <= 5 + Allowance(keys)
  {
    var order :| EncodedAs(blob, pb, order);
    forall ns | ns in order ensures CountIn(keys, ns, pb.sep) > 0 {
      var k :| k in keys && Namespace(k, pb.sep) == ns;
      var i :| 0 <= i < |keys| && keys[i] == k;
    }
    PartsAreSmall(order, pb.partitions, keys, pb.sep);
  }
}
