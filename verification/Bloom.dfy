/** The bloom filters of storage/zstorage/bloom.go and partitioned_bloom.go. */
module Bloom {
  import opened ByteStrings

  // ------------------------------------------------------------------- hashes

  const FNV_OFFSET: nat := 14695981039346656037
  const FNV_PRIME: nat := 1099511628211

  /** Bitwise exclusive or of the n low bits. */
  function Xor(a: nat, b: nat, n: nat): nat {
    if n == 0 then 0 else (if a % 2 == b % 2 then 0 else 1) + 2 * Xor(a / 2, b / 2, n - 1)
  }

  lemma {:induction false} XorIsBitwise(a: nat, b: nat, n: nat, i: nat)
    ensures Bit(Xor(a, b, n), i) <==> i < n && Bit(a, i) != Bit(b, i)
  {
    if n == 0 {
      NoBit(i);
    } else if i > 0 {
      XorIsBitwise(a / 2, b / 2, n - 1, i - 1);
    }
  }

  function FnvFold(h: nat, data: Bytes): nat {
    if data == [] then h
    else Xor(FnvFold(h, data[..|data| - 1]), data[|data| - 1], 64) * FNV_PRIME % TWO64
  }

  lemma {:induction false} FnvAppend(h: nat, a: Bytes, b: Bytes)
    ensures FnvFold(h, a + b) == FnvFold(FnvFold(h, a), b)
    ensures |b| == 1 ==> FnvFold(h, a + b) == Xor(FnvFold(h, a), b[0], 64) * 1099511628211 % 0x1_0000_0000_0000_0000
  {
    if b == [] {
      assert a + b == a;
    } else {
      var n := |b| - 1;
      assert (a + b)[..|a + b| - 1] == a + b[..n];
      FnvAppend(h, a, b[..n]);
      if n == 0 {
        assert a + b[..n] == a;
      }
    }
  }

  /** fnvOffset64 ^ seed for the two seeds in use, 0 and bloomSeed2. */
  const START1: nat := FNV_OFFSET
  const START2: nat := 6180598255448514352

  lemma {:induction false} StartsAreSeeded()
    ensures (14695981039346656037 as bv64) ^ (0x9e37_79b9_7f4a_7c15 as bv64) == (6180598255448514352 as bv64)
  {
  }

  /** hashPair: FNV-1a under the two seeds. */
  function Hash1(key: Bytes): nat {
    FnvFold(START1, key)
  }

  function Hash2(key: Bytes): nat {
    FnvFold(START2, key)
  }

  /** The pair of hashes: it starts from the two seeds and takes one round for every byte. */
  lemma {:induction false} HashesGrow(key: Bytes, c: byte)
    ensures Hash1([]) == 14695981039346656037 && Hash2([]) == 6180598255448514352
    ensures Hash1(key + [c]) == Xor(Hash1(key), c, 64) * 1099511628211 % 0x1_0000_0000_0000_0000
    ensures Hash2(key + [c]) == Xor(Hash2(key), c, 64) * 1099511628211 % 0x1_0000_0000_0000_0000
  {
    FnvAppend(START1, key, [c]);
    FnvAppend(START2, key, [c]);
  }

  method Fnv1a(data: Bytes, start: nat) returns (h: nat)
    ensures h == FnvFold(start, data)
  {
    h := start;
    for i := 0 to |data|
      invariant h == FnvFold(start, data[..i])
    {
      assert data[..i + 1][..i] == data[..i];
      h := Xor(h, data[i], 64);
      h := h * FNV_PRIME % TWO64;
    }
    assert data[..|data|] == data;
  }

  // --------------------------------------------------------------------- bits

  function Bit(w: nat, i: nat): bool {
    if i == 0 then w % 2 == 1 else Bit(w / 2, i - 1)
  }

  /** Bit i is the binary digit of weight 2^i. */
  lemma {:induction false} BitIsDigit(w: nat, i: nat)
    ensures Pow2(i) > 0 && (Bit(w, i) <==> w / Pow2(i) % 2 == 1)
  {
    if i > 0 {
      BitIsDigit(w / 2, i - 1);
      DivideTwice(w, 2, Pow2(i - 1));
    }
  }

  /** w | (1 << i) */
  function SetBit(w: nat, i: nat): nat {
    if i == 0 then w - w % 2 + 1 else w % 2 + 2 * SetBit(w / 2, i - 1)
  }

  lemma {:induction false} BitAfterSet(w: nat, i: nat, j: nat)
    ensures Bit(SetBit(w, i), j) <==> i == j || Bit(w, j)
  {
    if i == 0 {
      assert (w - w % 2 + 1) / 2 == w / 2;
    } else {
      var rest := SetBit(w / 2, i - 1);
      assert (w % 2 + 2 * rest) / 2 == rest && (w % 2 + 2 * rest) % 2 == w % 2;
      if j > 0 {
        BitAfterSet(w / 2, i - 1, j - 1);
      }
    }
  }

  function Pow2(n: nat): nat {
    if n == 0 then 1 else 2 * Pow2(n - 1)
  }

  lemma {:induction false} SetBitStaysBelow(w: nat, i: nat, n: nat)
    requires w < Pow2(n) && i < n
    ensures SetBit(w, i) < Pow2(n)
  {
    var half := Pow2(n - 1);
    assert Pow2(n) == 2 * half && w / 2 < half;
    if i > 0 {
      SetBitStaysBelow(w / 2, i - 1, n - 1);
      assert SetBit(w / 2, i - 1) < half;
    }
  }

  lemma {:induction false} Pow2Of64()
    ensures Pow2(64) == TWO64
  {
    assert Pow2(4) == 16;
    Pow2Adds(4, 4);
    Pow2Adds(8, 8);
    Pow2Adds(16, 16);
    Pow2Adds(32, 32);
  }

  lemma {:induction false} Pow2Adds(a: nat, b: nat)
    ensures Pow2(a + b) == Pow2(a) * Pow2(b)
  {
    if a > 0 {
      Pow2Adds(a - 1, b);
      assert Pow2(a + b) == 2 * Pow2(a - 1 + b);
    }
  }

  predicate Words(bits: seq<nat>) {
    forall i :: 0 <= i < |bits| ==> bits[i] < TWO64
  }

  function BitAt(bits: seq<nat>, pos: nat): bool
    requires pos < 64 * |bits|
  {
    Bit(bits[pos / 64], pos % 64)
  }

  // ------------------------------------------------------------------ filters

  datatype Filter = Filter(bits: seq<nat>, m: nat, k: nat)

  /** uint64 arithmetic: (m + 63) / 64. */
  function WordCount(m: nat): nat {
    (m + 63) % TWO64 / 64
  }

  predicate ValidSize(m: nat, k: nat) {
    0 < m <= TWO64 - 64 && 0 < k < TWO64
  }

  predicate ValidFilter(f: Filter) {
    ValidSize(f.m, f.k) && |f.bits| == WordCount(f.m) && Words(f.bits)
  }

  /** The positions of the first n probes: (h1 + i*h2) % m in uint64 arithmetic. */
  function Positions(h1: nat, h2: nat, m: nat, n: nat): (ps: seq<nat>)
    requires m > 0
    ensures |ps| == n
    ensures forall i :: 0 <= i < n ==> ps[i] < m
  {
    if n == 0 then [] else Positions(h1, h2, m, n - 1) + [Probe(h1, h2, n - 1, m)]
  }

  function Probe(h1: nat, h2: nat, i: nat, m: nat): (pos: nat)
    requires m > 0
    ensures pos < m
  {
    (h1 + i * h2) % TWO64 % m
  }

  lemma {:induction false} PositionsExtend(h1: nat, h2: nat, m: nat, i: nat, n: nat)
    requires m > 0 && i <= n
    ensures Positions(h1, h2, m, n)[..i] == Positions(h1, h2, m, i)
    decreases n
  {
    if i < n {
      PositionsExtend(h1, h2, m, i, n - 1);
    }
  }

  /** Probe i of n, in uint64 arithmetic. */
  lemma {:induction false} PositionIs(h1: nat, h2: nat, m: nat, n: nat, i: nat)
    requires m > 0 && i < n
    ensures Positions(h1, h2, m, n)[i] == (h1 + i * h2) % 0x1_0000_0000_0000_0000 % m
  {
    PositionsExtend(h1, h2, m, i + 1, n);
    assert Positions(h1, h2, m, n)[..i + 1][i] == Probe(h1, h2, i, m);
  }

  lemma {:induction false} PositionInRange(m: nat, words: nat, pos: nat)
    requires 0 < m <= TWO64 - 64 && words == WordCount(m) && pos < m
    ensures pos < 64 * words
  {
  }

  /** Every probe of the key hits a set bit. */
  predicate MayContain(f: Filter, key: Bytes)
    requires ValidFilter(f)
  {
    AllSet(f.bits, Positions(Hash1(key), Hash2(key), f.m, f.k))
  }

  predicate AllSet(bits: seq<nat>, ps: seq<nat>) {
    forall i :: 0 <= i < |ps| ==> ps[i] < 64 * |bits| && BitAt(bits, ps[i])
  }

  method QueryFilter(f: Filter, key: Bytes) returns (r: bool)
    requires ValidFilter(f)
    ensures r == MayContain(f, key)
  {
    var h1 := Fnv1a(key, START1);
    var h2 := Fnv1a(key, START2);
    r := QueryProbes(f, h1, h2);
  }

  method QueryProbes(f: Filter, h1: nat, h2: nat) returns (r: bool)
    requires ValidFilter(f)
    ensures r == AllSet(f.bits, Positions(h1, h2, f.m, f.k))
  {
    ghost var ps := Positions(h1, h2, f.m, f.k);
    for i := 0 to f.k
      invariant AllSet(f.bits, ps[..i])
    {
      var pos := Probe(h1, h2, i, f.m);
      PositionsExtend(h1, h2, f.m, i + 1, f.k);
      assert pos == ps[..i + 1][i] == ps[i];
      PositionInRange(f.m, |f.bits|, pos);
      if !Bit(f.bits[pos / 64], pos % 64) {
        return false;
      }
    }
    assert ps[..f.k] == ps;
    return true;
  }

  /** Setting one bit of the word array in place. */
  method SetPosition(bits: array<nat>, pos: nat)
    requires pos < 64 * bits.Length && Words(bits[..])
    modifies bits
    ensures Words(bits[..])
    ensures forall p :: 0 <= p < 64 * bits.Length ==> (BitAt(bits[..], p) <==> p == pos || BitAt(old(bits[..]), p))
  {
    Pow2Of64();
    SetBitStaysBelow(bits[pos / 64], pos % 64, 64);
    forall j: nat { BitAfterSet(bits[pos / 64], pos % 64, j); }
    bits[pos / 64] := SetBit(bits[pos / 64], pos % 64);
    forall p | 0 <= p < 64 * bits.Length
      ensures BitAt(bits[..], p) <==> p == pos || BitAt(old(bits[..]), p)
    {
    }
  }

  /** Add's loop, on the bit array in place: exactly the k probed positions are set, none is cleared. */
  method AddInPlace(bits: array<nat>, m: nat, k: nat, h1: nat, h2: nat)
    requires ValidSize(m, k) && bits.Length == WordCount(m) && Words(bits[..])
    modifies bits
    ensures Words(bits[..])
    ensures forall p :: 0 <= p < 64 * bits.Length ==>
      (BitAt(bits[..], p) <==> BitAt(old(bits[..]), p) || p in Positions(h1, h2, m, k))
  {
    for i := 0 to k
      invariant Words(bits[..])
      invariant forall p :: 0 <= p < 64 * bits.Length ==>
        (BitAt(bits[..], p) <==> BitAt(old(bits[..]), p) || p in Positions(h1, h2, m, i))
    {
      var pos := Probe(h1, h2, i, m);
      assert Positions(h1, h2, m, i + 1) == Positions(h1, h2, m, i) + [pos];
      PositionInRange(m, bits.Length, pos);
      SetPosition(bits, pos);
    }
  }

  /** Some key's probes reach bit p. */
  ghost predicate Reached(keys: set<Bytes>, f: Filter, p: nat)
    requires ValidFilter(f)
  {
    exists key :: key in keys && p in Positions(Hash1(key), Hash2(key), f.m, f.k)
  }

  /** The bits set are those that the keys' probes reach, and no others. */
  ghost predicate IsBuiltFrom(f: Filter, keys: set<Bytes>)
    requires ValidFilter(f)
  {
    forall p :: 0 <= p < 64 * |f.bits| ==> (BitAt(f.bits, p) <==> Reached(keys, f, p))
  }

  lemma {:induction false} ZeroHasNoBits(f: Filter)
    requires ValidFilter(f) && forall i :: 0 <= i < |f.bits| ==> f.bits[i] == 0
    ensures IsBuiltFrom(f, {})
  {
    forall i: nat ensures !Bit(0, i) {
      NoBit(i);
    }
  }

  lemma {:induction false} NoBit(i: nat)
    ensures !Bit(0, i)
  {
    if i > 0 {
      NoBit(i - 1);
    }
  }

  /** A filter answers yes exactly when each of the key's k probes meets a probe of an added key. */
  lemma {:induction false} AnswersByProbes(f: Filter, keys: set<Bytes>, q: Bytes)
    requires ValidFilter(f) && IsBuiltFrom(f, keys)
    ensures MayContain(f, q) <==> forall i :: 0 <= i < f.k ==> Reached(keys, f, Probe(Hash1(q), Hash2(q), i, f.m))
  {
    var ps := Positions(Hash1(q), Hash2(q), f.m, f.k);
    forall i | 0 <= i < f.k
      ensures ps[i] == Probe(Hash1(q), Hash2(q), i, f.m) && ps[i] < 64 * |f.bits|
    {
      PositionIs(Hash1(q), Hash2(q), f.m, f.k, i);
      PositionInRange(f.m, |f.bits|, ps[i]);
    }
  }

  /** So no added key is ever rejected. */
  lemma {:induction false} AddedIsFound(f: Filter, keys: set<Bytes>, key: Bytes)
    requires ValidFilter(f) && IsBuiltFrom(f, keys) && key in keys
    ensures MayContain(f, key)
  {
    var ps := Positions(Hash1(key), Hash2(key), f.m, f.k);
    forall i | 0 <= i < f.k ensures ps[i] < 64 * |f.bits| && BitAt(f.bits, ps[i]) {
      PositionInRange(f.m, |f.bits|, ps[i]);
      assert ps[i] in ps;
    }
  }

  /** A filter without a set bit rejects every key. */
  lemma {:induction false} ZeroRejects(f: Filter, q: Bytes)
    requires ValidFilter(f) && forall i :: 0 <= i < |f.bits| ==> f.bits[i] == 0
    ensures !MayContain(f, q)
  {
    ZeroHasNoBits(f);
    AnswersByProbes(f, {}, q);
    assert !Reached({}, f, Probe(Hash1(q), Hash2(q), 0, f.m));
  }

  /** One more key: its probes' bits join those of the keys before. */
  lemma {:induction false} BuiltFromOneMore(f: Filter, f': Filter, keys: set<Bytes>, key: Bytes)
    requires ValidFilter(f) && ValidFilter(f') && f'.m == f.m && f'.k == f.k && IsBuiltFrom(f, keys)
    requires forall p :: 0 <= p < 64 * |f.bits| ==>
      (BitAt(f'.bits, p) <==> BitAt(f.bits, p) || p in Positions(Hash1(key), Hash2(key), f.m, f.k))
    ensures IsBuiltFrom(f', keys + {key})
  {
    forall p | 0 <= p < 64 * |f'.bits| ensures BitAt(f'.bits, p) <==> Reached(keys + {key}, f', p) {
      assert BitAt(f.bits, p) <==> Reached(keys, f, p);
      if Reached(keys, f, p) {
        var q :| q in keys && p in Positions(Hash1(q), Hash2(q), f.m, f.k);
        assert q in keys + {key};
      }
      assert key in keys + {key};
    }
  }

  method Add(f: Filter, key: Bytes) returns (f': Filter)
    requires ValidFilter(f)
    ensures ValidFilter(f') && f'.m == f.m && f'.k == f.k
    ensures forall p :: 0 <= p < 64 * |f.bits| ==>
      (BitAt(f'.bits, p) <==> BitAt(f.bits, p) || p in Positions(Hash1(key), Hash2(key), f.m, f.k))
    ensures MayContain(f', key)
    ensures forall q :: MayContain(f, q) ==> MayContain(f', q)
  {
    var h1 := Fnv1a(key, START1);
    var h2 := Fnv1a(key, START2);
    var bits := new nat[|f.bits|](i requires 0 <= i < |f.bits| => f.bits[i]);
    assert bits[..] == f.bits;
    AddInPlace(bits, f.m, f.k, h1, h2);
    f' := f.(bits := bits[..]);
    ghost var ps := Positions(h1, h2, f.m, f.k);
    forall i | 0 <= i < |ps| ensures ps[i] < 64 * |f'.bits| && BitAt(f'.bits, ps[i]) {
      PositionInRange(f.m, |f.bits|, ps[i]);
    }
    assert AllSet(f'.bits, ps);
  }

  // -------------------------------------------------------------- serialising

  function EncodeWords(bits: seq<nat>): (s: Bytes)
    ensures |s| == 8 * |bits|
  {
    if bits == [] then [] else EncodeWords(bits[..|bits| - 1]) + BigEndian(bits[|bits| - 1], 8)
  }

  /** [m 8][k 8][bits...] */
  function EncodeFilter(f: Filter): (s: Bytes)
    ensures |s| == 16 + 8 * |f.bits|
  {
    BigEndian(f.m, 8) + BigEndian(f.k, 8) + EncodeWords(f.bits)
  }

  method WriteFilter(f: Filter) returns (out: Bytes)
    ensures out == EncodeFilter(f)
  {
    out := BigEndian(f.m, 8) + BigEndian(f.k, 8);
    ghost var header := out;
    for i := 0 to |f.bits|
      invariant out == header + EncodeWords(f.bits[..i])
    {
      assert f.bits[..i + 1][..i] == f.bits[..i];
      out := out + BigEndian(f.bits[i], 8);
    }
    assert f.bits[..|f.bits|] == f.bits;
  }

  /** DecodeBloomFilter; on what Encode wrote it gives the filter back, and it accepts nothing but the
      encoding of what it returns. */
  method ReadFilter(data: Bytes, ghost f: Filter) returns (r: Option<Filter>)
    ensures r.Some? ==> r.value.m > 0 && r.value.k > 0 && |r.value.bits| == WordCount(r.value.m)
    ensures r.Some? ==> data == EncodeFilter(r.value)
    ensures ValidFilter(f) && data == EncodeFilter(f) ==> r == Some(f)
  {
    if |data| < 16 {
      return None;
    }
    if ValidFilter(f) && data == EncodeFilter(f) {
      HeaderReadsBack(f);
    }
    var m, k := FromBigEndian(data[0..8]), FromBigEndian(data[8..16]);
    var words := WordCount(m);
    if k == 0 || m == 0 || |data| - 16 != words * 8 {
      return None;
    }
    var bits := ReadWords(data, words);
    r := Some(Filter(bits, m, k));
    AcceptedIsEncoding(data, r.value);
    if ValidFilter(f) && data == EncodeFilter(f) {
      forall i | 0 <= i < words ensures bits[i] == f.bits[i] {
        WordReadsBack(f, i);
      }
      assert bits == f.bits;
    }
  }

  method ReadWords(data: Bytes, words: nat) returns (bits: seq<nat>)
    requires |data| == 16 + 8 * words
    ensures |bits| == words && forall i :: 0 <= i < words ==> bits[i] == FromBigEndian(data[16 + 8 * i..24 + 8 * i])
    ensures EncodeWords(bits) == data[16..]
  {
    bits := [];
    for i := 0 to words
      invariant |bits| == i && forall j :: 0 <= j < i ==> bits[j] == FromBigEndian(data[16 + 8 * j..24 + 8 * j])
      invariant EncodeWords(bits) == data[16..16 + 8 * i]
    {
      WordsOneMore(bits, data[16..16 + 8 * i], data[16 + 8 * i..24 + 8 * i]);
      bits := bits + [FromBigEndian(data[16 + 8 * i..24 + 8 * i])];
      assert data[16..16 + 8 * (i + 1)] == data[16..16 + 8 * i] + data[16 + 8 * i..24 + 8 * i];
    }
    assert data[16..16 + 8 * words] == data[16..];
  }

  lemma {:induction false} AcceptedIsEncoding(data: Bytes, f: Filter)
    requires |data| >= 16 && f.m == FromBigEndian(data[0..8]) && f.k == FromBigEndian(data[8..16])
    requires EncodeWords(f.bits) == data[16..]
    ensures data == EncodeFilter(f)
  {
    BigEndianOfRead(data[0..8]);
    BigEndianOfRead(data[8..16]);
    assert data == data[0..8] + data[8..16] + data[16..];
  }

  lemma {:induction false} WordsOneMore(bits: seq<nat>, s: Bytes, w: Bytes)
    requires EncodeWords(bits) == s && |w| == 8
    ensures EncodeWords(bits + [FromBigEndian(w)]) == s + w
  {
    BigEndianOfRead(w);
    assert (bits + [FromBigEndian(w)])[..|bits|] == bits;
  }

  lemma {:induction false} HeaderReadsBack(f: Filter)
    requires ValidFilter(f)
    ensures FromBigEndian(EncodeFilter(f)[0..8]) == f.m && FromBigEndian(EncodeFilter(f)[8..16]) == f.k
  {
    Widths();
    BigEndianRoundTrip(f.m, 8);
    BigEndianRoundTrip(f.k, 8);
    assert EncodeFilter(f)[0..8] == BigEndian(f.m, 8);
    assert EncodeFilter(f)[8..16] == BigEndian(f.k, 8);
  }

  lemma {:induction false} WordReadsBack(f: Filter, i: nat)
    requires ValidFilter(f) && i < |f.bits|
    ensures FromBigEndian(EncodeFilter(f)[16 + 8 * i..24 + 8 * i]) == f.bits[i]
  {
    Widths();
    BigEndianRoundTrip(f.bits[i], 8);
    WordAt(f.bits, i);
    var words := EncodeWords(f.bits);
    assert EncodeFilter(f)[16 + 8 * i..24 + 8 * i] == words[8 * i..8 * i + 8];
  }

  lemma {:induction false} WordAt(bits: seq<nat>, i: nat)
    requires i < |bits|
    ensures EncodeWords(bits)[8 * i..8 * i + 8] == BigEndian(bits[i], 8)
  {
    var n := |bits| - 1;
    var front, last := EncodeWords(bits[..n]), BigEndian(bits[n], 8);
    assert EncodeWords(bits) == front + last;
    if i < n {
      WordAt(bits[..n], i);
      assert (front + last)[8 * i..8 * i + 8] == front[8 * i..8 * i + 8];
    } else {
      assert (front + last)[8 * n..8 * n + 8] == last;
    }
  }
}
