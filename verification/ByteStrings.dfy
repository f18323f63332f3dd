/** Byte strings: the order of bytes.Compare and fixed-width integers as bytes. */
module ByteStrings {

  datatype Option<+T> = None | Some(value: T)

  type byte = b: int | 0 <= b < 256

  type Bytes = seq<byte>

  const TWO32: nat := 0x1_0000_0000
  const TWO63: nat := 0x8000_0000_0000_0000
  const TWO64: nat := 0x1_0000_0000_0000_0000

  /** bytes.Compare: lexicographic, -1, 0 or 1. */
  function Compare(a: Bytes, b: Bytes): (c: int)
    ensures c == 0 <==> a == b
  {
    if a == [] || b == [] then
      if a == b then 0 else if a == [] then -1 else 1
    else if a[0] != b[0] then
      if a[0] < b[0] then -1 else 1
    else
      assert a == [a[0]] + a[1..] && b == [b[0]] + b[1..];
      Compare(a[1..], b[1..])
  }

  predicate Less(a: Bytes, b: Bytes) {
    Compare(a, b) < 0
  }

  lemma {:induction false} CompareFlips(a: Bytes, b: Bytes)
    ensures Compare(b, a) == -Compare(a, b)
  {
    if a != [] && b != [] && a[0] == b[0] {
      CompareFlips(a[1..], b[1..]);
    }
  }

  lemma {:induction false} LessIsTransitive(a: Bytes, b: Bytes, c: Bytes)
    requires Less(a, b) && Less(b, c)
    ensures Less(a, c)
  {
    if a != [] && b != [] && c != [] && a[0] == b[0] && b[0] == c[0] {
      LessIsTransitive(a[1..], b[1..], c[1..]);
    }
  }

  /** Less is a strict total order on byte strings. */
  lemma {:induction false} LessIsTotalOrder()
    ensures forall a :: !Less(a, a)
    ensures forall a, b {:trigger Less(a, b)} :: Less(a, b) ==> !Less(b, a)
    ensures forall a, b {:trigger Less(a, b)} :: !Less(a, b) && a != b ==> Less(b, a)
    ensures forall a, b, c {:trigger Less(a, b), Less(b, c)} :: Less(a, b) && Less(b, c) ==> Less(a, c)
  {
    forall a, b ensures Compare(b, a) == -Compare(a, b) {
      CompareFlips(a, b);
    }
    forall a, b, c | Less(a, b) && Less(b, c) ensures Less(a, c) {
      LessIsTransitive(a, b, c);
    }
  }

  /** The lexicographic law: at the first difference the smaller byte decides. */
  lemma {:induction false} FirstDifferenceDecides(p: Bytes, c: byte, d: byte, x: Bytes, y: Bytes)
    requires c < d
    ensures Less(p + [c] + x, p + [d] + y)
  {
    var a, b := p + [c] + x, p + [d] + y;
    if p != [] {
      FirstDifferenceDecides(p[1..], c, d, x, y);
      assert a[1..] == p[1..] + [c] + x && b[1..] == p[1..] + [d] + y;
    }
  }

  /** Without a difference, the shorter one comes first. */
  lemma {:induction false} PrefixIsLess(p: Bytes, c: byte, x: Bytes)
    ensures Less(p, p + [c] + x)
  {
    if p != [] {
      PrefixIsLess(p[1..], c, x);
      assert (p + [c] + x)[1..] == p[1..] + [c] + x;
    }
  }

  lemma {:induction false} LessIsLexicographic(a: Bytes, b: Bytes)
    ensures Less(a, b) <==> exists n: nat :: n <= |a| && n < |b| && a[..n] == b[..n] && (n == |a| || a[n] < b[n])
  {
    if Less(a, b) {
      var n := DifferenceOf(a, b);
      assert a[..n] == b[..n];
    }
    if n: nat :| n <= |a| && n < |b| && a[..n] == b[..n] && (n == |a| || a[n] < b[n]) {
      assert b == a[..n] + [b[n]] + b[n + 1..];
      if n == |a| {
        assert a[..n] == a;
        PrefixIsLess(a, b[n], b[n + 1..]);
      } else {
        assert a == a[..n] + [a[n]] + a[n + 1..];
        FirstDifferenceDecides(a[..n], a[n], b[n], a[n + 1..], b[n + 1..]);
      }
    }
  }

  lemma {:induction false} DifferenceOf(a: Bytes, b: Bytes) returns (n: nat)
    requires Less(a, b)
    ensures n <= |a| && n < |b| && a[..n] == b[..n] && (n == |a| || a[n] < b[n])
  {
    if a == [] || a[0] != b[0] {
      n := 0;
    } else {
      var m := DifferenceOf(a[1..], b[1..]);
      n := m + 1;
      assert a[..n] == [a[0]] + a[1..][..m] && b[..n] == [b[0]] + b[1..][..m];
    }
  }

  // ---------------------------------------------------------------- integers

  function Pow256(w: nat): (p: nat)
    ensures p > 0
  {
    if w == 0 then 1 else 256 * Pow256(w - 1)
  }

  /** The w low-order bytes of n, most significant first: a conversion to uint8w followed by
      binary.BigEndian.PutUint8w. Higher-order bytes are lost, as in the Go conversion. */
  function BigEndian(n: nat, w: nat): (s: Bytes)
    ensures |s| == w
  {
    if w == 0 then [] else BigEndian(n / 256, w - 1) + [n % 256]
  }

  function FromBigEndian(s: Bytes): nat {
    if s == [] then 0 else 256 * FromBigEndian(s[..|s| - 1]) + s[|s| - 1]
  }

  /** Byte i carries the digit of weight 256^(w - 1 - i). */
  lemma {:induction false} BigEndianDigit(n: nat, w: nat, i: nat)
    requires i < w
    ensures BigEndian(n, w)[i] == n / Pow256(w - 1 - i) % 256
  {
    if i < w - 1 {
      BigEndianDigit(n / 256, w - 1, i);
      DivideTwice(n, 256, Pow256(w - 2 - i));
    }
  }

  lemma {:induction false} DivideTwice(n: nat, a: nat, b: nat)
    requires a > 0 && b > 0
    ensures a * b > 0 && n / a / b == n / (a * b)
  {
    var m, e := n / a, n % a;
    var q, r := m / b, m % b;
    Nested(n, a, b, m, e, q, r);
    QuotientIs(n, a * b, q, a * r + e);
  }

  lemma {:induction false} Nested(n: nat, a: nat, b: nat, m: nat, e: nat, q: nat, r: nat)
    requires n == a * m + e && e < a && m == b * q + r && r < b
    ensures n == a * b * q + (a * r + e) && a * r + e < a * b
  {
    ProductGrows(a, r + 1, b);
    assert a * (b * q + r) == a * b * q + a * r;
    assert a * (r + 1) == a * r + a;
  }

  lemma {:induction false} QuotientIs(n: nat, d: nat, q: nat, r: nat)
    requires d > 0 && n == d * q + r && r < d
    ensures n / d == q
  {
    ProductGrows(d, q + 1, n / d);
    ProductGrows(d, n / d + 1, q);
  }

  lemma {:induction false} ProductGrows(d: nat, a: nat, b: nat)
    ensures a <= b ==> d * a <= d * b
  {
    if a <= b {
      assert d * b == d * a + d * (b - a);
    }
  }

  lemma {:induction false} BigEndianRoundTrip(n: nat, w: nat)
    requires n < Pow256(w)
    ensures FromBigEndian(BigEndian(n, w)) == n
  {
    if w != 0 {
      BigEndianRoundTrip(n / 256, w - 1);
      assert BigEndian(n, w)[..w - 1] == BigEndian(n / 256, w - 1);
    }
  }

  /** Eight bytes are the four of the high half and the four of the low half. */
  lemma {:induction false} BigEndianHalves(n: nat)
    ensures BigEndian(n, 8) == BigEndian(n / TWO32, 4) + BigEndian(n, 4)
    ensures FromBigEndian(BigEndian(n, 4)) == n % TWO32
  {
    var a, b, c, d := n / 256, n / 256 / 256, n / 256 / 256 / 256, n / 256 / 256 / 256 / 256;
    var low := [c % 256] + [b % 256] + [a % 256] + [n % 256];
    assert d == n / TWO32;
    assert BigEndian(c, 1) == [] + [c % 256] && BigEndian(b, 2) == BigEndian(c, 1) + [b % 256];
    assert BigEndian(a, 3) == BigEndian(b, 2) + [a % 256] && BigEndian(n, 4) == BigEndian(a, 3) + [n % 256];
    assert BigEndian(c, 5) == BigEndian(d, 4) + [c % 256] && BigEndian(b, 6) == BigEndian(c, 5) + [b % 256];
    assert BigEndian(a, 7) == BigEndian(b, 6) + [a % 256] && BigEndian(n, 8) == BigEndian(a, 7) + [n % 256];
    assert BigEndian(n, 4) == low && BigEndian(n, 8) == BigEndian(d, 4) + low;
    FromFour(c % 256, b % 256, a % 256, n % 256);
  }

  lemma {:induction false} FromFour(c: byte, b: byte, a: byte, n: byte)
    ensures FromBigEndian([c] + [b] + [a] + [n]) == 0x100_0000 * c + 0x1_0000 * b + 256 * a + n
  {
    FromBigEndianMore([], c);
    FromBigEndianMore([c], b);
    FromBigEndianMore([c] + [b], a);
    FromBigEndianMore([c] + [b] + [a], n);
    assert [] + [c] == [c];
  }

  lemma {:induction false} FromBigEndianMore(s: Bytes, b: byte)
    ensures FromBigEndian(s + [b]) == 256 * FromBigEndian(s) + b
  {
    assert (s + [b])[..|s|] == s;
  }

  lemma {:induction false} FromBigEndianAppend(x: Bytes, y: Bytes)
    ensures FromBigEndian(x + y) == FromBigEndian(x) * Pow256(|y|) + FromBigEndian(y)
  {
    if y == [] {
      assert x + y == x;
    } else {
      var n := |y| - 1;
      assert (x + y)[..|x + y| - 1] == x + y[..n];
      FromBigEndianAppend(x, y[..n]);
      assert 256 * (FromBigEndian(x) * Pow256(n)) == FromBigEndian(x) * Pow256(|y|);
    }
  }

  lemma {:induction false} BigEndianOfRead(s: Bytes)
    ensures BigEndian(FromBigEndian(s), |s|) == s
  {
    if s != [] {
      BigEndianOfRead(s[..|s| - 1]);
    }
  }

  /** The same, least significant byte first. */
  function LittleEndian(n: nat, w: nat): (s: Bytes)
    ensures |s| == w
  {
    if w == 0 then [] else [n % 256] + LittleEndian(n / 256, w - 1)
  }

  function FromLittleEndian(s: Bytes): nat {
    if s == [] then 0 else s[0] + 256 * FromLittleEndian(s[1..])
  }

  lemma {:induction false} LittleEndianDigit(n: nat, w: nat, i: nat)
    requires i < w
    ensures LittleEndian(n, w)[i] == n / Pow256(i) % 256
  {
    if i > 0 {
      LittleEndianDigit(n / 256, w - 1, i - 1);
      DivideTwice(n, 256, Pow256(i - 1));
    }
  }

  /** What w bytes can hold. */
  lemma {:induction false} LittleEndianIsBounded(s: Bytes)
    ensures FromLittleEndian(s) < Pow256(|s|)
  {
    if s != [] {
      LittleEndianIsBounded(s[1..]);
    }
  }

  lemma {:induction false} LittleEndianRoundTrip(n: nat, w: nat)
    requires n < Pow256(w)
    ensures FromLittleEndian(LittleEndian(n, w)) == n
  {
    if w != 0 {
      LittleEndianRoundTrip(n / 256, w - 1);
      assert LittleEndian(n, w)[1..] == LittleEndian(n / 256, w - 1);
    }
  }

  lemma {:induction false} Widths()
    ensures Pow256(1) == 256 && Pow256(4) == TWO32 && Pow256(8) == TWO64
  {
    assert Pow256(2) == 0x1_0000;
    assert Pow256(5) == 0x100_0000_0000;
    assert Pow256(6) == 0x1_0000_0000_0000;
    assert Pow256(7) == 0x100_0000_0000_0000;
  }

  // --------------------------------------------------- reading at a position

  /** The bytes s stand in the file at position pos. */
  predicate Has(file: Bytes, pos: nat, s: Bytes) {
    pos + |s| <= |file| && file[pos..pos + |s|] == s
  }

  lemma {:induction false} HasSplit(file: Bytes, pos: nat, a: Bytes, b: Bytes)
    ensures Has(file, pos, a + b) <==> Has(file, pos, a) && Has(file, pos + |a|, b)
  {
    if pos + |a| + |b| <= |file| {
      var whole := file[pos..pos + |a| + |b|];
      assert whole[..|a|] == file[pos..pos + |a|];
      assert whole[|a|..] == file[pos + |a|..pos + |a| + |b|];
      assert whole == whole[..|a|] + whole[|a|..];
    }
  }

  function ReadBigEndian(file: Bytes, pos: nat, w: nat): Option<nat> {
    if pos + w <= |file| then Some(FromBigEndian(file[pos..pos + w])) else None
  }

  function ReadBytes(file: Bytes, pos: nat, n: nat): Option<Bytes> {
    if pos + n <= |file| then Some(file[pos..pos + n]) else None
  }

  /** A cut file reads as before in front of the cut, and not beyond it. */
  lemma {:induction false} ReadsBeforeCut(file: Bytes, cut: nat, pos: nat, n: nat)
    requires cut <= |file|
    ensures ReadBigEndian(file[..cut], pos, n) == if pos + n <= cut then ReadBigEndian(file, pos, n) else None
    ensures ReadBytes(file[..cut], pos, n) == if pos + n <= cut then ReadBytes(file, pos, n) else None
  {
    if pos + n <= cut {
      assert file[..cut][pos..pos + n] == file[pos..pos + n];
    }
  }

  lemma {:induction false} ReadsBack(file: Bytes, pos: nat, n: nat, w: nat)
    requires Has(file, pos, BigEndian(n, w)) && n < Pow256(w)
    ensures ReadBigEndian(file, pos, w) == Some(n)
  {
    BigEndianRoundTrip(n, w);
  }

  /** A length-prefixed string: [len 4][bytes]. */
  function Chunk(s: Bytes): (c: Bytes)
    ensures |c| == 4 + |s|
  {
    BigEndian(|s|, 4) + s
  }

  datatype Piece = Piece(bytes: Bytes, next: nat)

  function ReadChunk(file: Bytes, pos: nat): (r: Option<Piece>)
    ensures r.Some? ==> r.value.next == pos + 4 + |r.value.bytes| <= |file|
  {
    match ReadBigEndian(file, pos, 4)
    case None => None
    case Some(n) =>
      match ReadBytes(file, pos + 4, n)
      case None => None
      case Some(s) => Some(Piece(s, pos + 4 + n))
  }

  lemma {:induction false} ChunkReadsBack(file: Bytes, pos: nat, s: Bytes)
    requires Has(file, pos, Chunk(s)) && |s| < TWO32
    ensures ReadChunk(file, pos) == Some(Piece(s, pos + 4 + |s|))
  {
    Widths();
    HasSplit(file, pos, BigEndian(|s|, 4), s);
    ReadsBack(file, pos, |s|, 4);
  }

  // ---------------------------------------------------------------- sequences

  /** s with x spliced in at position p. */
  function Splice<T>(s: seq<T>, p: nat, x: T): (r: seq<T>)
    requires p <= |s|
    ensures |r| == |s| + 1
    ensures forall i {:trigger r[i]} :: 0 <= i < |r| ==>
      r[i] == if i < p then s[i] else if i == p then x else s[i - 1]
  {
    s[..p] + [x] + s[p..]
  }

  lemma {:induction false} SpliceCons<T>(h: T, s: seq<T>, p: nat, x: T)
    requires p <= |s|
    ensures Splice([h] + s, p + 1, x) == [h] + Splice(s, p, x)
    ensures Splice(s, 0, x) == [x] + s
  {
  }

  function Max(a: int, b: int): int {
    if a < b then b else a
  }
}
